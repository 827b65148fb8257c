/** The private-chat transport of the newer server (`back/src/utils/socket.js`): the secret room
    of a pair of users, and the `joinChat`, `sendMessage` and `disconnect` handlers acting on the
    socket server's rooms, the chat-thread store and the events sent out.

    SHA-256 is not computed: a room id is the symbolic digest `Sha256Hex(preimage)` of the
    string that is hashed, so two room ids are equal exactly when their preimages are. */
module ChatSocket {
  import opened Wrappers
  import opened JsStrings

  type UserId = string
  type SocketId = string

  datatype RoomId = Sha256Hex(preimage: string)

  /** `getSecretRoomId(a, b)`: the digest of the two ids, sorted, joined with "$". */
  function SecretRoomId(a: UserId, b: UserId): RoomId
  {
    Sha256Hex(Join(SortPair(a, b), "$"))
  }

  /** Both users of a pair compute the same room, whoever calls first. */
  lemma SecretRoomIdSymmetric(a: UserId, b: UserId)
    ensures SecretRoomId(a, b) == SecretRoomId(b, a)
  {
    SortPairSymmetric(a, b);
  }

  predicate NoDollar(s: string)
  {
    forall i :: 0 <= i < |s| ==> s[i] != '$'
  }

  /** In `x + "$" + y`, with `x` free of `$`, the first `$` is the separator. */
  lemma DollarAt(x: string, y: string, i: nat)
    requires NoDollar(x) && i <= |x|
    ensures (x + "$" + y)[i] == '$' <==> i == |x|
  {
  }

  /** Two `$`-free strings joined by one `$` can be split back apart. */
  lemma {:induction false} DollarJoinInjective(x: string, y: string, u: string, v: string)
    requires NoDollar(x) && NoDollar(u)
    requires x + "$" + y == u + "$" + v
    ensures x == u && y == v
  {
    var w := x + "$" + y;
    var m := if |x| < |u| then |x| else |u|;
    DollarAt(x, y, m);
    DollarAt(u, v, m);
    assert x == w[..|x|] && u == w[..|u|];
    assert y == w[|x| + 1..] && v == w[|u| + 1..];
  }

  /** For ids without `$` (the hexadecimal ObjectId strings), two pairs share a room exactly
      when they are the same unordered pair. */
  lemma SecretRoomIdSeparatesPairs(a: UserId, b: UserId, c: UserId, d: UserId)
    requires NoDollar(a) && NoDollar(b) && NoDollar(c) && NoDollar(d)
    ensures SecretRoomId(a, b) == SecretRoomId(c, d) <==> ((a == c && b == d) || (a == d && b == c))
  {
    SecretRoomIdSymmetric(c, d);
    if SecretRoomId(a, b) == SecretRoomId(c, d) {
      var p, q := SortPair(a, b), SortPair(c, d);
      assert Join(p, "$") == p[0] + "$" + p[1];
      assert Join(q, "$") == q[0] + "$" + q[1];
      DollarJoinInjective(p[0], p[1], q[0], q[1]);
    }
  }

  /** Ids that may contain `$` can collide: ("a$b", "c") and ("a", "b$c") share a room. */
  lemma DollarIdsCanShareRoom()
    ensures SecretRoomId("a$b", "c") == SecretRoomId("a", "b$c")
    ensures !(("a$b" == "a" && "c" == "b$c") || ("a$b" == "b$c" && "c" == "a"))
  {
    assert SortPair("a$b", "c") == ["a$b", "c"];
    assert SortPair("a", "b$c") == ["a", "b$c"];
  }

  // ---------------------------------------------------------------- the hub

  /** One message of a chat thread as `$push` stores it. */
  datatype ChatMessage = ChatMessage(senderId: UserId, text: string)

  datatype Event =
    | MessageReceived(firstName: Option<string>, lastName: Option<string>, text: string, senderId: UserId, createdAt: int)
    | ErrorEvent(message: string)

  /** An event sent to every socket in a room at that moment, or to one socket. */
  datatype Emission = ToRoom(room: RoomId, recipients: set<SocketId>, event: Event) | ToSocket(socket: SocketId, event: Event)

  const SendFailedMessage: string := "Message could not be sent"

  /** `listening`: the sockets whose handlers are registered; `rooms`: room membership;
      `threads`: the chat documents, keyed by their participants; `emitted`: events sent so far. */
  datatype Hub = Hub(listening: set<SocketId>, rooms: map<RoomId, set<SocketId>>,
                     threads: map<set<UserId>, seq<ChatMessage>>, emitted: seq<Emission>)

  function Members(rooms: map<RoomId, set<SocketId>>, room: RoomId): set<SocketId>
  {
    if room in rooms then rooms[room] else {}
  }

  function Thread(threads: map<set<UserId>, seq<ChatMessage>>, key: set<UserId>): seq<ChatMessage>
  {
    if key in threads then threads[key] else []
  }

  /** Only connected sockets are in a room. */
  predicate HubValid(h: Hub)
  {
    forall room :: room in h.rooms ==> h.rooms[room] <= h.listening
  }

  /** A JavaScript falsy id: missing, null or the empty string. */
  predicate Falsy(id: Option<UserId>)
  {
    id.None? || id.value == ""
  }

  /** `io.on("connection")`: the socket's handlers are registered. */
  function ConnectStep(h: Hub, s: SocketId): Hub
  {
    h.(listening := h.listening + {s})
  }

  /** `joinChat`: with both ids truthy, the socket joins the pair's room. */
  function JoinStep(h: Hub, s: SocketId, userId: Option<UserId>, targetUserId: Option<UserId>): Hub
  {
    if s !in h.listening || Falsy(userId) || Falsy(targetUserId) then h
    else
      var room := SecretRoomId(userId.value, targetUserId.value);
      h.(rooms := h.rooms[room := Members(h.rooms, room) + {s}])
  }

  /** `sendMessage`. A missing id makes `toString()` throw before the text check, which ends in
      the error event; blank text returns silently; otherwise the message is pushed onto the
      pair's thread (`storeOk` is whether the update succeeds) and then sent to the room. */
  function SendStep(h: Hub, s: SocketId, firstName: Option<string>, lastName: Option<string>,
                    userId: Option<UserId>, targetUserId: Option<UserId>, text: Option<string>,
                    storeOk: bool, now: int): Hub
  {
    if s !in h.listening then h
    else if userId.None? || targetUserId.None? then
      h.(emitted := h.emitted + [ToSocket(s, ErrorEvent(SendFailedMessage))])
    else
      var u, t := userId.value, targetUserId.value;
      var room := SecretRoomId(u, t);
      if text.None? || Trim(text.value) == "" then h
      else if !storeOk then h.(emitted := h.emitted + [ToSocket(s, ErrorEvent(SendFailedMessage))])
      else
        var key := {u, t};
        h.(threads := h.threads[key := Thread(h.threads, key) + [ChatMessage(u, text.value)]],
           emitted := h.emitted + [ToRoom(room, Members(h.rooms, room),
                                          MessageReceived(firstName, lastName, text.value, u, now))])
  }

  /** `disconnect`: every listener is removed, and the socket leaves all its rooms. */
  function DisconnectStep(h: Hub, s: SocketId): Hub
  {
    h.(listening := h.listening - {s}, rooms := map room | room in h.rooms :: h.rooms[room] - {s})
  }

  /** A falsy id changes nothing; otherwise the socket is added to exactly the pair's room. */
  lemma JoinOnlyPairRoom(h: Hub, s: SocketId, userId: Option<UserId>, targetUserId: Option<UserId>)
    ensures var h' := JoinStep(h, s, userId, targetUserId);
      && (Falsy(userId) || Falsy(targetUserId) ==> h' == h)
      && (s in h.listening && !Falsy(userId) && !Falsy(targetUserId) ==>
          var room := SecretRoomId(userId.value, targetUserId.value);
          && Members(h'.rooms, room) == Members(h.rooms, room) + {s}
          && (forall other :: other != room ==> Members(h'.rooms, other) == Members(h.rooms, other))
          && h'.listening == h.listening && h'.threads == h.threads && h'.emitted == h.emitted)
  {
  }

  /** Missing or whitespace-only text changes no thread and emits nothing. */
  lemma SendBlankIsSilent(h: Hub, s: SocketId, firstName: Option<string>, lastName: Option<string>,
                          u: UserId, t: UserId, text: Option<string>, storeOk: bool, now: int)
    requires text.None? || IsBlank(text.value)
    ensures SendStep(h, s, firstName, lastName, Some(u), Some(t), text, storeOk, now) == h
  {
    if text.Some? {
      TrimEmptyIffBlank(text.value);
    }
  }

  /** A message that is stored is appended, as `{senderId: userId, text}`, to the end of the
      pair's thread, created if absent; no other thread changes, and then one `messageReceived`
      carrying the same sender and text goes to the sockets in the pair's room. */
  lemma SendAppendsOne(h: Hub, s: SocketId, firstName: Option<string>, lastName: Option<string>,
                       u: UserId, t: UserId, text: string, now: int)
    requires s in h.listening && !IsBlank(text)
    ensures var h' := SendStep(h, s, firstName, lastName, Some(u), Some(t), Some(text), true, now);
      var room := SecretRoomId(u, t);
      && Thread(h'.threads, {u, t}) == Thread(h.threads, {u, t}) + [ChatMessage(u, text)]
      && (forall key :: key != {u, t} ==> Thread(h'.threads, key) == Thread(h.threads, key))
      && h'.emitted == h.emitted + [ToRoom(room, Members(h.rooms, room), MessageReceived(firstName, lastName, text, u, now))]
      && h'.rooms == h.rooms && h'.listening == h.listening
      && (HubValid(h) ==> Members(h.rooms, room) <= h.listening)
  {
    TrimEmptyIffBlank(text);
    var key, room := {u, t}, SecretRoomId(u, t);
    var h' := SendStep(h, s, firstName, lastName, Some(u), Some(t), Some(text), true, now);
    assert h' == h.(threads := h.threads[key := Thread(h.threads, key) + [ChatMessage(u, text)]],
                    emitted := h.emitted + [ToRoom(room, Members(h.rooms, room),
                                                   MessageReceived(firstName, lastName, text, u, now))]);
  }

  /** A failed store update sends the error event to the sending socket only: no thread
      changes and no room broadcast happens. */
  lemma SendStoreFailureOnlyErrors(h: Hub, s: SocketId, firstName: Option<string>, lastName: Option<string>,
                                   u: UserId, t: UserId, text: string, now: int)
    requires s in h.listening && !IsBlank(text)
    ensures SendStep(h, s, firstName, lastName, Some(u), Some(t), Some(text), false, now)
         == h.(emitted := h.emitted + [ToSocket(s, ErrorEvent(SendFailedMessage))])
  {
    TrimEmptyIffBlank(text);
  }

  /** A room broadcast happens exactly when the message was stored; whatever the step does, it
      adds at most one emission and never removes a message from a thread. */
  lemma SendBroadcastIffStored(h: Hub, s: SocketId, firstName: Option<string>, lastName: Option<string>,
                               userId: Option<UserId>, targetUserId: Option<UserId>, text: Option<string>,
                               storeOk: bool, now: int)
    ensures var h' := SendStep(h, s, firstName, lastName, userId, targetUserId, text, storeOk, now);
      && h.emitted <= h'.emitted && |h'.emitted| <= |h.emitted| + 1
      && ((|h'.emitted| == |h.emitted| + 1 && h'.emitted[|h.emitted|].ToRoom?) <==>
          (s in h.listening && userId.Some? && targetUserId.Some? && storeOk && text.Some? && !IsBlank(text.value)))
      && (forall key :: Thread(h.threads, key) <= Thread(h'.threads, key))
  {
    if text.Some? {
      TrimEmptyIffBlank(text.value);
    }
  }

  /** After `disconnect` the socket has no handlers left: its later events change nothing. */
  lemma DisconnectedSocketIgnored(h: Hub, s: SocketId, firstName: Option<string>, lastName: Option<string>,
                                  userId: Option<UserId>, targetUserId: Option<UserId>, text: Option<string>,
                                  storeOk: bool, now: int)
    ensures var h' := DisconnectStep(h, s);
      && JoinStep(h', s, userId, targetUserId) == h'
      && SendStep(h', s, firstName, lastName, userId, targetUserId, text, storeOk, now) == h'
      && (forall room :: s !in Members(h'.rooms, room))
      && h'.threads == h.threads && h'.emitted == h.emitted
  {
  }

  datatype HubAction =
    | Connect(socket: SocketId)
    | JoinChat(socket: SocketId, userId: Option<UserId>, targetUserId: Option<UserId>)
    | SendMessage(socket: SocketId, firstName: Option<string>, lastName: Option<string>,
                  userId: Option<UserId>, targetUserId: Option<UserId>, text: Option<string>, storeOk: bool, now: int)
    | Disconnect(socket: SocketId)

  function ApplyHub(h: Hub, a: HubAction): Hub
  {
    match a
    case Connect(s) => ConnectStep(h, s)
    case JoinChat(s, u, t) => JoinStep(h, s, u, t)
    case SendMessage(s, f, l, u, t, text, ok, now) => SendStep(h, s, f, l, u, t, text, ok, now)
    case Disconnect(s) => DisconnectStep(h, s)
  }

  function RunHub(h: Hub, actions: seq<HubAction>): Hub
    decreases |actions|
  {
    if actions == [] then h else RunHub(ApplyHub(h, actions[0]), actions[1..])
  }

  lemma ApplyHubPreservesValid(h: Hub, a: HubAction)
    requires HubValid(h)
    ensures HubValid(ApplyHub(h, a))
  {
    match a {
      case Connect(s) =>
      case JoinChat(s, u, t) =>
      case SendMessage(s, f, l, u, t, text, ok, now) =>
      case Disconnect(s) =>
        var h' := DisconnectStep(h, s);
        forall room | room in h'.rooms ensures h'.rooms[room] <= h'.listening {
          assert h'.rooms[room] == h.rooms[room] - {s};
        }
    }
  }

  /** Whatever the events, only connected sockets are ever in a room, so a broadcast never
      reaches a socket that has disconnected. */
  lemma {:induction false} RunHubPreservesValid(h: Hub, actions: seq<HubAction>)
    requires HubValid(h)
    ensures HubValid(RunHub(h, actions))
    decreases |actions|
  {
    if actions != [] {
      ApplyHubPreservesValid(h, actions[0]);
      RunHubPreservesValid(ApplyHub(h, actions[0]), actions[1..]);
    }
  }

  /** The socket server's state, updated in place by the registered handlers. */
  class ChatHub {
    var listening: set<SocketId>
    var rooms: map<RoomId, set<SocketId>>
    var threads: map<set<UserId>, seq<ChatMessage>>
    var emitted: seq<Emission>

    function Snapshot(): Hub
      reads this
    {
      Hub(listening, rooms, threads, emitted)
    }

    constructor ()
      ensures Snapshot() == Hub({}, map[], map[], [])
    {
      listening := {};
      rooms := map[];
      threads := map[];
      emitted := [];
    }

    method Connect(s: SocketId)
      requires HubValid(Snapshot())
      modifies this
      ensures HubValid(Snapshot())
      ensures Snapshot() == ConnectStep(old(Snapshot()), s)
    {
      listening := listening + {s};
    }

    method JoinChat(s: SocketId, userId: Option<UserId>, targetUserId: Option<UserId>)
      requires HubValid(Snapshot())
      modifies this
      ensures HubValid(Snapshot())
      ensures Snapshot() == JoinStep(old(Snapshot()), s, userId, targetUserId)
    {
      if s !in listening || Falsy(userId) || Falsy(targetUserId) {
        return;
      }
      var room := SecretRoomId(userId.value, targetUserId.value);
      rooms := rooms[room := Members(rooms, room) + {s}];
    }

    method SendMessage(s: SocketId, firstName: Option<string>, lastName: Option<string>,
                       userId: Option<UserId>, targetUserId: Option<UserId>, text: Option<string>,
                       storeOk: bool, now: int)
      requires HubValid(Snapshot())
      modifies this
      ensures HubValid(Snapshot())
      ensures Snapshot() == SendStep(old(Snapshot()), s, firstName, lastName, userId, targetUserId, text, storeOk, now)
    {
      if s !in listening {
        return;
      }
      if userId.None? || targetUserId.None? {
        emitted := emitted + [ToSocket(s, ErrorEvent(SendFailedMessage))];
        return;
      }
      var u, t := userId.value, targetUserId.value;
      var room := SecretRoomId(u, t);
      if text.None? || Trim(text.value) == "" {
        return;
      }
      if !storeOk {
        emitted := emitted + [ToSocket(s, ErrorEvent(SendFailedMessage))];
        return;
      }
      var key := {u, t};
      threads := threads[key := Thread(threads, key) + [ChatMessage(u, text.value)]];
      emitted := emitted + [ToRoom(room, Members(rooms, room), MessageReceived(firstName, lastName, text.value, u, now))];
    }

    method Disconnect(s: SocketId)
      requires HubValid(Snapshot())
      modifies this
      ensures HubValid(Snapshot())
      ensures Snapshot() == DisconnectStep(old(Snapshot()), s)
    {
      ApplyHubPreservesValid(Snapshot(), HubAction.Disconnect(s));
      listening := listening - {s};
      rooms := map room | room in rooms :: rooms[room] - {s};
    }
  }
}
