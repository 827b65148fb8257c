/** The read side of the newer server (`back/src/routes/user.js`): the profile edit whitelist,
    the pending requests received, the accepted connections mapped to the other user, and the
    discovery feed that hides everyone the logged-in user already has a record with.

    The connection requests are the ledger of `RequestRoutes`; the users are their ids in
    store order. `populate()` of an id with no user document gives null, modelled as None. */
module UserRoutes {
  import opened Wrappers
  import opened ConnectionRequestModel
  import opened MongoQuery
  import opened Pagination
  import R = RequestRoutes

  // ---------------------------------------------------------------- profile edit

  const AllowedUpdates: seq<string> :=
    ["firstName", "lastName", "photoUrl", "gender", "age", "bio", "skills", "devRole", "projectLink"]

  /** The profile after the body's keys, in `Object.keys` order, have been looked at: a key in
      the whitelist overwrites the field of that name, any other key is ignored. */
  function ApplyWhitelist<V>(fields: map<string, V>, body: seq<(string, V)>): map<string, V>
    decreases |body|
  {
    if body == [] then fields
    else
      var before := ApplyWhitelist(fields, body[..|body| - 1]);
      var (key, value) := body[|body| - 1];
      if key in AllowedUpdates then before[key := value] else before
  }

  /** A field outside the whitelist, or one the body does not name, is exactly as it was:
      `emailId`, `password` or `membershipType` cannot be changed this way. */
  lemma {:induction false} WhitelistProtects<V>(fields: map<string, V>, body: seq<(string, V)>, k: string)
    requires k !in AllowedUpdates || forall i :: 0 <= i < |body| ==> body[i].0 != k
    ensures var r := ApplyWhitelist(fields, body);
      (k in r <==> k in fields) && (k in fields ==> r[k] == fields[k])
    decreases |body|
  {
    if body != [] {
      WhitelistProtects(fields, body[..|body| - 1], k);
    }
  }

  /** A whitelisted key of the body sets its field to the body's value (body keys are
      distinct, as in a parsed JSON object, so no later entry overrides it). */
  lemma {:induction false} WhitelistCopies<V>(fields: map<string, V>, body: seq<(string, V)>, i: nat)
    requires i < |body| && body[i].0 in AllowedUpdates
    requires forall j :: i < j < |body| ==> body[j].0 != body[i].0
    ensures var r := ApplyWhitelist(fields, body);
      body[i].0 in r && r[body[i].0] == body[i].1
    decreases |body|
  {
    if i < |body| - 1 {
      WhitelistCopies(fields, body[..|body| - 1], i);
    }
  }

  /** The logged-in user's stored document. */
  class UserDocument<V> {
    var stored: map<string, V>

    constructor (fields: map<string, V>)
      ensures stored == fields
    {
      stored := fields;
    }

    /** `PATCH /profile/edit`: the whitelisted keys are copied one by one onto the document,
        which is then saved (`saveOk` is whether the user schema accepts it); the reply is 200
        with the updated document, or 400 with the store unchanged. */
    method EditProfile(body: seq<(string, V)>, saveOk: bool) returns (httpStatus: int, data: map<string, V>)
      modifies this
      ensures data == ApplyWhitelist(old(stored), body)
      ensures httpStatus == (if saveOk then 200 else 400)
      ensures stored == (if saveOk then data else old(stored))
    {
      var doc := stored;
      var i := 0;
      while i < |body|
        invariant 0 <= i <= |body|
        invariant doc == ApplyWhitelist(stored, body[..i])
      {
        assert body[..i + 1][..i] == body[..i];
        var (key, value) := body[i];
        if key in AllowedUpdates {
          doc := doc[key := value];
        }
        i := i + 1;
      }
      assert body[..|body|] == body;
      data := doc;
      if saveOk {
        stored := doc;
        httpStatus := 200;
      } else {
        httpStatus := 400;
      }
    }
  }

  // ---------------------------------------------------------------- requests received

  /** `find({toUserId: me, status: "interested"})`, in store order. */
  function Received(rs: seq<ConnectionRequest>, me: UserId): (r: seq<ConnectionRequest>)
    ensures |r| <= |rs|
    ensures forall x :: x in r <==> x in rs && x.toUserId == me && x.status == Interested
  {
    if rs == [] then []
    else
      var rest := Received(rs[1..], me);
      assert forall x :: x in rs <==> x == rs[0] || x in rs[1..];
      if rs[0].toUserId == me && rs[0].status == Interested then [rs[0]] + rest else rest
  }

  // ---------------------------------------------------------------- connections

  /** `find({$or: [{toUserId: me, status: "accepted"}, {fromUserId: me, status: "accepted"}]})`. */
  function AcceptedWith(rs: seq<ConnectionRequest>, me: UserId): (r: seq<ConnectionRequest>)
    ensures |r| <= |rs|
    ensures forall x :: x in r <==> x in rs && x.status == Accepted && (x.toUserId == me || x.fromUserId == me)
  {
    if rs == [] then []
    else
      var rest := AcceptedWith(rs[1..], me);
      assert forall x :: x in rs <==> x == rs[0] || x in rs[1..];
      if rs[0].status == Accepted && (rs[0].toUserId == me || rs[0].fromUserId == me) then [rs[0]] + rest else rest
  }

  /** The other user of a record: `to` when I am `from`, else `from`. */
  function Counterpart(row: ConnectionRequest, me: UserId): UserId
  {
    if row.fromUserId == me then row.toUserId else row.fromUserId
  }

  /** The populated reference: the user, or null when no user has that id. */
  function Populated(u: UserId, users: seq<UserId>): Option<UserId>
  {
    if u in users then Some(u) else None
  }

  datatype ConnectionsError = NullSender(requestId: nat)

  /** The `.map` over the populated rows. Reading `_id` of a null sender throws, which fails
      the whole request; a null recipient is passed through as null. */
  function MapCounterparts(rows: seq<ConnectionRequest>, me: UserId, users: seq<UserId>): (r: Result<seq<Option<UserId>>, ConnectionsError>)
    ensures r.Failure? <==> exists i :: 0 <= i < |rows| && rows[i].fromUserId !in users
    ensures r.Success? ==>
      |r.value| == |rows| && forall i :: 0 <= i < |rows| ==> r.value[i] == Populated(Counterpart(rows[i], me), users)
  {
    if rows == [] then Success([])
    else if rows[0].fromUserId !in users then Failure(NullSender(rows[0].id))
    else
      match MapCounterparts(rows[1..], me, users)
      case Failure(e) => assert rows[1..][0] == rows[1]; Failure(e)
      case Success(rest) => Success([Populated(Counterpart(rows[0], me), users)] + rest)
  }

  /** `GET /user/connections`. */
  function Connections(rs: seq<ConnectionRequest>, me: UserId, users: seq<UserId>): Result<seq<Option<UserId>>, ConnectionsError>
  {
    MapCounterparts(AcceptedWith(rs, me), me, users)
  }

  /** Over a valid ledger the connections are exactly the other users of my accepted records:
      each entry is some accepted record's other user, never me, and every accepted record of
      mine whose other user exists shows up. The request fails exactly when a sender of one of
      those records has no user document. */
  lemma ConnectionsAreCounterparts(l: R.Ledger, me: UserId, users: seq<UserId>)
    requires R.Valid(l)
    ensures var r := Connections(l.records, me, users);
      && (r.Failure? <==> exists x :: x in l.records && x.status == Accepted
                                     && (x.toUserId == me || x.fromUserId == me) && x.fromUserId !in users)
      && (r.Success? ==>
          && |r.value| == |AcceptedWith(l.records, me)|
          && (forall c :: Some(c) in r.value ==>
                c != me && c in users && exists x :: x in l.records && x.status == Accepted && SamePair(x, me, c))
          && (forall x :: (x in l.records && x.status == Accepted && (x.toUserId == me || x.fromUserId == me)
                           && Counterpart(x, me) in users) ==> Some(Counterpart(x, me)) in r.value))
  {
    var rows := AcceptedWith(l.records, me);
    var r := Connections(l.records, me, users);
    if r.Failure? {
      var i :| 0 <= i < |rows| && rows[i].fromUserId !in users;
      assert rows[i] in rows;
    }
    if r.Success? {
      forall c | Some(c) in r.value
        ensures c != me && c in users && exists x :: x in l.records && x.status == Accepted && SamePair(x, me, c)
      {
        var i :| 0 <= i < |r.value| && r.value[i] == Some(c);
        assert rows[i] in rows;
        var k :| 0 <= k < |l.records| && l.records[k] == rows[i];
        assert l.records[k].fromUserId != l.records[k].toUserId;
      }
      forall x | x in l.records && x.status == Accepted && (x.toUserId == me || x.fromUserId == me)
                 && Counterpart(x, me) in users
        ensures Some(Counterpart(x, me)) in r.value
      {
        assert x in rows;
        var i :| 0 <= i < |rows| && rows[i] == x;
        assert r.value[i] == Some(Counterpart(x, me));
      }
    }
  }

  // ---------------------------------------------------------------- feed

  /** `find({$or: [{fromUserId: me}, {toUserId: me}]})`, in store order. */
  function Involving(rs: seq<ConnectionRequest>, me: UserId): (r: seq<ConnectionRequest>)
    ensures forall x :: x in r <==> x in rs && (x.fromUserId == me || x.toUserId == me)
  {
    if rs == [] then []
    else
      var rest := Involving(rs[1..], me);
      assert forall x :: x in rs <==> x == rs[0] || x in rs[1..];
      if rs[0].fromUserId == me || rs[0].toUserId == me then [rs[0]] + rest else rest
  }

  /** The users the feed hides from `me`: `me`, and everyone with a record with `me`. */
  predicate Hidden(rs: seq<ConnectionRequest>, me: UserId, u: UserId)
  {
    u == me || R.PairExists(rs, me, u)
  }

  /** Both ends of every record of `me` are `me` or a user with a record with `me`. */
  lemma EndsOfInvolving(rs: seq<ConnectionRequest>, me: UserId, x: ConnectionRequest, u: UserId)
    requires x in rs && (x.fromUserId == me || x.toUserId == me)
    requires u == x.fromUserId || u == x.toUserId
    ensures Hidden(rs, me, u)
  {
    var k :| 0 <= k < |rs| && rs[k] == x;
    if u != me {
      assert SamePair(rs[k], me, u);
    }
  }

  /** The hide set, built as the handler builds it: both ends of every record of `me`, then `me`. */
  method HideSet(rs: seq<ConnectionRequest>, me: UserId) returns (hideSet: set<UserId>)
    ensures forall u :: u in hideSet <==> Hidden(rs, me, u)
  {
    var found := Involving(rs, me);
    hideSet := {};
    var i := 0;
    while i < |found|
      invariant 0 <= i <= |found|
      invariant forall u :: u in hideSet <==> exists j :: 0 <= j < i && (u == found[j].fromUserId || u == found[j].toUserId)
    {
      hideSet := hideSet + {found[i].fromUserId, found[i].toUserId};
      i := i + 1;
    }
    hideSet := hideSet + {me};
    forall u | u in hideSet ensures Hidden(rs, me, u) {
      if u != me {
        var j :| 0 <= j < |found| && (u == found[j].fromUserId || u == found[j].toUserId);
        assert found[j] in found;
        EndsOfInvolving(rs, me, found[j], u);
      }
    }
    forall u | Hidden(rs, me, u) ensures u in hideSet {
      if u != me {
        var k :| 0 <= k < |rs| && SamePair(rs[k], me, u);
        assert rs[k] in found;
        var j :| 0 <= j < |found| && found[j] == rs[k];
        assert u == found[j].fromUserId || u == found[j].toUserId;
      }
    }
  }

  /** `User.find({_id: {$nin: hide}})`, in store order. */
  function NotIn(users: seq<UserId>, hideSet: set<UserId>): (r: seq<UserId>)
    ensures |r| <= |users|
    ensures forall u :: u in r <==> u in users && u !in hideSet
  {
    if users == [] then []
    else
      var rest := NotIn(users[1..], hideSet);
      assert forall u :: u in users <==> u == users[0] || u in users[1..];
      if users[0] !in hideSet then [users[0]] + rest else rest
  }

  /** The filter works piece by piece; with its membership contract this fixes the result as
      the users outside the hide set, in store order. */
  lemma {:induction false} NotInAppend(x: seq<UserId>, y: seq<UserId>, hideSet: set<UserId>)
    ensures NotIn(x + y, hideSet) == NotIn(x, hideSet) + NotIn(y, hideSet)
  {
    if x != [] {
      assert (x + y)[0] == x[0];
      assert (x + y)[1..] == x[1..] + y;
      NotInAppend(x[1..], y, hideSet);
    } else {
      assert x + y == y;
    }
  }

  /** Only membership of the listed users in the hide set matters to the filter. */
  lemma {:induction false} NotInAgree(users: seq<UserId>, h1: set<UserId>, h2: set<UserId>)
    requires forall u :: u in users ==> (u in h1 <==> u in h2)
    ensures NotIn(users, h1) == NotIn(users, h2)
  {
    if users != [] {
      assert forall u :: u in users[1..] ==> u in users;
      NotInAgree(users[1..], h1, h2);
    }
  }

  /** The users I have never interacted with, other than me, in store order. */
  function Unseen(users: seq<UserId>, rs: seq<ConnectionRequest>, me: UserId): (r: seq<UserId>)
    ensures forall u :: u in r <==> u in users && !Hidden(rs, me, u)
  {
    NotIn(users, set u | u in users && Hidden(rs, me, u))
  }

  /** The unseen list of two stretches of the store is the unseen list of each, in turn. */
  lemma UnseenAppend(x: seq<UserId>, y: seq<UserId>, rs: seq<ConnectionRequest>, me: UserId)
    ensures Unseen(x + y, rs, me) == Unseen(x, rs, me) + Unseen(y, rs, me)
  {
    var h := set u | u in x + y && Hidden(rs, me, u);
    NotInAppend(x, y, h);
    NotInAgree(x, h, set u | u in x && Hidden(rs, me, u));
    NotInAgree(y, h, set u | u in y && Hidden(rs, me, u));
  }

  /** What `GET /feed` returns: the requested page of the unseen users (limit 10 by default);
      a negative skip is refused by the store, which the handler answers with 400. */
  function FeedResult(rs: seq<ConnectionRequest>, me: UserId, users: seq<UserId>, pageQ: Option<int>, limitQ: Option<int>): Result<seq<UserId>, QueryError>
  {
    var w := PageWindow(pageQ, limitQ, 10);
    SkipLimit(Unseen(users, rs, me), w.skip, w.limit)
  }

  /** `GET /feed`. */
  method Feed(rs: seq<ConnectionRequest>, me: UserId, users: seq<UserId>, pageQ: Option<int>, limitQ: Option<int>)
    returns (r: Result<seq<UserId>, QueryError>)
    ensures r == FeedResult(rs, me, users, pageQ, limitQ)
  {
    var w := PageWindow(pageQ, limitQ, 10);
    var hideSet := HideSet(rs, me);
    NotInHideSet(users, hideSet, set u | u in users && Hidden(rs, me, u));
    r := SkipLimit(NotIn(users, hideSet), w.skip, w.limit);
  }

  /** Filtering by two hide sets that agree on the users gives the same result. */
  lemma {:induction false} NotInHideSet(users: seq<UserId>, a: set<UserId>, b: set<UserId>)
    requires forall u :: u in users ==> (u in a <==> u in b)
    ensures NotIn(users, a) == NotIn(users, b)
  {
    if users != [] {
      assert forall u :: u in users[1..] ==> u in users;
      NotInHideSet(users[1..], a, b);
    }
  }

  /** The feed never shows me, nor anyone who has a record with me in either direction, and it
      lists at most `limit` users. */
  lemma FeedHidesKnownUsers(rs: seq<ConnectionRequest>, me: UserId, users: seq<UserId>, pageQ: Option<int>, limitQ: Option<int>)
    ensures var r := FeedResult(rs, me, users, pageQ, limitQ);
      var w := PageWindow(pageQ, limitQ, 10);
      && (r.Failure? <==> w.skip < 0)
      && (r.Success? ==>
          && (forall u :: u in r.value ==> u in users && u != me && !R.PairExists(rs, me, u))
          && |r.value| <= Abs(w.limit)
          && (w.limit > 0 ==> |r.value| <= w.limit))
  {
    var w := PageWindow(pageQ, limitQ, 10);
    var unseen := Unseen(users, rs, me);
    var r := FeedResult(rs, me, users, pageQ, limitQ);
    if r.Success? {
      var start := Min(w.skip, |unseen|);
      forall u | u in r.value ensures u in unseen {
        var i :| 0 <= i < |r.value| && r.value[i] == u;
        assert unseen[start + i] == u;
      }
    }
  }

  /** Every unseen user is on some page: with the default page size, each one appears on the
      page whose window covers its position. */
  lemma FeedCoversUnseen(rs: seq<ConnectionRequest>, me: UserId, users: seq<UserId>, page: int, k: nat)
    requires page >= 1
    requires var unseen := Unseen(users, rs, me); (page - 1) * 10 <= k < page * 10 && k < |unseen|
    ensures var r := FeedResult(rs, me, users, Some(page), None);
      r.Success? && Unseen(users, rs, me)[k] in r.value
  {
    var unseen := Unseen(users, rs, me);
    var r := FeedResult(rs, me, users, Some(page), None);
    var skip := (page - 1) * 10;
    assert r.value == unseen[skip..skip + |r.value|];
    assert r.value[k - skip] == unseen[k];
  }
}
