/** The read side of the first server (`src/routes/user.js`): the same three queries as
    `UserRoutes`, with a `{success, message, data}` reply envelope, and a feed that leaves the
    logged-in user out of the hide set and excludes them with a separate `$ne` condition. */
module LegacyUserRoutes {
  import opened Wrappers
  import opened ConnectionRequestModel
  import opened MongoQuery
  import opened Pagination
  import opened UserRoutes
  import R = RequestRoutes

  /** The reply: its HTTP status and the `success` and `data` members of its body. */
  datatype Envelope<T> = Envelope(httpStatus: int, success: bool, data: Option<T>)

  /** `GET /user/requests/received`: the pending requests addressed to me. */
  function ReceivedReply(rs: seq<ConnectionRequest>, me: UserId): (e: Envelope<seq<ConnectionRequest>>)
    ensures e.httpStatus == 200 && e.success && e.data.Some?
    ensures forall x :: x in e.data.value <==> x in rs && x.toUserId == me && x.status == Interested
  {
    Envelope(200, true, Some(Received(rs, me)))
  }

  /** `GET /user/connections`. A failure is caught and answered with `success: false` but no
      error status, so the reply is still 200. */
  function ConnectionsReply(rs: seq<ConnectionRequest>, me: UserId, users: seq<UserId>): (e: Envelope<seq<Option<UserId>>>)
    ensures e.httpStatus == 200
    ensures e.success <==> Connections(rs, me, users).Success?
    ensures e.success ==> e.data == Some(Connections(rs, me, users).value)
    ensures !e.success ==> e.data.None?
  {
    match Connections(rs, me, users)
    case Success(d) => Envelope(200, true, Some(d))
    case Failure(_) => Envelope(200, false, None)
  }

  /** The variant's hide set: both ends of every record of `me`; `me` is added only when it
      has some record. */
  method LegacyHideSet(rs: seq<ConnectionRequest>, me: UserId) returns (hideSet: set<UserId>)
    ensures forall u :: u in hideSet <==> R.PairExists(rs, me, u) || (u == me && Involving(rs, me) != [])
  {
    var found := Involving(rs, me);
    hideSet := {};
    var i := 0;
    while i < |found|
      invariant 0 <= i <= |found|
      invariant forall u :: u in hideSet <==> exists j :: 0 <= j < i && (u == found[j].fromUserId || u == found[j].toUserId)
    {
      hideSet := hideSet + {found[i].fromUserId, found[i].toUserId};
      i := i + 1;
    }
    forall u | u in hideSet ensures R.PairExists(rs, me, u) || (u == me && found != []) {
      var j :| 0 <= j < |found| && (u == found[j].fromUserId || u == found[j].toUserId);
      assert found[j] in found;
      EndsOfInvolving(rs, me, found[j], u);
    }
    forall u | R.PairExists(rs, me, u) || (u == me && found != []) ensures u in hideSet {
      if R.PairExists(rs, me, u) {
        var k :| 0 <= k < |rs| && SamePair(rs[k], me, u);
        assert rs[k] in found;
        var j :| 0 <= j < |found| && found[j] == rs[k];
        assert u == found[j].fromUserId || u == found[j].toUserId;
      } else {
        assert found[0] in found;
        assert u == found[0].fromUserId || u == found[0].toUserId;
      }
    }
  }

  /** `User.find({$and: [{_id: {$nin: hide}}, {_id: {$ne: me}}]})`, in store order. */
  function NotInNorSelf(users: seq<UserId>, hideSet: set<UserId>, me: UserId): (r: seq<UserId>)
    ensures forall u :: u in r <==> u in users && u !in hideSet && u != me
  {
    if users == [] then []
    else
      var rest := NotInNorSelf(users[1..], hideSet, me);
      assert forall u :: u in users <==> u == users[0] || u in users[1..];
      if users[0] !in hideSet && users[0] != me then [users[0]] + rest else rest
  }

  /** The two ways of leaving out `me` select the same users in the same order. */
  lemma {:induction false} NotInNorSelfIsUnseen(users: seq<UserId>, hideSet: set<UserId>, rs: seq<ConnectionRequest>, me: UserId)
    requires forall u :: u in users ==> (u in hideSet || u == me <==> Hidden(rs, me, u))
    ensures NotInNorSelf(users, hideSet, me) == Unseen(users, rs, me)
  {
    NotInHideSet(users, set u | u in users && Hidden(rs, me, u), set u | u in users && (u in hideSet || u == me));
    NotInNorSelfAsNotIn(users, hideSet, me);
  }

  /** The variant's two conditions as one `$nin` over the hide set with `me` added. */
  lemma {:induction false} NotInNorSelfAsNotIn(users: seq<UserId>, hideSet: set<UserId>, me: UserId)
    ensures NotInNorSelf(users, hideSet, me) == NotIn(users, set u | u in users && (u in hideSet || u == me))
  {
    if users != [] {
      NotInNorSelfAsNotIn(users[1..], hideSet, me);
      NotInHideSet(users[1..], set u | u in users[1..] && (u in hideSet || u == me),
                   set u | u in users && (u in hideSet || u == me));
    }
  }

  /** `GET /feed`: whatever the logged-in user has done, it lists exactly the users the newer
      server's feed lists, and a store error is answered with 400 and `success: false`. */
  method LegacyFeed(rs: seq<ConnectionRequest>, me: UserId, users: seq<UserId>, pageQ: Option<int>, limitQ: Option<int>)
    returns (e: Envelope<seq<UserId>>)
    ensures e.success <==> FeedResult(rs, me, users, pageQ, limitQ).Success?
    ensures e.httpStatus == (if e.success then 200 else 400)
    ensures e.success ==> e.data == Some(FeedResult(rs, me, users, pageQ, limitQ).value)
  {
    var w := PageWindow(pageQ, limitQ, 10);
    var hideSet := LegacyHideSet(rs, me);
    NotInNorSelfIsUnseen(users, hideSet, rs, me);
    var r := SkipLimit(NotInNorSelf(users, hideSet, me), w.skip, w.limit);
    if r.Success? {
      e := Envelope(200, true, Some(r.value));
    } else {
      e := Envelope(400, false, None);
    }
  }
}
