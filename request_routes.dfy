/** The connection-request ledger behind `POST /request/send/:status/:toUserId` (a swipe) and
    `POST /request/review/:status/:requestId` (the recipient's decision).

    Each handler is a step function on a ledger value (the stored records in store order and
    the next fresh `_id`) that follows the handler's checks in the handler's order; the lemmas
    are about those functions, and `ConnectionStore` is the store the handlers update in
    place, with methods tied to the step functions. The user collection enters only through
    the set of existing user ids. */
module RequestRoutes {
  import opened Wrappers
  import opened ConnectionRequestModel

  datatype Ledger = Ledger(records: seq<ConnectionRequest>, nextId: nat)

  /** Some record links `a` and `b`, in either direction, whatever its status. */
  predicate PairExists(rs: seq<ConnectionRequest>, a: UserId, b: UserId)
  {
    exists i :: 0 <= i < |rs| && SamePair(rs[i], a, b)
  }

  /** No two records link the same two users. */
  predicate PairUnique(rs: seq<ConnectionRequest>)
  {
    forall i, j :: 0 <= i < j < |rs| ==> !SamePair(rs[i], rs[j].fromUserId, rs[j].toUserId)
  }

  /** What the handlers keep true of the store: `_id`s are distinct and below the next fresh
      one, no record is a request to oneself, and each pair of users has at most one record. */
  predicate Valid(l: Ledger)
  {
    && (forall i :: 0 <= i < |l.records| ==> l.records[i].id < l.nextId)
    && (forall i, j :: 0 <= i < j < |l.records| ==> l.records[i].id != l.records[j].id)
    && (forall i :: 0 <= i < |l.records| ==> l.records[i].fromUserId != l.records[i].toUserId)
    && PairUnique(l.records)
  }

  /** The duplicate-pair query `findOne({$or: [{from, to}, {from: to, to: from}]})`. */
  function FindPair(rs: seq<ConnectionRequest>, a: UserId, b: UserId): (r: Option<ConnectionRequest>)
    ensures r.Some? ==> r.value in rs && SamePair(r.value, a, b)
    ensures r.None? <==> !PairExists(rs, a, b)
  {
    if rs == [] then None
    else if SamePair(rs[0], a, b) then Some(rs[0])
    else
      var r := FindPair(rs[1..], a, b);
      assert PairExists(rs, a, b) ==> PairExists(rs[1..], a, b) by {
        if PairExists(rs, a, b) {
          var i :| 0 <= i < |rs| && SamePair(rs[i], a, b);
          assert rs[1..][i - 1] == rs[i];
        }
      }
      r
  }

  /** The mutual-interest query: a pending request from `target` to `actor`. */
  function FindReverseInterested(rs: seq<ConnectionRequest>, actor: UserId, target: UserId): (r: Option<ConnectionRequest>)
    ensures r.Some? ==>
      r.value in rs && r.value.fromUserId == target && r.value.toUserId == actor && r.value.status == Interested
    ensures r.None? ==>
      forall i :: 0 <= i < |rs| ==> !(rs[i].fromUserId == target && rs[i].toUserId == actor && rs[i].status == Interested)
  {
    if rs == [] then None
    else if rs[0].fromUserId == target && rs[0].toUserId == actor && rs[0].status == Interested then Some(rs[0])
    else FindReverseInterested(rs[1..], actor, target)
  }

  /** The review filter `{_id: requestId, toUserId: reviewer, status: "interested"}`. */
  function FindReviewable(rs: seq<ConnectionRequest>, id: nat, reviewer: UserId): (r: Option<ConnectionRequest>)
    ensures r.Some? ==> r.value in rs && r.value.id == id && r.value.toUserId == reviewer && r.value.status == Interested
    ensures r.None? ==>
      forall i :: 0 <= i < |rs| ==> !(rs[i].id == id && rs[i].toUserId == reviewer && rs[i].status == Interested)
  {
    if rs == [] then None
    else if rs[0].id == id && rs[0].toUserId == reviewer && rs[0].status == Interested then Some(rs[0])
    else FindReviewable(rs[1..], id, reviewer)
  }

  /** Writing a new status to the document with the given `_id`; nothing else changes. */
  function SetStatusById(rs: seq<ConnectionRequest>, id: nat, s: Status): (r: seq<ConnectionRequest>)
    ensures |r| == |rs|
    ensures forall i :: 0 <= i < |rs| ==> r[i] == if rs[i].id == id then rs[i].(status := s) else rs[i]
  {
    if rs == [] then []
    else [if rs[0].id == id then rs[0].(status := s) else rs[0]] + SetStatusById(rs[1..], id, s)
  }

  lemma StatusChangePreservesValid(l: Ledger, id: nat, s: Status)
    requires Valid(l)
    ensures Valid(Ledger(SetStatusById(l.records, id, s), l.nextId))
  {
    var rs := SetStatusById(l.records, id, s);
    SetStatusKeepsEnds(l.records, id, s);
    assert forall i :: 0 <= i < |rs| ==> rs[i].id == l.records[i].id;
    forall i, j | 0 <= i < j < |rs|
      ensures !SamePair(rs[i], rs[j].fromUserId, rs[j].toUserId)
    {
      assert !SamePair(l.records[i], l.records[j].fromUserId, l.records[j].toUserId);
    }
  }

  /** A status change keeps every record's id and both its users. */
  lemma SetStatusKeepsEnds(rs: seq<ConnectionRequest>, id: nat, s: Status)
    ensures var r := SetStatusById(rs, id, s);
      forall i :: 0 <= i < |rs| ==>
        r[i].id == rs[i].id && r[i].fromUserId == rs[i].fromUserId && r[i].toUserId == rs[i].toUserId
  {
  }

  // ---------------------------------------------------------------- send (a swipe)

  datatype SendError = SelfPairing | InvalidStatus(value: string) | UserNotFound | AlreadyInPipeline | SaveFailed(cause: SaveError)

  /** The JSON reply: `{success: true, match, data}`, or an error status with its message. */
  datatype SendOutcome = Sent(matched: bool, data: ConnectionRequest) | SendRejected(httpStatus: int, error: SendError)

  /** The route's own status check: a swipe is `ignored` or `interested`. */
  function ParseSwipe(v: string): (r: Option<Status>)
    ensures r.Some? <==> v == "ignored" || v == "interested"
    ensures r.Some? ==> StatusName(r.value) == v && ParseStatus(v) == r
  {
    if v == "ignored" then Some(Ignored) else if v == "interested" then Some(Interested) else None
  }

  /** The send handler as written: self-pairing, status, target existence, duplicate pair, the
      instant-match branch, then the insert through `save()`. */
  function SendStep(l: Ledger, actor: UserId, target: UserId, statusParam: string, users: set<UserId>): (SendOutcome, Ledger)
  {
    if actor == target then (SendRejected(400, SelfPairing), l)
    else
      match ParseSwipe(statusParam)
      case None => (SendRejected(400, InvalidStatus(statusParam)), l)
      case Some(status) =>
        if target !in users then (SendRejected(404, UserNotFound), l)
        else if FindPair(l.records, actor, target).Some? then (SendRejected(400, AlreadyInPipeline), l)
        else
          var mutual := if status == Interested then FindReverseInterested(l.records, actor, target) else None;
          match mutual
          case Some(m) =>
            // the instant match: the reverse request is flipped to accepted and saved
            (Sent(true, m.(status := Accepted)), Ledger(SetStatusById(l.records, m.id, Accepted), l.nextId))
          case None =>
            match Save(RequestDraft(Some(actor), Some(target), Some(statusParam)), l.nextId)
            case Failure(e) => (SendRejected(500, SaveFailed(e)), l)
            case Success(rec) => (Sent(false, rec), Ledger(l.records + [rec], l.nextId + 1))
  }

  lemma SendRejectsSelfPair(l: Ledger, actor: UserId, statusParam: string, users: set<UserId>)
    ensures SendStep(l, actor, actor, statusParam, users) == (SendRejected(400, SelfPairing), l)
  {
  }

  lemma SendRejectsBadStatus(l: Ledger, actor: UserId, target: UserId, statusParam: string, users: set<UserId>)
    requires actor != target
    requires statusParam != "ignored" && statusParam != "interested"
    ensures SendStep(l, actor, target, statusParam, users) == (SendRejected(400, InvalidStatus(statusParam)), l)
  {
  }

  lemma SendRejectsUnknownUser(l: Ledger, actor: UserId, target: UserId, statusParam: string, users: set<UserId>)
    requires actor != target && (statusParam == "ignored" || statusParam == "interested")
    requires target !in users
    ensures SendStep(l, actor, target, statusParam, users) == (SendRejected(404, UserNotFound), l)
  {
  }

  /** A record for the pair in either direction, whatever its status, refuses the swipe. */
  lemma SendRejectsExistingPair(l: Ledger, actor: UserId, target: UserId, statusParam: string, users: set<UserId>, k: nat)
    requires actor != target && (statusParam == "ignored" || statusParam == "interested") && target in users
    requires k < |l.records| && SamePair(l.records[k], actor, target)
    ensures SendStep(l, actor, target, statusParam, users) == (SendRejected(400, AlreadyInPipeline), l)
  {
    assert PairExists(l.records, actor, target);
  }

  /** A pending reverse request is a record of the pair. */
  lemma {:induction false} ReverseInterestedIsPair(rs: seq<ConnectionRequest>, actor: UserId, target: UserId)
    ensures FindReverseInterested(rs, actor, target).Some? ==> PairExists(rs, actor, target)
  {
    if rs != [] && !(rs[0].fromUserId == target && rs[0].toUserId == actor && rs[0].status == Interested) {
      ReverseInterestedIsPair(rs[1..], actor, target);
      if FindReverseInterested(rs, actor, target).Some? {
        var i :| 0 <= i < |rs[1..]| && SamePair(rs[1..][i], actor, target);
        assert SamePair(rs[i + 1], actor, target);
      }
    } else if rs != [] {
      assert SamePair(rs[0], actor, target);
    }
  }

  /** The duplicate-pair check already refuses every swipe for which a reverse `interested`
      record exists, so the instant-match branch never runs: a send never reports a match and
      never flips a record to accepted. */
  lemma SendNeverMatches(l: Ledger, actor: UserId, target: UserId, statusParam: string, users: set<UserId>)
    ensures var (o, l') := SendStep(l, actor, target, statusParam, users);
      (o.Sent? ==> !o.matched) && (o.SendRejected? ==> l' == l)
  {
    ReverseInterestedIsPair(l.records, actor, target);
  }

  /** A successful send inserts exactly one record `{from: actor, to: target, status}` with a
      fresh `_id` and changes no other record; it succeeds exactly when the four checks pass. */
  lemma SendInsertsOne(l: Ledger, actor: UserId, target: UserId, statusParam: string, users: set<UserId>)
    ensures var (o, l') := SendStep(l, actor, target, statusParam, users);
      && (o.Sent? <==>
          actor != target && ParseSwipe(statusParam).Some? && target in users && !PairExists(l.records, actor, target))
      && (o.Sent? ==>
          && o.data == ConnectionRequest(l.nextId, actor, target, ParseSwipe(statusParam).value)
          && StatusName(o.data.status) == statusParam
          && l' == Ledger(l.records + [o.data], l.nextId + 1))
  {
    ReverseInterestedIsPair(l.records, actor, target);
  }

  lemma SendPreservesValid(l: Ledger, actor: UserId, target: UserId, statusParam: string, users: set<UserId>)
    requires Valid(l)
    ensures Valid(SendStep(l, actor, target, statusParam, users).1)
  {
    SendInsertsOne(l, actor, target, statusParam, users);
    SendNeverMatches(l, actor, target, statusParam, users);
    var (o, l') := SendStep(l, actor, target, statusParam, users);
    if o.Sent? {
      var rs := l'.records;
      forall i, j | 0 <= i < j < |rs| ensures !SamePair(rs[i], rs[j].fromUserId, rs[j].toUserId) {
        if j == |rs| - 1 {
          assert !SamePair(l.records[i], actor, target);
        } else {
          assert !SamePair(l.records[i], l.records[j].fromUserId, l.records[j].toUserId);
        }
      }
    }
  }

  /** Scenario: A is interested in B, then B swipes `interested` on A. As written, the second
      swipe is refused as a duplicate and the store keeps A's pending request. */
  lemma MutualInterestRefused(l: Ledger, a: UserId, b: UserId, users: set<UserId>)
    requires Valid(l) && a != b && a in users && b in users && !PairExists(l.records, a, b)
    ensures var (o1, l1) := SendStep(l, a, b, "interested", users);
      var (o2, l2) := SendStep(l1, b, a, "interested", users);
      && o1 == Sent(false, ConnectionRequest(l.nextId, a, b, Interested))
      && o2 == SendRejected(400, AlreadyInPipeline)
      && l2 == l1 && l1.records == l.records + [ConnectionRequest(l.nextId, a, b, Interested)]
  {
    SendInsertsOne(l, a, b, "interested", users);
    var l1 := SendStep(l, a, b, "interested", users).1;
    assert SamePair(l1.records[|l.records|], b, a);
  }

  /** The send handler with the mutual-interest check placed before the duplicate-pair check,
      as the instant-match branch evidently intends. */
  function SendStepIntended(l: Ledger, actor: UserId, target: UserId, statusParam: string, users: set<UserId>): (SendOutcome, Ledger)
  {
    if actor == target then (SendRejected(400, SelfPairing), l)
    else
      match ParseSwipe(statusParam)
      case None => (SendRejected(400, InvalidStatus(statusParam)), l)
      case Some(status) =>
        if target !in users then (SendRejected(404, UserNotFound), l)
        else
          var mutual := if status == Interested then FindReverseInterested(l.records, actor, target) else None;
          match mutual
          case Some(m) =>
            (Sent(true, m.(status := Accepted)), Ledger(SetStatusById(l.records, m.id, Accepted), l.nextId))
          case None =>
            if FindPair(l.records, actor, target).Some? then (SendRejected(400, AlreadyInPipeline), l)
            else
              match Save(RequestDraft(Some(actor), Some(target), Some(statusParam)), l.nextId)
              case Failure(e) => (SendRejected(500, SaveFailed(e)), l)
              case Success(rec) => (Sent(false, rec), Ledger(l.records + [rec], l.nextId + 1))
  }

  lemma SendIntendedPreservesValid(l: Ledger, actor: UserId, target: UserId, statusParam: string, users: set<UserId>)
    requires Valid(l)
    ensures Valid(SendStepIntended(l, actor, target, statusParam, users).1)
  {
    var mutual := FindReverseInterested(l.records, actor, target);
    if actor != target && ParseSwipe(statusParam) == Some(Interested) && target in users && mutual.Some? {
      StatusChangePreservesValid(l, mutual.value.id, Accepted);
    } else {
      SendPreservesValid(l, actor, target, statusParam, users);
      ReverseInterestedIsPair(l.records, actor, target);
    }
  }

  /** With the intended order, the same scenario ends in a match: the second swipe creates no
      record and A's request is now accepted. */
  lemma MutualInterestMatches(l: Ledger, a: UserId, b: UserId, users: set<UserId>)
    requires Valid(l) && a != b && a in users && b in users && !PairExists(l.records, a, b)
    ensures var (o1, l1) := SendStepIntended(l, a, b, "interested", users);
      var (o2, l2) := SendStepIntended(l1, b, a, "interested", users);
      && o1 == Sent(false, ConnectionRequest(l.nextId, a, b, Interested))
      && o2 == Sent(true, ConnectionRequest(l.nextId, a, b, Accepted))
      && |l2.records| == |l1.records|
      && l2.records == l.records + [ConnectionRequest(l.nextId, a, b, Accepted)]
  {
    var rec := ConnectionRequest(l.nextId, a, b, Interested);
    IntendedFirstSwipe(l, a, b, users);
    assert FindReverseInterested(l.records, b, a).None? by {
      ReverseInterestedIsPair(l.records, b, a);
    }
    IntendedSecondSwipe(l, rec, users);
  }

  /** With the intended order, an `interested` swipe reports a match exactly when the target
      exists and has a pending request to the actor; the match accepts that request in place
      and stores no new record. */
  lemma IntendedMatchesWhenPending(l: Ledger, actor: UserId, target: UserId, users: set<UserId>)
    ensures var (o, l') := SendStepIntended(l, actor, target, "interested", users);
      && ((o.Sent? && o.matched) <==>
          && actor != target && target in users
          && exists i :: 0 <= i < |l.records| && l.records[i].fromUserId == target
                         && l.records[i].toUserId == actor && l.records[i].status == Interested)
      && (o.Sent? && o.matched ==>
          && o.data.(status := Interested) in l.records
          && o.data.fromUserId == target && o.data.toUserId == actor && o.data.status == Accepted
          && l' == Ledger(SetStatusById(l.records, o.data.id, Accepted), l.nextId))
  {
    var mutual := FindReverseInterested(l.records, actor, target);
    if mutual.Some? {
      var m := mutual.value;
      assert m.(status := Accepted).(status := Interested) == m;
      var i :| 0 <= i < |l.records| && l.records[i] == m;
    }
  }

  /** The first swipe on a fresh pair stores a new `interested` record. */
  lemma IntendedFirstSwipe(l: Ledger, a: UserId, b: UserId, users: set<UserId>)
    requires Valid(l) && a != b && b in users && !PairExists(l.records, a, b)
    ensures var rec := ConnectionRequest(l.nextId, a, b, Interested);
      SendStepIntended(l, a, b, "interested", users) == (Sent(false, rec), Ledger(l.records + [rec], l.nextId + 1))
  {
    ReverseInterestedIsPair(l.records, a, b);
  }

  /** The answering swipe finds the record just stored and accepts it, and nothing else. */
  lemma IntendedSecondSwipe(l: Ledger, rec: ConnectionRequest, users: set<UserId>)
    requires Valid(l) && rec.id == l.nextId && rec.status == Interested
    requires rec.fromUserId != rec.toUserId && rec.fromUserId in users
    requires FindReverseInterested(l.records, rec.toUserId, rec.fromUserId).None?
    ensures var l1 := Ledger(l.records + [rec], l.nextId + 1);
      var acc := rec.(status := Accepted);
      SendStepIntended(l1, rec.toUserId, rec.fromUserId, "interested", users) == (Sent(true, acc), Ledger(l.records + [acc], l1.nextId))
  {
    FindReverseAppend(l.records, rec, rec.toUserId, rec.fromUserId);
    var rs := SetStatusById(l.records + [rec], l.nextId, Accepted);
    assert rs == l.records + [rec.(status := Accepted)] by {
      forall i | 0 <= i < |l.records| ensures rs[i] == l.records[i] {
        assert l.records[i].id < l.nextId;
      }
    }
  }

  /** The mutual-interest query on a store with one more record at the end. */
  lemma {:induction false} FindReverseAppend(rs: seq<ConnectionRequest>, rec: ConnectionRequest, actor: UserId, target: UserId)
    requires FindReverseInterested(rs, actor, target).None?
    ensures FindReverseInterested(rs + [rec], actor, target)
         == if rec.fromUserId == target && rec.toUserId == actor && rec.status == Interested then Some(rec) else None
  {
    if rs != [] {
      assert (rs + [rec])[1..] == rs[1..] + [rec];
      FindReverseAppend(rs[1..], rec, actor, target);
    } else {
      assert [] + [rec] == [rec];
    }
  }

  // ---------------------------------------------------------------- review

  datatype ReviewError = InvalidDecision(value: string) | NotReviewable

  datatype ReviewOutcome = Reviewed(data: ConnectionRequest) | ReviewRejected(httpStatus: int, error: ReviewError)

  /** The review route's decision check: `accepted` or `rejected`. */
  function ParseDecision(v: string): (r: Option<Status>)
    ensures r.Some? <==> v == "accepted" || v == "rejected"
    ensures r.Some? ==> StatusName(r.value) == v && ParseStatus(v) == r
  {
    if v == "accepted" then Some(Accepted) else if v == "rejected" then Some(Rejected) else None
  }

  /** The review handler: the decision check, then one `findOneAndUpdate` on
      `{_id: requestId, toUserId: reviewer, status: "interested"}` returning the new document. */
  function ReviewStep(l: Ledger, reviewer: UserId, decisionParam: string, requestId: nat): (ReviewOutcome, Ledger)
  {
    match ParseDecision(decisionParam)
    case None => (ReviewRejected(400, InvalidDecision(decisionParam)), l)
    case Some(decision) =>
      match FindReviewable(l.records, requestId, reviewer)
      case None => (ReviewRejected(404, NotReviewable), l)
      case Some(doc) => (Reviewed(doc.(status := decision)), Ledger(SetStatusById(l.records, requestId, decision), l.nextId))
  }

  /** The pending request addressed to `reviewer` with that `_id`. */
  predicate Reviewable(rs: seq<ConnectionRequest>, id: nat, reviewer: UserId)
  {
    exists i :: 0 <= i < |rs| && rs[i].id == id && rs[i].toUserId == reviewer && rs[i].status == Interested
  }

  lemma ReviewRejectsBadDecision(l: Ledger, reviewer: UserId, decisionParam: string, requestId: nat)
    requires decisionParam != "accepted" && decisionParam != "rejected"
    ensures ReviewStep(l, reviewer, decisionParam, requestId) == (ReviewRejected(400, InvalidDecision(decisionParam)), l)
  {
  }

  /** A review succeeds exactly when the record with that `_id` is addressed to the reviewing user and
      still pending; it then sets that record's status to the decision and nothing else. Every
      other case, unknown id, wrong reviewer or a settled record, gets the one 404 reply. */
  lemma ReviewSucceedsIff(l: Ledger, reviewer: UserId, decisionParam: string, requestId: nat)
    requires decisionParam == "accepted" || decisionParam == "rejected"
    ensures var (o, l') := ReviewStep(l, reviewer, decisionParam, requestId);
      && (o.Reviewed? <==> Reviewable(l.records, requestId, reviewer))
      && (o.ReviewRejected? ==> o == ReviewRejected(404, NotReviewable) && l' == l)
      && (o.Reviewed? ==>
          && o.data.id == requestId && o.data.toUserId == reviewer && StatusName(o.data.status) == decisionParam
          && o.data.(status := Interested) in l.records
          && l'.nextId == l.nextId && |l'.records| == |l.records|
          && forall i :: 0 <= i < |l.records| ==>
               l'.records[i] == if l.records[i].id == requestId then l.records[i].(status := o.data.status) else l.records[i])
  {
    var found := FindReviewable(l.records, requestId, reviewer);
    if Reviewable(l.records, requestId, reviewer) {
      var i :| 0 <= i < |l.records| && l.records[i].id == requestId && l.records[i].toUserId == reviewer && l.records[i].status == Interested;
      assert found.Some?;
    }
    if found.Some? {
      assert found.value.(status := Interested) == found.value;
    }
  }

  /** Accepted, rejected and ignored records can never be reviewed. */
  lemma SettledNotReviewable(l: Ledger, reviewer: UserId, decisionParam: string, k: nat)
    requires Valid(l) && k < |l.records| && l.records[k].status != Interested
    ensures var (o, l') := ReviewStep(l, reviewer, decisionParam, l.records[k].id);
      o.ReviewRejected? && l' == l
  {
  }

  /** Of two reviews of one request, at most the first succeeds: the second finds the record
      settled and gets the 404 reply, whoever sends it and whatever it decides. */
  lemma SecondReviewFails(l: Ledger, r1: UserId, d1: string, r2: UserId, d2: string, id: nat)
    requires Valid(l)
    requires ReviewStep(l, r1, d1, id).0.Reviewed?
    requires d2 == "accepted" || d2 == "rejected"
    ensures var l1 := ReviewStep(l, r1, d1, id).1;
      ReviewStep(l1, r2, d2, id) == (ReviewRejected(404, NotReviewable), l1)
  {
    var l1 := ReviewStep(l, r1, d1, id).1;
    ReviewSucceedsIff(l, r1, d1, id);
    ReviewSucceedsIff(l1, r2, d2, id);
  }

  lemma ReviewPreservesValid(l: Ledger, reviewer: UserId, decisionParam: string, requestId: nat)
    requires Valid(l)
    ensures Valid(ReviewStep(l, reviewer, decisionParam, requestId).1)
  {
    if ParseDecision(decisionParam).Some? {
      StatusChangePreservesValid(l, requestId, ParseDecision(decisionParam).value);
    }
  }

  // ---------------------------------------------------------------- runs of requests

  datatype LedgerAction =
    | Swipe(actor: UserId, target: UserId, status: string)
    | Review(reviewer: UserId, decision: string, requestId: nat)

  function Apply(l: Ledger, a: LedgerAction, users: set<UserId>): Ledger
  {
    match a
    case Swipe(actor, target, s) => SendStep(l, actor, target, s, users).1
    case Review(reviewer, d, id) => ReviewStep(l, reviewer, d, id).1
  }

  function Run(l: Ledger, actions: seq<LedgerAction>, users: set<UserId>): Ledger
    decreases |actions|
  {
    if actions == [] then l else Run(Apply(l, actions[0], users), actions[1..], users)
  }

  lemma {:induction false} RunPreservesValid(l: Ledger, actions: seq<LedgerAction>, users: set<UserId>)
    requires Valid(l)
    ensures Valid(Run(l, actions, users))
    decreases |actions|
  {
    if actions != [] {
      match actions[0] {
        case Swipe(actor, target, s) => SendPreservesValid(l, actor, target, s, users);
        case Review(reviewer, d, id) => ReviewPreservesValid(l, reviewer, d, id);
      }
      RunPreservesValid(Apply(l, actions[0], users), actions[1..], users);
    }
  }

  /** After any sequence of swipes and reviews from an empty store, each pair of users has at
      most one record, and no record is a request to oneself. */
  lemma AtMostOneRecordPerPair(actions: seq<LedgerAction>, users: set<UserId>, a: UserId, b: UserId)
    ensures var rs := Run(Ledger([], 0), actions, users).records;
      && (forall i, j :: 0 <= i < |rs| && 0 <= j < |rs| && SamePair(rs[i], a, b) && SamePair(rs[j], a, b) ==> i == j)
      && (forall i :: 0 <= i < |rs| ==> rs[i].fromUserId != rs[i].toUserId)
  {
    RunPreservesValid(Ledger([], 0), actions, users);
  }

  // ---------------------------------------------------------------- the store

  /** The connection-request collection, updated in place by the two handlers. */
  class ConnectionStore {
    var records: seq<ConnectionRequest>
    var nextId: nat

    function Snapshot(): Ledger
      reads this
    {
      Ledger(records, nextId)
    }

    constructor ()
      ensures Snapshot() == Ledger([], 0)
    {
      records := [];
      nextId := 0;
    }

    method Send(actor: UserId, target: UserId, statusParam: string, users: set<UserId>) returns (r: SendOutcome)
      requires Valid(Snapshot())
      modifies this
      ensures Valid(Snapshot())
      ensures (r, Snapshot()) == SendStep(old(Snapshot()), actor, target, statusParam, users)
      ensures r.Sent? ==> !r.matched && records == old(records) + [r.data] && nextId == old(nextId) + 1
      ensures r.SendRejected? ==> records == old(records) && nextId == old(nextId)
    {
      SendPreservesValid(Snapshot(), actor, target, statusParam, users);
      SendNeverMatches(Snapshot(), actor, target, statusParam, users);
      SendInsertsOne(Snapshot(), actor, target, statusParam, users);
      if actor == target {
        return SendRejected(400, SelfPairing);
      }
      var status := ParseSwipe(statusParam);
      if status.None? {
        return SendRejected(400, InvalidStatus(statusParam));
      }
      if target !in users {
        return SendRejected(404, UserNotFound);
      }
      var existing := FindPair(records, actor, target);
      if existing.Some? {
        return SendRejected(400, AlreadyInPipeline);
      }
      if status.value == Interested {
        var mutual := FindReverseInterested(records, actor, target);
        match mutual {
          case Some(m) =>
            // unreachable: see SendNeverMatches
            records := SetStatusById(records, m.id, Accepted);
            return Sent(true, m.(status := Accepted));
          case None =>
        }
      }
      var saved := Save(RequestDraft(Some(actor), Some(target), Some(statusParam)), nextId);
      match saved {
        case Failure(e) =>
          return SendRejected(500, SaveFailed(e));
        case Success(rec) =>
          records := records + [rec];
          nextId := nextId + 1;
          return Sent(false, rec);
      }
    }

    method Review(reviewer: UserId, decisionParam: string, requestId: nat) returns (r: ReviewOutcome)
      requires Valid(Snapshot())
      modifies this
      ensures Valid(Snapshot())
      ensures (r, Snapshot()) == ReviewStep(old(Snapshot()), reviewer, decisionParam, requestId)
      ensures r.ReviewRejected? ==> records == old(records)
      ensures nextId == old(nextId)
    {
      ReviewPreservesValid(Snapshot(), reviewer, decisionParam, requestId);
      var decision := ParseDecision(decisionParam);
      if decision.None? {
        return ReviewRejected(400, InvalidDecision(decisionParam));
      }
      var doc := FindReviewable(records, requestId, reviewer);
      match doc {
        case None =>
          return ReviewRejected(404, NotReviewable);
        case Some(d) =>
          records := SetStatusById(records, requestId, decision.value);
          return Reviewed(d.(status := decision.value));
      }
    }
  }
}
