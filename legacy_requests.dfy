/** The older request handlers of the first server (`src/routes/requests.js`), on the same
    kind of ledger as `RequestRoutes`: a placeholder endpoint, a send without an instant-match
    branch whose failures are all 400, and a review that looks the request up by the SENDER's
    id and then writes the new status in a second, separate step.

    The variant's record schema is not part of this model; it is taken to be the one in
    `ConnectionRequestModel` (required fields, status enumeration, pre-save self check). */
module LegacyRequestRoutes {
  import opened Wrappers
  import opened ConnectionRequestModel
  import R = RequestRoutes

  datatype LegacyError =
    | StatusNotAllowed(value: string)
    | TargetNotFound
    | RequestAlreadyExists
    | SaveRejected(cause: SaveError)
    | RequestNotFound

  datatype LegacySendOutcome = LegacySent(data: ConnectionRequest) | LegacySendFailed(httpStatus: int, error: LegacyError)

  /** `POST /api/send-connection-request`: replies `success: true` and touches nothing. */
  function PlaceholderReply(): (success: bool)
    ensures success
  {
    true
  }

  /** The variant send: status, target existence, duplicate pair, then `save()`. It has no
      self-pairing guard of its own and no match branch; every error is caught and sent as 400. */
  function LegacySendStep(l: R.Ledger, actor: UserId, target: UserId, statusParam: string, users: set<UserId>): (LegacySendOutcome, R.Ledger)
  {
    match R.ParseSwipe(statusParam)
    case None => (LegacySendFailed(400, StatusNotAllowed(statusParam)), l)
    case Some(_) =>
      if target !in users then (LegacySendFailed(400, TargetNotFound), l)
      else if R.FindPair(l.records, actor, target).Some? then (LegacySendFailed(400, RequestAlreadyExists), l)
      else
        match Save(RequestDraft(Some(actor), Some(target), Some(statusParam)), l.nextId)
        case Failure(e) => (LegacySendFailed(400, SaveRejected(e)), l)
        case Success(rec) => (LegacySent(rec), R.Ledger(l.records + [rec], l.nextId + 1))
  }

  /** Every failure of the variant send is a 400 and leaves the store as it was. */
  lemma LegacySendFailuresAre400(l: R.Ledger, actor: UserId, target: UserId, statusParam: string, users: set<UserId>)
    ensures var (o, l') := LegacySendStep(l, actor, target, statusParam, users);
      o.LegacySendFailed? ==> o.httpStatus == 400 && l' == l
  {
  }

  /** An unknown target is a 400 here, where the newer handler answers 404. */
  lemma LegacyUnknownUserIs400(l: R.Ledger, actor: UserId, target: UserId, statusParam: string, users: set<UserId>)
    requires actor != target && (statusParam == "ignored" || statusParam == "interested") && target !in users
    ensures LegacySendStep(l, actor, target, statusParam, users).0 == LegacySendFailed(400, TargetNotFound)
    ensures R.SendStep(l, actor, target, statusParam, users).0 == R.SendRejected(404, R.UserNotFound)
  {
  }

  /** A swipe on oneself passes the route's checks and is refused only by the pre-save hook. */
  lemma LegacySelfSendRefusedBySave(l: R.Ledger, actor: UserId, statusParam: string, users: set<UserId>)
    requires R.Valid(l) && actor in users && (statusParam == "ignored" || statusParam == "interested")
    ensures LegacySendStep(l, actor, actor, statusParam, users) == (LegacySendFailed(400, SaveRejected(SelfRequest)), l)
  {
  }

  /** Whenever the variant send stores a record, the newer handler stores the same record, and
      the other way round: the two differ only in their error paths. */
  lemma LegacySendAgrees(l: R.Ledger, actor: UserId, target: UserId, statusParam: string, users: set<UserId>)
    ensures var (o, l') := LegacySendStep(l, actor, target, statusParam, users);
      var (o2, l2) := R.SendStep(l, actor, target, statusParam, users);
      && (o.LegacySent? <==> o2.Sent?)
      && (o.LegacySent? ==> o.data == o2.data && l' == l2)
  {
    R.SendInsertsOne(l, actor, target, statusParam, users);
  }

  lemma LegacySendPreservesValid(l: R.Ledger, actor: UserId, target: UserId, statusParam: string, users: set<UserId>)
    requires R.Valid(l)
    ensures R.Valid(LegacySendStep(l, actor, target, statusParam, users).1)
  {
    LegacySendAgrees(l, actor, target, statusParam, users);
    R.SendPreservesValid(l, actor, target, statusParam, users);
  }

  // ---------------------------------------------------------------- review: read, then write

  /** `findOne({fromUserId: requestId, toUserId: reviewer, status: "interested"})`. */
  function PendingFrom(rs: seq<ConnectionRequest>, senderId: UserId, reviewer: UserId): (r: Option<ConnectionRequest>)
    ensures r.Some? ==> r.value in rs && r.value.fromUserId == senderId && r.value.toUserId == reviewer && r.value.status == Interested
    ensures r.None? ==>
      forall i :: 0 <= i < |rs| ==> !(rs[i].fromUserId == senderId && rs[i].toUserId == reviewer && rs[i].status == Interested)
  {
    if rs == [] then None
    else if rs[0].fromUserId == senderId && rs[0].toUserId == reviewer && rs[0].status == Interested then Some(rs[0])
    else PendingFrom(rs[1..], senderId, reviewer)
  }

  /** The read half: the decision check and the lookup, which returns the document as read. */
  function ReviewRead(l: R.Ledger, reviewer: UserId, decisionParam: string, requestId: UserId): Result<(ConnectionRequest, Status), LegacyError>
  {
    match R.ParseDecision(decisionParam)
    case None => Failure(StatusNotAllowed(decisionParam))
    case Some(decision) =>
      match PendingFrom(l.records, requestId, reviewer)
      case None => Failure(RequestNotFound)
      case Some(doc) => Success((doc, decision))
  }

  /** The write half: `doc.status = decision; doc.save()`. The save writes the status of the
      document with that `_id` whatever its status is by now; only the pre-save hook can refuse. */
  function ReviewWrite(l: R.Ledger, doc: ConnectionRequest, decision: Status): Result<R.Ledger, LegacyError>
  {
    if doc.fromUserId == doc.toUserId then Failure(SaveRejected(SelfRequest))
    else Success(R.Ledger(R.SetStatusById(l.records, doc.id, decision), l.nextId))
  }

  datatype LegacyReviewOutcome = LegacyReviewed(decision: Status) | LegacyReviewFailed(httpStatus: int, error: LegacyError)

  /** The variant review with nothing in between its two halves. */
  function LegacyReviewStep(l: R.Ledger, reviewer: UserId, decisionParam: string, requestId: UserId): (LegacyReviewOutcome, R.Ledger)
  {
    match ReviewRead(l, reviewer, decisionParam, requestId)
    case Failure(e) => (LegacyReviewFailed(400, e), l)
    case Success((doc, decision)) =>
      match ReviewWrite(l, doc, decision)
      case Failure(e) => (LegacyReviewFailed(400, e), l)
      case Success(l') => (LegacyReviewed(decision), l')
  }

  /** The variant review succeeds exactly when a pending request FROM `requestId` to the
      reviewing user exists (the parameter is matched against the sender, not the `_id`); a failure
      is a 400 that leaves the store unchanged, and a success changes only that record's status. */
  lemma LegacyReviewKeyedBySender(l: R.Ledger, reviewer: UserId, decisionParam: string, requestId: UserId)
    requires R.Valid(l)
    ensures var (o, l') := LegacyReviewStep(l, reviewer, decisionParam, requestId);
      && (o.LegacyReviewed? <==>
          && R.ParseDecision(decisionParam).Some?
          && exists i :: 0 <= i < |l.records| && l.records[i].fromUserId == requestId
                         && l.records[i].toUserId == reviewer && l.records[i].status == Interested)
      && (o.LegacyReviewFailed? ==> o.httpStatus == 400 && l' == l)
      && (o.LegacyReviewed? ==>
          && StatusName(o.decision) == decisionParam
          && l'.nextId == l.nextId && |l'.records| == |l.records|
          && forall i :: 0 <= i < |l.records| ==>
               l'.records[i] == if l.records[i].fromUserId == requestId && l.records[i].toUserId == reviewer
                                then l.records[i].(status := o.decision) else l.records[i])
  {
    var found := PendingFrom(l.records, requestId, reviewer);
    if found.Some? {
      var k :| 0 <= k < |l.records| && l.records[k] == found.value;
      forall i | 0 <= i < |l.records|
        ensures (l.records[i].id == found.value.id) <==> (l.records[i].fromUserId == requestId && l.records[i].toUserId == reviewer)
      {
      }
    }
  }

  /** Two reviews of one pending request whose reads both happen before either write: both are
      told they succeeded, and the later write silently replaces the earlier decision. The newer
      handler's single conditional update refuses the second review instead
      (`RequestRoutes.SecondReviewFails`). */
  lemma InterleavedReviewsBothSucceed(l: R.Ledger, reviewer: UserId, k: nat)
    requires R.Valid(l) && k < |l.records|
    requires l.records[k].toUserId == reviewer && l.records[k].status == Interested
    ensures var sender := l.records[k].fromUserId;
      var read1 := ReviewRead(l, reviewer, "accepted", sender);
      var read2 := ReviewRead(l, reviewer, "rejected", sender);
      && read1.Success? && read2.Success?
      && var write1 := ReviewWrite(l, read1.value.0, read1.value.1);
      && write1.Success?
      && var write2 := ReviewWrite(write1.value, read2.value.0, read2.value.1);
      && write2.Success?
      && write2.value.records[k].status == Rejected
  {
    var sender := l.records[k].fromUserId;
    var found := PendingFrom(l.records, sender, reviewer);
    assert found.Some?;
    var j :| 0 <= j < |l.records| && l.records[j] == found.value;
    assert j == k;
  }

  lemma LegacyReviewPreservesValid(l: R.Ledger, reviewer: UserId, decisionParam: string, requestId: UserId)
    requires R.Valid(l)
    ensures R.Valid(LegacyReviewStep(l, reviewer, decisionParam, requestId).1)
  {
    match ReviewRead(l, reviewer, decisionParam, requestId) {
      case Failure(_) =>
      case Success((doc, decision)) => R.StatusChangePreservesValid(l, doc.id, decision);
    }
  }

  /** The first server's connection-request collection, updated in place by its handlers. */
  class LegacyConnectionStore {
    var records: seq<ConnectionRequest>
    var nextId: nat

    function Snapshot(): R.Ledger
      reads this
    {
      R.Ledger(records, nextId)
    }

    constructor ()
      ensures Snapshot() == R.Ledger([], 0)
    {
      records := [];
      nextId := 0;
    }

    method Send(actor: UserId, target: UserId, statusParam: string, users: set<UserId>) returns (r: LegacySendOutcome)
      requires R.Valid(Snapshot())
      modifies this
      ensures R.Valid(Snapshot())
      ensures (r, Snapshot()) == LegacySendStep(old(Snapshot()), actor, target, statusParam, users)
    {
      LegacySendPreservesValid(Snapshot(), actor, target, statusParam, users);
      if R.ParseSwipe(statusParam).None? {
        return LegacySendFailed(400, StatusNotAllowed(statusParam));
      }
      if target !in users {
        return LegacySendFailed(400, TargetNotFound);
      }
      var existing := R.FindPair(records, actor, target);
      if existing.Some? {
        return LegacySendFailed(400, RequestAlreadyExists);
      }
      var saved := Save(RequestDraft(Some(actor), Some(target), Some(statusParam)), nextId);
      match saved {
        case Failure(e) =>
          return LegacySendFailed(400, SaveRejected(e));
        case Success(rec) =>
          records := records + [rec];
          nextId := nextId + 1;
          return LegacySent(rec);
      }
    }

    /** The review as two store operations: a `findOne`, then a `save` of the document read. */
    method Review(reviewer: UserId, decisionParam: string, requestId: UserId) returns (r: LegacyReviewOutcome)
      requires R.Valid(Snapshot())
      modifies this
      ensures R.Valid(Snapshot())
      ensures (r, Snapshot()) == LegacyReviewStep(old(Snapshot()), reviewer, decisionParam, requestId)
    {
      LegacyReviewPreservesValid(Snapshot(), reviewer, decisionParam, requestId);
      var read := ReviewRead(Snapshot(), reviewer, decisionParam, requestId);
      if read.Failure? {
        return LegacyReviewFailed(400, read.error);
      }
      var (doc, decision) := read.value;
      var doc' := doc.(status := decision);
      if doc'.fromUserId == doc'.toUserId {
        return LegacyReviewFailed(400, SaveRejected(SelfRequest));
      }
      records := R.SetStatusById(records, doc'.id, decision);
      return LegacyReviewed(decision);
    }
  }
}
