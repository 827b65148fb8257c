/** The connection-request record: its status enumeration, its required fields, and what
    `save()` does with a document before it reaches the store (schema validation first, then
    the pre-save hook that refuses a request to oneself). */
module ConnectionRequestModel {
  import opened Wrappers

  /** A user id in its string form (`_id.toString()`). */
  type UserId = string

  datatype Status = Ignored | Interested | Accepted | Rejected

  function StatusName(s: Status): string
  {
    match s
    case Ignored => "ignored"
    case Interested => "interested"
    case Accepted => "accepted"
    case Rejected => "rejected"
  }

  /** The schema's enum check: exactly the four status names are accepted. */
  function ParseStatus(v: string): (r: Option<Status>)
    ensures r.Some? <==> v == "ignored" || v == "interested" || v == "accepted" || v == "rejected"
    ensures r.Some? ==> StatusName(r.value) == v
  {
    if v == "ignored" then Some(Ignored)
    else if v == "interested" then Some(Interested)
    else if v == "accepted" then Some(Accepted)
    else if v == "rejected" then Some(Rejected)
    else None
  }

  lemma ParseStatusName(s: Status)
    ensures ParseStatus(StatusName(s)) == Some(s)
  {
  }

  /** A stored record. `id` stands for the document's `_id`. */
  datatype ConnectionRequest = ConnectionRequest(id: nat, fromUserId: UserId, toUserId: UserId, status: Status)

  /** A document as a handler builds it before `save()`; None is a field left undefined. */
  datatype RequestDraft = RequestDraft(fromUserId: Option<UserId>, toUserId: Option<UserId>, status: Option<string>)

  datatype FieldError = Required(path: string) | NotAnEnumValue(path: string, value: string)

  datatype SaveError = ValidationFailed(errors: seq<FieldError>) | SelfRequest

  /** The schema's validation errors, in field order: both user ids and the status are
      required, and the status must be one of the four names. */
  function FieldErrors(d: RequestDraft): (errs: seq<FieldError>)
    ensures errs == [] <==>
      d.fromUserId.Some? && d.toUserId.Some? && d.status.Some? && ParseStatus(d.status.value).Some?
    ensures d.fromUserId.None? ==> Required("fromUserId") in errs
    ensures d.toUserId.None? ==> Required("toUserId") in errs
  {
    (if d.fromUserId.None? then [Required("fromUserId")] else [])
    + (if d.toUserId.None? then [Required("toUserId")] else [])
    + (match d.status
       case None => [Required("status")]
       case Some(v) =>
         if v == "" then [Required("status")]
         else if ParseStatus(v).None? then [NotAnEnumValue("status", v)]
         else [])
  }

  /** `save()` of a new document with the given `_id`: validation, then the pre-save hook. */
  function Save(d: RequestDraft, id: nat): (r: Result<ConnectionRequest, SaveError>)
    ensures r.Success? <==> FieldErrors(d) == [] && d.fromUserId != d.toUserId
    ensures r.Success? ==>
      r.value == ConnectionRequest(id, d.fromUserId.value, d.toUserId.value, ParseStatus(d.status.value).value)
    ensures r.Failure? && FieldErrors(d) == [] ==> r.error == SelfRequest
    ensures r.Success? ==> r.value.fromUserId != r.value.toUserId
  {
    var errs := FieldErrors(d);
    if errs != [] then Failure(ValidationFailed(errs))
    else if d.fromUserId.value == d.toUserId.value then Failure(SelfRequest)
    else Success(ConnectionRequest(id, d.fromUserId.value, d.toUserId.value, ParseStatus(d.status.value).value))
  }

  /** The record links `a` and `b`, in either direction. */
  predicate SamePair(r: ConnectionRequest, a: UserId, b: UserId)
  {
    (r.fromUserId == a && r.toUserId == b) || (r.fromUserId == b && r.toUserId == a)
  }

  /** The `{fromUserId, toUserId}` index is not unique and `save()` looks at no other record:
      both directions of one pair pass the record rules, so keeping one record per pair is
      left to the route handlers. */
  lemma SaveAcceptsBothDirections(a: UserId, b: UserId, s: Status, i: nat, j: nat)
    requires a != b
    ensures Save(RequestDraft(Some(a), Some(b), Some(StatusName(s))), i).Success?
    ensures Save(RequestDraft(Some(b), Some(a), Some(StatusName(s))), j).Success?
    ensures SamePair(Save(RequestDraft(Some(b), Some(a), Some(StatusName(s))), j).value, a, b)
  {
    ParseStatusName(s);
  }
}
