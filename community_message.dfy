/** The community-chat message record (`back/src/models/communityMessage.js`): a required
    sender, a text of at most 1000 characters defaulting to "", a message type out of
    {text, file, gif} defaulting to text, and four optional attachment strings. */
module CommunityMessageModel {
  import opened Wrappers

  type UserId = string

  const MaxTextLength: nat := 1000

  datatype MessageType = TextMessage | FileMessage | GifMessage

  function TypeName(t: MessageType): string
  {
    match t
    case TextMessage => "text"
    case FileMessage => "file"
    case GifMessage => "gif"
  }

  /** The enum check on `messageType`. */
  function ParseMessageType(v: string): (r: Option<MessageType>)
    ensures r.Some? <==> v == "text" || v == "file" || v == "gif"
    ensures r.Some? ==> TypeName(r.value) == v
  {
    if v == "text" then Some(TextMessage)
    else if v == "file" then Some(FileMessage)
    else if v == "gif" then Some(GifMessage)
    else None
  }

  lemma MessageTypeRoundTrip(t: MessageType)
    ensures ParseMessageType(TypeName(t)) == Some(t)
  {
  }

  /** A message document before `save()`; None is a field left undefined. */
  datatype CommunityDraft = CommunityDraft(senderId: Option<UserId>, text: Option<string>, messageType: Option<string>,
                                           fileUrl: Option<string>, fileName: Option<string>,
                                           fileMimeType: Option<string>, gifUrl: Option<string>)

  datatype CommunityMessage = CommunityMessage(senderId: UserId, text: string, messageType: MessageType,
                                               fileUrl: Option<string>, fileName: Option<string>,
                                               fileMimeType: Option<string>, gifUrl: Option<string>)

  datatype MessageFieldError = SenderRequired | TextTooLong(maxLength: nat) | UnknownMessageType(value: string)

  /** The text as stored: "" when undefined. */
  function StoredText(d: CommunityDraft): string
  {
    match d.text
    case Some(t) => t
    case None => ""
  }

  /** The message type as given, "text" when undefined. */
  function StoredTypeName(d: CommunityDraft): string
  {
    match d.messageType
    case Some(t) => t
    case None => "text"
  }

  /** The validation errors, in schema order. */
  function MessageErrors(d: CommunityDraft): seq<MessageFieldError>
  {
    (if d.senderId.None? then [SenderRequired] else [])
    + (if |StoredText(d)| > MaxTextLength then [TextTooLong(MaxTextLength)] else [])
    + (if ParseMessageType(StoredTypeName(d)).None? then [UnknownMessageType(StoredTypeName(d))] else [])
  }

  /** `new CommunityMessage(d).save()` without the store. */
  function ValidateMessage(d: CommunityDraft): (r: Result<CommunityMessage, seq<MessageFieldError>>)
    ensures r.Success? <==>
      && d.senderId.Some?
      && (d.text.None? || |d.text.value| <= MaxTextLength)
      && (d.messageType.None? || d.messageType.value in ["text", "file", "gif"])
    ensures r.Failure? ==> r.error != [] && (d.senderId.None? ==> SenderRequired in r.error)
    ensures r.Success? ==>
      && r.value.senderId == d.senderId.value
      && r.value.text == (if d.text.Some? then d.text.value else "")
      && |r.value.text| <= MaxTextLength
      && TypeName(r.value.messageType) == (if d.messageType.Some? then d.messageType.value else "text")
      && r.value.fileUrl == d.fileUrl && r.value.fileName == d.fileName
      && r.value.fileMimeType == d.fileMimeType && r.value.gifUrl == d.gifUrl
  {
    var errs := MessageErrors(d);
    if errs != [] then Failure(errs)
    else
      Success(CommunityMessage(d.senderId.value, StoredText(d), ParseMessageType(StoredTypeName(d)).value,
                               d.fileUrl, d.fileName, d.fileMimeType, d.gifUrl))
  }

  /** A message with only a sender is a text message with empty text and no attachment. */
  lemma SenderOnlyDefaults(sender: UserId)
    ensures ValidateMessage(CommunityDraft(Some(sender), None, None, None, None, None, None))
         == Success(CommunityMessage(sender, "", TextMessage, None, None, None, None))
  {
  }

  /** An explicitly empty message type is not the default: it fails the enum check. */
  lemma EmptyTypeRefused(d: CommunityDraft)
    requires d.messageType == Some("")
    ensures ValidateMessage(d).Failure? && UnknownMessageType("") in ValidateMessage(d).error
  {
    var errs := MessageErrors(d);
    assert errs[|errs| - 1] == UnknownMessageType("");
  }
}
