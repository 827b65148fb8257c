/** The post record (`back/src/models/post.js`) and what `save()` makes of a new post document:
    the title is trimmed when it is assigned, missing optional fields take their defaults, and
    the schema validators then check the required fields and the maximum lengths. */
module PostModel {
  import opened Wrappers
  import opened JsStrings

  type UserId = string

  const MaxTitleLength: nat := 100
  const MaxContentLength: nat := 2000

  /** A post document as the handler builds it; None is a field left undefined. */
  datatype PostDraft = PostDraft(authorId: Option<UserId>, title: Option<string>, content: Option<string>,
                                 tags: Option<seq<string>>, photoUrl: Option<string>, linkUrl: Option<string>)

  /** The stored fields of a post. */
  datatype PostFields = PostFields(authorId: UserId, title: string, content: string,
                                   tags: seq<string>, photoUrl: string, linkUrl: string)

  datatype PostFieldError = Required(path: string) | TooLong(path: string, maxLength: nat)

  /** The title as stored: the `trim` setter runs when the field is assigned. */
  function CastTitle(title: Option<string>): Option<string>
  {
    match title
    case None => None
    case Some(t) => Some(Trim(t))
  }

  /** A required string is missing when undefined or empty. */
  function RequiredString(path: string, v: Option<string>): seq<PostFieldError>
  {
    if v.None? || v.value == "" then [Required(path)] else []
  }

  function MaxLengthCheck(path: string, v: Option<string>, maxLength: nat): seq<PostFieldError>
  {
    if v.Some? && |v.value| > maxLength then [TooLong(path, maxLength)] else []
  }

  /** The validation errors, in schema order. */
  function PostErrors(d: PostDraft): (errs: seq<PostFieldError>)
    ensures errs == [] <==>
      && d.authorId.Some?
      && d.title.Some? && Trim(d.title.value) != "" && |Trim(d.title.value)| <= MaxTitleLength
      && d.content.Some? && d.content.value != "" && |d.content.value| <= MaxContentLength
  {
    var title := CastTitle(d.title);
    (if d.authorId.None? then [Required("authorId")] else [])
    + RequiredString("title", title) + MaxLengthCheck("title", title, MaxTitleLength)
    + RequiredString("content", d.content) + MaxLengthCheck("content", d.content, MaxContentLength)
  }

  /** `new Post(d).save()` without the store: validation, then the stored fields with their
      defaults (`tags: []`, `photoUrl: ""`, `linkUrl: ""`). */
  function ValidatePost(d: PostDraft): (r: Result<PostFields, seq<PostFieldError>>)
    ensures r.Failure? <==> PostErrors(d) != []
    ensures r.Failure? ==> r.error == PostErrors(d)
    ensures r.Success? ==>
      && r.value.authorId == d.authorId.value
      && r.value.title == Trim(d.title.value)
      && r.value.content == d.content.value
      && r.value.tags == (if d.tags.Some? then d.tags.value else [])
      && r.value.photoUrl == (if d.photoUrl.Some? then d.photoUrl.value else "")
      && r.value.linkUrl == (if d.linkUrl.Some? then d.linkUrl.value else "")
  {
    var errs := PostErrors(d);
    if errs != [] then Failure(errs)
    else
      Success(PostFields(d.authorId.value, Trim(d.title.value), d.content.value,
                         match d.tags case Some(t) => t case None => [],
                         match d.photoUrl case Some(p) => p case None => "",
                         match d.linkUrl case Some(p) => p case None => ""))
  }

  /** Every stored post has an author, a non-empty title of at most 100 characters that
      neither starts nor ends with whitespace, and non-empty content of at most 2000. */
  lemma StoredPostShape(d: PostDraft)
    requires ValidatePost(d).Success?
    ensures var p := ValidatePost(d).value;
      && p.title != [] && |p.title| <= MaxTitleLength
      && !IsWhiteSpace(p.title[0]) && !IsWhiteSpace(p.title[|p.title| - 1])
      && p.content != [] && |p.content| <= MaxContentLength
  {
    TrimShape(d.title.value);
  }

  /** A title of whitespace only is refused as missing, because it is trimmed to "" first. */
  lemma BlankTitleIsMissing(d: PostDraft)
    requires d.title.Some? && IsBlank(d.title.value)
    ensures ValidatePost(d).Failure? && Required("title") in ValidatePost(d).error
  {
    TrimEmptyIffBlank(d.title.value);
    var title := CastTitle(d.title);
    assert RequiredString("title", title) == [Required("title")];
    var errs := PostErrors(d);
    var pre := if d.authorId.None? then [Required("authorId")] else [];
    assert errs[|pre|] == Required("title");
  }
}
