/** The post handlers of the newer server (`back/src/routes/post.js`): the paged explore list,
    "my posts", create and author-only delete.

    As for the connection requests, each handler that changes the store is a step function on a
    store value, and `PostStore` is the collection the handlers update in place, with methods
    tied to those functions. `createdAt` is the time given to the create handler. */
module PostRoutes {
  import opened Wrappers
  import opened MongoQuery
  import opened Pagination
  import opened PostModel
  import opened JsStrings

  datatype Post = Post(id: nat, fields: PostFields, createdAt: int)

  /** The post collection in store order, and the next fresh `_id`. */
  datatype Posts = Posts(items: seq<Post>, nextId: nat)

  predicate PostsValid(s: Posts)
  {
    && (forall i :: 0 <= i < |s.items| ==> s.items[i].id < s.nextId)
    && IdsDistinct(s.items)
  }

  // ---------------------------------------------------------------- `sort({createdAt: -1})`

  predicate NewestFirstOrder(s: seq<Post>)
  {
    forall i, j :: 0 <= i < j < |s| ==> s[i].createdAt >= s[j].createdAt
  }

  function InsertByDate(p: Post, sorted: seq<Post>): (r: seq<Post>)
    requires NewestFirstOrder(sorted)
    ensures NewestFirstOrder(r)
    ensures multiset(r) == multiset(sorted) + multiset{p}
    ensures |r| == |sorted| + 1
    ensures forall q :: q in r ==> q == p || q in sorted
  {
    if sorted == [] then [p]
    else if p.createdAt >= sorted[0].createdAt then
      ConsNewestFirst(p, sorted);
      [p] + sorted
    else
      var head, tail := sorted[0], sorted[1..];
      assert sorted == [head] + tail;
      assert NewestFirstOrder(tail) && forall q :: q in tail ==> q.createdAt <= head.createdAt;
      var rest := InsertByDate(p, tail);
      assert forall q :: q in rest ==> q.createdAt <= head.createdAt;
      ConsNewestFirst(head, rest);
      [head] + rest
  }

  /** A post at least as new as every post of a newest-first list can go in front of it. */
  lemma ConsNewestFirst(p: Post, rest: seq<Post>)
    requires NewestFirstOrder(rest)
    requires forall q :: q in rest ==> q.createdAt <= p.createdAt
    ensures NewestFirstOrder([p] + rest)
  {
    var r := [p] + rest;
    forall i, j | 0 <= i < j < |r| ensures r[i].createdAt >= r[j].createdAt {
      assert r[j] == rest[j - 1] && rest[j - 1] in rest;
      if i > 0 {
        assert r[i] == rest[i - 1];
      }
    }
  }

  /** The posts newest first, as a permutation of the posts given. The store's order between
      posts created at the same instant is not modelled; this one keeps a fixed order. */
  function NewestFirst(ps: seq<Post>): (r: seq<Post>)
    ensures NewestFirstOrder(r)
    ensures multiset(r) == multiset(ps)
  {
    if ps == [] then []
    else
      assert ps == [ps[0]] + ps[1..];
      InsertByDate(ps[0], NewestFirst(ps[1..]))
  }

  /** `GET /posts/explore`: the requested page of all posts, newest first, 20 to a page by
      default; a negative skip is refused by the store (answered with 500). */
  function Explore(s: Posts, pageQ: Option<int>, limitQ: Option<int>): Result<seq<Post>, QueryError>
  {
    var w := PageWindow(pageQ, limitQ, 20);
    SkipLimit(NewestFirst(s.items), w.skip, w.limit)
  }

  /** The explore page is newest first, holds only stored posts and at most `limit` of them. */
  lemma ExploreOrderedAndBounded(s: Posts, pageQ: Option<int>, limitQ: Option<int>)
    ensures var w := PageWindow(pageQ, limitQ, 20);
      var r := Explore(s, pageQ, limitQ);
      && (1 <= w.limit <= MaxLimit || w.limit < 0)
      && (r.Failure? <==> w.skip < 0)
      && (r.Success? ==>
          && NewestFirstOrder(r.value)
          && |r.value| <= Abs(w.limit)
          && (forall p :: p in r.value ==> p in s.items))
  {
    var w := PageWindow(pageQ, limitQ, 20);
    var all := NewestFirst(s.items);
    var r := Explore(s, pageQ, limitQ);
    if r.Success? {
      var start := Min(w.skip, |all|);
      assert r.value == all[start..start + |r.value|];
      forall p | p in r.value ensures p in s.items {
        assert p in multiset(all);
      }
    }
  }

  function ByAuthor(ps: seq<Post>, me: UserId): (r: seq<Post>)
    ensures forall p :: p in r <==> p in ps && p.fields.authorId == me
  {
    if ps == [] then []
    else
      var rest := ByAuthor(ps[1..], me);
      assert forall p :: p in ps <==> p == ps[0] || p in ps[1..];
      if ps[0].fields.authorId == me then [ps[0]] + rest else rest
  }

  /** `GET /posts/my`: the logged-in user's posts, newest first. */
  function MyPosts(s: Posts, me: UserId): Result<seq<Post>, QueryError>
  {
    Success(NewestFirst(ByAuthor(s.items, me)))
  }

  /** "My posts" are exactly the posts whose author is me, newest first. */
  lemma MyPostsExactlyMine(s: Posts, me: UserId)
    ensures var r := MyPosts(s, me);
      && r.Success?
      && NewestFirstOrder(r.value)
      && (forall p :: p in r.value <==> p in s.items && p.fields.authorId == me)
  {
    var mine := ByAuthor(s.items, me);
    var r := NewestFirst(mine);
    forall p ensures p in r <==> p in mine {
      assert p in r <==> p in multiset(r);
    }
  }

  // ---------------------------------------------------------------- create

  /** The JSON body of a create request; None is a member that is absent. */
  datatype CreateBody = CreateBody(title: Option<string>, content: Option<string>, tags: Option<seq<string>>,
                                   photoUrl: Option<string>, linkUrl: Option<string>)

  datatype PostError = MissingTitleOrContent | InvalidPost(errors: seq<PostFieldError>) | PostNotFound | NotAuthor

  datatype CreateOutcome = Created(httpStatus: int, post: Post) | CreateRejected(httpStatus: int, error: PostError)

  predicate FalsyText(v: Option<string>)
  {
    v.None? || v.value == ""
  }

  /** The document the handler builds: the author is the logged-in user, `tags || []`. */
  function CreateDraft(me: UserId, b: CreateBody): PostDraft
  {
    PostDraft(Some(me), b.title, b.content, Some(match b.tags case Some(t) => t case None => []), b.photoUrl, b.linkUrl)
  }

  /** `POST /post/create`. */
  function CreateStep(s: Posts, me: UserId, b: CreateBody, now: int): (CreateOutcome, Posts)
  {
    if FalsyText(b.title) || FalsyText(b.content) then (CreateRejected(400, MissingTitleOrContent), s)
    else SaveStep(s, ValidatePost(CreateDraft(me, b)), now)
  }

  /** `new Post(...).save()` in the handler: a refusal by the record rules is answered with
      400, an accepted post is stored under the next fresh `_id`. */
  function SaveStep(s: Posts, saved: Result<PostFields, seq<PostFieldError>>, now: int): (CreateOutcome, Posts)
  {
    match saved
    case Failure(errs) => (CreateRejected(400, InvalidPost(errs)), s)
    case Success(fields) =>
      var p := Post(s.nextId, fields, now);
      (Created(201, p), Posts(s.items + [p], s.nextId + 1))
  }

  /** A missing or empty title or content is refused with 400 and nothing is stored. */
  lemma CreateRequiresTitleAndContent(s: Posts, me: UserId, b: CreateBody, now: int)
    requires FalsyText(b.title) || FalsyText(b.content)
    ensures CreateStep(s, me, b, now) == (CreateRejected(400, MissingTitleOrContent), s)
  {
  }

  /** A create stores exactly one post, answered with 201, exactly when the record rules accept it; the post's
      author is the logged-in user, its tags default to [], and any refusal is a 400 that
      leaves the store unchanged. */
  lemma CreateStoresOne(s: Posts, me: UserId, b: CreateBody, now: int)
    ensures var (o, s') := CreateStep(s, me, b, now);
      && (o.Created? <==> !FalsyText(b.title) && !FalsyText(b.content) && ValidatePost(CreateDraft(me, b)).Success?)
      && (o.CreateRejected? ==> o.httpStatus == 400 && s' == s)
      && (o.Created? ==>
          && o.httpStatus == 201
          && s'.items == s.items + [o.post] && s'.nextId == s.nextId + 1
          && o.post.id == s.nextId && o.post.createdAt == now
          && o.post.fields.authorId == me
          && o.post.fields.title == Trim(b.title.value)
          && o.post.fields.content == b.content.value
          && o.post.fields.tags == (if b.tags.Some? then b.tags.value else []))
  {
  }

  /** A title of spaces passes the handler's own check but is refused by the record rules. */
  lemma BlankTitleRefusedAtSave(s: Posts, me: UserId, b: CreateBody, now: int)
    requires b.title.Some? && b.title.value != "" && IsBlank(b.title.value) && !FalsyText(b.content)
    ensures var (o, s') := CreateStep(s, me, b, now);
      o.CreateRejected? && o.httpStatus == 400 && o.error.InvalidPost? && s' == s
  {
    BlankTitleIsMissing(CreateDraft(me, b));
  }

  lemma CreatePreservesValid(s: Posts, me: UserId, b: CreateBody, now: int)
    requires PostsValid(s)
    ensures PostsValid(CreateStep(s, me, b, now).1)
  {
    CreateStoresOne(s, me, b, now);
    var (o, s') := CreateStep(s, me, b, now);
    if o.Created? {
      AppendFreshKeepsValid(s, o.post);
    }
  }

  /** Appending a post with the next fresh id keeps the store valid. */
  lemma AppendFreshKeepsValid(s: Posts, p: Post)
    requires PostsValid(s) && p.id == s.nextId
    ensures PostsValid(Posts(s.items + [p], s.nextId + 1))
  {
    var items := s.items + [p];
    forall i, j | 0 <= i < j < |items| ensures items[i].id != items[j].id {
      assert items[i] == s.items[i];
    }
  }


  // ---------------------------------------------------------------- delete

  function FindPost(ps: seq<Post>, id: nat): (r: Option<Post>)
    ensures r.Some? ==> r.value in ps && r.value.id == id
    ensures r.None? ==> forall p :: p in ps ==> p.id != id
  {
    if ps == [] then None
    else if ps[0].id == id then Some(ps[0])
    else
      var r := FindPost(ps[1..], id);
      assert forall p :: p in ps ==> p == ps[0] || p in ps[1..];
      r
  }

  function RemoveById(ps: seq<Post>, id: nat): (r: seq<Post>)
    ensures forall p :: p in r <==> p in ps && p.id != id
    ensures |r| <= |ps|
  {
    if ps == [] then []
    else
      var rest := RemoveById(ps[1..], id);
      assert forall p :: p in ps <==> p == ps[0] || p in ps[1..];
      if ps[0].id == id then rest else [ps[0]] + rest
  }

  datatype DeleteOutcome = Deleted | DeleteRejected(httpStatus: int, error: PostError)

  /** `DELETE /post/:id`. */
  function DeleteStep(s: Posts, me: UserId, id: nat): (DeleteOutcome, Posts)
  {
    match FindPost(s.items, id)
    case None => (DeleteRejected(404, PostNotFound), s)
    case Some(p) =>
      if p.fields.authorId != me then (DeleteRejected(403, NotAuthor), s)
      else (Deleted, Posts(RemoveById(s.items, id), s.nextId))
  }

  /** An unknown id is a 404 and someone else's post a 403, both leaving the store unchanged;
      the author's delete removes exactly that post and keeps every other one. */
  lemma DeleteOnlyByAuthor(s: Posts, me: UserId, id: nat)
    requires PostsValid(s)
    ensures var (o, s') := DeleteStep(s, me, id);
      && (o == DeleteRejected(404, PostNotFound) <==> forall p :: p in s.items ==> p.id != id)
      && (o == DeleteRejected(403, NotAuthor) <==> exists p :: p in s.items && p.id == id && p.fields.authorId != me)
      && (o == Deleted <==> exists p :: p in s.items && p.id == id && p.fields.authorId == me)
      && (o.DeleteRejected? ==> s' == s)
      && (o == Deleted ==>
          && |s'.items| == |s.items| - 1
          && (forall p :: p in s'.items <==> p in s.items && p.id != id))
  {
    match FindPost(s.items, id) {
      case None =>
      case Some(p) =>
        forall q | q in s.items && q.id == id ensures q == p {
          var i :| 0 <= i < |s.items| && s.items[i] == q;
          var j :| 0 <= j < |s.items| && s.items[j] == p;
          assert i == j;
        }
        if p.fields.authorId == me {
          RemoveOneById(s.items, id);
        }
    }
  }

  /** With distinct ids, removing a present id drops exactly one post. */
  lemma {:induction false} RemoveOneById(ps: seq<Post>, id: nat)
    requires IdsDistinct(ps)
    requires exists p :: p in ps && p.id == id
    ensures |RemoveById(ps, id)| == |ps| - 1
  {
    if ps[0].id == id {
      RemoveNone(ps[1..], id);
    } else {
      var p :| p in ps && p.id == id;
      assert p in ps[1..];
      RemoveOneById(ps[1..], id);
    }
  }

  lemma {:induction false} RemoveNone(ps: seq<Post>, id: nat)
    requires forall p :: p in ps ==> p.id != id
    ensures RemoveById(ps, id) == ps
  {
    if ps != [] {
      assert ps[0] in ps;
      assert forall p :: p in ps[1..] ==> p in ps;
      RemoveNone(ps[1..], id);
    }
  }

  lemma DeletePreservesValid(s: Posts, me: UserId, id: nat)
    requires PostsValid(s)
    ensures PostsValid(DeleteStep(s, me, id).1)
  {
    var s' := DeleteStep(s, me, id).1;
    if s' != s {
      assert s'.items == RemoveById(s.items, id);
      RemoveKeepsDistinct(s.items, id);
      forall i | 0 <= i < |s'.items| ensures s'.items[i].id < s'.nextId {
        assert s'.items[i] in s'.items;
      }
    }
  }

  predicate IdsDistinct(ps: seq<Post>)
  {
    forall i, j :: 0 <= i < j < |ps| ==> ps[i].id != ps[j].id
  }

  lemma TailIdsDistinct(ps: seq<Post>)
    requires ps != [] && IdsDistinct(ps)
    ensures IdsDistinct(ps[1..])
    ensures forall q :: q in ps[1..] ==> q.id != ps[0].id
  {
    var tail := ps[1..];
    forall i, j | 0 <= i < j < |tail| ensures tail[i].id != tail[j].id {
      assert tail[i] == ps[i + 1] && tail[j] == ps[j + 1];
    }
    forall q | q in tail ensures q.id != ps[0].id {
      var k :| 0 <= k < |tail| && tail[k] == q;
      assert ps[k + 1] == q;
    }
  }

  lemma ConsIdsDistinct(p: Post, rest: seq<Post>)
    requires IdsDistinct(rest) && forall q :: q in rest ==> q.id != p.id
    ensures IdsDistinct([p] + rest)
  {
    var r := [p] + rest;
    forall i, j | 0 <= i < j < |r| ensures r[i].id != r[j].id {
      assert r[j] == rest[j - 1];
      if i == 0 {
        assert rest[j - 1] in rest;
      } else {
        assert r[i] == rest[i - 1];
      }
    }
  }

  /** Removing posts keeps the remaining ids distinct. */
  lemma {:induction false} RemoveKeepsDistinct(ps: seq<Post>, id: nat)
    requires IdsDistinct(ps)
    ensures IdsDistinct(RemoveById(ps, id))
  {
    if ps != [] {
      TailIdsDistinct(ps);
      RemoveKeepsDistinct(ps[1..], id);
      if ps[0].id != id {
        ConsIdsDistinct(ps[0], RemoveById(ps[1..], id));
      }
    }
  }

  /** The post collection, updated in place by create and delete. */
  class PostStore {
    var items: seq<Post>
    var nextId: nat

    function Snapshot(): Posts
      reads this
    {
      Posts(items, nextId)
    }

    constructor ()
      ensures Snapshot() == Posts([], 0)
    {
      items := [];
      nextId := 0;
    }

    /** `POST /post/create`. */
    method Create(me: UserId, b: CreateBody, now: int) returns (r: CreateOutcome)
      requires PostsValid(Snapshot())
      modifies this
      ensures PostsValid(Snapshot())
      ensures (r, Snapshot()) == CreateStep(old(Snapshot()), me, b, now)
    {
      CreatePreservesValid(Snapshot(), me, b, now);
      if FalsyText(b.title) || FalsyText(b.content) {
        return CreateRejected(400, MissingTitleOrContent);
      }
      r := Save(CreateDraft(me, b), now);
    }

    /** `new Post(d).save()` and the handler's answer to it. */
    method Save(d: PostDraft, now: int) returns (r: CreateOutcome)
      requires PostsValid(Snapshot())
      modifies this
      ensures (r, Snapshot()) == SaveStep(old(Snapshot()), ValidatePost(d), now)
    {
      var saved := ValidatePost(d);
      if saved.Failure? {
        return CreateRejected(400, InvalidPost(saved.error));
      }
      var p := Post(nextId, saved.value, now);
      Store(p);
      return Created(201, p);
    }

    /** The insert `save()` ends with: the post goes to the end under the next fresh `_id`. */
    method Store(p: Post)
      requires PostsValid(Snapshot()) && p.id == nextId
      modifies this
      ensures PostsValid(Snapshot())
      ensures Snapshot() == Posts(old(items) + [p], old(nextId) + 1)
    {
      AppendFreshKeepsValid(Snapshot(), p);
      items := items + [p];
      nextId := nextId + 1;
    }

    method Delete(me: UserId, id: nat) returns (r: DeleteOutcome)
      requires PostsValid(Snapshot())
      modifies this
      ensures PostsValid(Snapshot())
      ensures (r, Snapshot()) == DeleteStep(old(Snapshot()), me, id)
    {
      DeletePreservesValid(Snapshot(), me, id);
      var found := FindPost(items, id);
      match found {
        case None =>
          return DeleteRejected(404, PostNotFound);
        case Some(p) =>
          if p.fields.authorId != me {
            return DeleteRejected(403, NotAuthor);
          }
          items := RemoveById(items, id);
          return Deleted;
      }
    }
  }
}
