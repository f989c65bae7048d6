// PostService: every call runs in one or two unit-of-work scopes.  Each
// method is proved equal to a function on the committed store (an `Effect`:
// the result or error, and the store afterwards); the lemmas state what those
// functions promise.  Commit and rollback are taken not to fail here.
module PostService {
  import opened Results
  import opened Tables
  import opened PostSchema
  import opened Database
  import opened UnitOfWork

  /** Every stored post meets the schema's length constraints. */
  ghost predicate PostsValid(t: Table<PostFields>) {
    forall r :: r in t.rows ==> ValidPost(r.fields)
  }

  /** The filter dictionary `get_posts` passes on: each key that is present must match. */
  datatype PostFilter = PostFilter(
    id: Option<int>,
    title: Option<string>,
    content: Option<string>,
    kind: Option<PostType>,
    status: Option<PostStatus>,
    publicationDate: Option<Option<int>>,
    authorId: Option<int>)

  /** The empty dictionary. */
  const NoFilter := PostFilter(None, None, None, None, None, None, None)

  function Matches(q: PostFilter): Row<PostFields> -> bool {
    (r: Row<PostFields>) =>
      && (q.id.None? || q.id.value == r.id)
      && (q.title.None? || q.title.value == r.fields.title)
      && (q.content.None? || q.content.value == r.fields.content)
      && (q.kind.None? || q.kind.value == r.fields.kind)
      && (q.status.None? || q.status.value == r.fields.status)
      && (q.publicationDate.None? || q.publicationDate.value == r.fields.publicationDate)
      && (q.authorId.None? || q.authorId.value == r.fields.authorId)
  }

  // ---------------------------------------------------------------- the functions on the store

  /** get_posts: the posts the filter matches; no filter is the empty dictionary. */
  function PostsMatching(db: Store, filters: Option<PostFilter>): (r: seq<Row<PostFields>>)
    ensures filters.None? ==> r == db.posts.rows
    ensures forall x :: x in r <==> x in db.posts.rows && (filters.None? || Matches(filters.value)(x))
  {
    var q := filters.GetOr(NoFilter);
    FindSomeAll(db.posts.rows, Matches(NoFilter));
    FindSome(db.posts.rows, Matches(q))
  }

  function CreatePostEffect(db: Store, post: PostFields): Effect<int> {
    Effect(Ok(db.posts.nextId), db.(posts := Insert(db.posts, post)))
  }

  /** The shape shared by update, publish and archive: 404 for a missing post, else rewrite it. */
  function RewritePostEffect(db: Store, postId: int, g: PostFields -> PostFields): Effect<seq<Row<PostFields>>> {
    if Lookup(db.posts, postId).Err? then Effect(Err(NotFound), db)
    else Effect(Ok(Updated(db.posts, ById(postId), g)), db.(posts := UpdateWhere(db.posts, ById(postId), g)))
  }

  function DeletePostEffect(db: Store, postId: int): Effect<seq<Row<PostFields>>> {
    if Lookup(db.posts, postId).Err? then Effect(Err(NotFound), db)
    else Effect(Ok(FindSome(db.posts.rows, ById(postId))), db.(posts := DeleteWhere(db.posts, ById(postId))))
  }

  function AddTagEffect(db: Store, postId: int, tagId: int): Effect<Link> {
    if Lookup(db.posts, postId).Err? || Lookup(db.tags, tagId).Err? then Effect(Err(NotFound), db)
    else
      var (l, links) := LinkOnce(db.postTags, postId, tagId);
      Effect(Ok(l), db.(postTags := links))
  }

  function RemoveTagEffect(db: Store, postId: int, tagId: int): Effect<seq<Link>> {
    if Lookup(db.posts, postId).Err? then Effect(Err(NotFound), db)
    else
      var (removed, links) := Unlink(db.postTags, postId, tagId);
      Effect(Ok(removed), db.(postTags := links))
  }

  function AddCategoryEffect(db: Store, postId: int, categoryId: int): Effect<Link> {
    if Lookup(db.posts, postId).Err? || Lookup(db.categories, categoryId).Err? then Effect(Err(NotFound), db)
    else
      var (l, links) := LinkOnce(db.postCategories, postId, categoryId);
      Effect(Ok(l), db.(postCategories := links))
  }

  function RemoveCategoryEffect(db: Store, postId: int, categoryId: int): Effect<seq<Link>> {
    if Lookup(db.posts, postId).Err? then Effect(Err(NotFound), db)
    else
      var (removed, links) := Unlink(db.postCategories, postId, categoryId);
      Effect(Ok(removed), db.(postCategories := links))
  }

  // ---------------------------------------------------------------- what they promise

  /** create_post: the new post is found under the next id, no earlier post changes, and the store stays valid. */
  lemma CreatePostFacts(db: Store, post: PostFields)
    requires db.Valid() && PostsValid(db.posts) && ValidPost(post)
    ensures var e := CreatePostEffect(db, post);
      && e.result.Ok? && Lookup(db.posts, e.result.value).Err?
      && Lookup(e.after.posts, e.result.value) == Ok(Row(e.result.value, post))
      && (forall id :: id != e.result.value ==> Lookup(e.after.posts, id) == Lookup(db.posts, id))
      && e.after.(posts := db.posts) == db
      && e.after.Valid() && PostsValid(e.after.posts)
  {
    InsertFacts(db.posts, post);
  }

  /**
   * Rewriting a post: the error is NotFound exactly when no post has the id,
   * and then nothing changes; otherwise the call returns just that post as
   * rewritten, the store holds it under the same id, every other post and
   * every other table is as it was, and the store stays valid.
   */
  lemma RewritePostFacts(db: Store, postId: int, g: PostFields -> PostFields)
    requires db.Valid()
    ensures var e := RewritePostEffect(db, postId, g);
      && (e.result.Err? <==> forall x :: x in db.posts.rows ==> x.id != postId)
      && (e.result.Err? ==> e.result.error == NotFound && e.after == db)
      && (e.result.Ok? ==>
            var old_ := Lookup(db.posts, postId).value;
            && e.result.value == [Row(postId, g(old_.fields))]
            && Lookup(e.after.posts, postId) == Ok(Row(postId, g(old_.fields)))
            && (forall id :: id != postId ==> Lookup(e.after.posts, id) == Lookup(db.posts, id))
            && e.after.(posts := db.posts) == db
            && e.after.Valid())
  {
    UpdateById(db.posts, postId, g);
  }

  /**
   * update_post: only the fields the update sets change; the author never
   * does; a post meeting the constraints still meets them after a valid update.
   */
  lemma UpdatePostFacts(db: Store, postId: int, u: PostUpdate)
    requires db.Valid() && PostsValid(db.posts) && ValidUpdate(u)
    ensures var e := RewritePostEffect(db, postId, Patch(u));
      && (e.result.Err? <==> Lookup(db.posts, postId).Err?)
      && (e.result.Ok? ==>
            var before := Lookup(db.posts, postId).value.fields;
            && Lookup(e.after.posts, postId) == Ok(Row(postId, ApplyUpdate(before, u)))
            && ApplyUpdate(before, u).authorId == before.authorId
            && (u == NoChange ==> ApplyUpdate(before, u) == before))
      && PostsValid(e.after.posts)
  {
    RewritePostFacts(db, postId, Patch(u));
    RewriteKeepsPostsValid(db.posts, postId, Patch(u));
  }

  /** publish_post and archive_post: exactly the status changes, to the given value. */
  lemma SetStatusFacts(db: Store, postId: int, s: PostStatus)
    requires db.Valid() && PostsValid(db.posts)
    ensures var e := RewritePostEffect(db, postId, WithStatus(s));
      && (e.result.Err? <==> Lookup(db.posts, postId).Err?)
      && (e.result.Ok? ==>
            Lookup(e.after.posts, postId) == Ok(Row(postId, Lookup(db.posts, postId).value.fields.(status := s))))
      && PostsValid(e.after.posts)
  {
    RewritePostFacts(db, postId, WithStatus(s));
    RewriteKeepsPostsValid(db.posts, postId, WithStatus(s));
  }

  /** A rewrite that keeps every valid post valid keeps the whole table valid. */
  lemma RewriteKeepsPostsValid(t: Table<PostFields>, postId: int, g: PostFields -> PostFields)
    requires PostsValid(t) && forall f :: ValidPost(f) ==> ValidPost(g(f))
    ensures PostsValid(UpdateWhere(t, ById(postId), g))
  {
    var t' := UpdateWhere(t, ById(postId), g);
    forall r | r in t'.rows ensures ValidPost(r.fields) {
      var i :| 0 <= i < |t'.rows| && t'.rows[i] == r;
      assert ValidPost(t.rows[i].fields);
    }
  }

  /** delete_post: 404 exactly when missing; otherwise it returns the post and only that post is gone. */
  lemma DeletePostFacts(db: Store, postId: int)
    requires db.Valid() && PostsValid(db.posts)
    ensures var e := DeletePostEffect(db, postId);
      && (e.result.Err? <==> Lookup(db.posts, postId).Err?)
      && (e.result.Err? ==> e.result.error == NotFound && e.after == db)
      && (e.result.Ok? ==>
            && e.result.value == [Lookup(db.posts, postId).value]
            && Lookup(e.after.posts, postId).Err?
            && (forall id :: id != postId ==> Lookup(e.after.posts, id) == Lookup(db.posts, id))
            && e.after.(posts := db.posts) == db)
      && e.after.Valid() && PostsValid(e.after.posts)
  {
    DeleteByIdFacts(db.posts, postId);
  }

  /**
   * add_tag_to_post: NotFound, with no edge added, exactly when the post or
   * the tag is missing; otherwise the pair has exactly one edge afterwards,
   * no other edge changed, and adding it again returns the same edge and
   * changes nothing.
   */
  lemma AddTagFacts(db: Store, postId: int, tagId: int)
    requires db.Valid()
    ensures var e := AddTagEffect(db, postId, tagId);
      && (e.result.Err? <==> Lookup(db.posts, postId).Err? || Lookup(db.tags, tagId).Err?)
      && (e.result.Err? ==> e.result.error == NotFound && e.after == db)
      && (e.result.Ok? ==>
            && e.result.value == Link(postId, tagId)
            && FindSome(e.after.postTags, Pair(postId, tagId)) == [Link(postId, tagId)]
            && (forall l :: l in e.after.postTags <==> l in db.postTags || l == Link(postId, tagId))
            && e.after.(postTags := db.postTags) == db
            && AddTagEffect(e.after, postId, tagId) == e)
      && e.after.Valid()
  {
    LinkOnceFacts(db.postTags, postId, tagId);
  }

  /**
   * remove_tag_from_post: NotFound exactly when the post is missing; the tag
   * is not looked up.  Only the edges of that exact pair go, and removing it
   * a second time returns nothing and changes nothing.
   */
  lemma RemoveTagFacts(db: Store, postId: int, tagId: int)
    requires db.Valid()
    ensures var e := RemoveTagEffect(db, postId, tagId);
      && (e.result.Err? <==> Lookup(db.posts, postId).Err?)
      && (e.result.Err? ==> e.result.error == NotFound && e.after == db)
      && (e.result.Ok? ==>
            && (forall l :: l in e.result.value <==> l in db.postTags && l == Link(postId, tagId))
            && (forall l :: l in e.after.postTags <==> l in db.postTags && l != Link(postId, tagId))
            && e.after.(postTags := db.postTags) == db
            && RemoveTagEffect(e.after, postId, tagId) == Effect(Ok([]), e.after))
      && e.after.Valid()
  {
    UnlinkFacts(db.postTags, postId, tagId);
  }

  /** add_category_to_post: the same checks and the same idempotence, on the post–category edges. */
  lemma AddCategoryFacts(db: Store, postId: int, categoryId: int)
    requires db.Valid()
    ensures var e := AddCategoryEffect(db, postId, categoryId);
      && (e.result.Err? <==> Lookup(db.posts, postId).Err? || Lookup(db.categories, categoryId).Err?)
      && (e.result.Err? ==> e.result.error == NotFound && e.after == db)
      && (e.result.Ok? ==>
            && e.result.value == Link(postId, categoryId)
            && FindSome(e.after.postCategories, Pair(postId, categoryId)) == [Link(postId, categoryId)]
            && (forall l :: l in e.after.postCategories <==> l in db.postCategories || l == Link(postId, categoryId))
            && e.after.(postCategories := db.postCategories) == db
            && AddCategoryEffect(e.after, postId, categoryId) == e)
      && e.after.Valid()
  {
    LinkOnceFacts(db.postCategories, postId, categoryId);
  }

  /** remove_category_from_post: the same as removing a tag, on the post–category edges. */
  lemma RemoveCategoryFacts(db: Store, postId: int, categoryId: int)
    requires db.Valid()
    ensures var e := RemoveCategoryEffect(db, postId, categoryId);
      && (e.result.Err? <==> Lookup(db.posts, postId).Err?)
      && (e.result.Err? ==> e.result.error == NotFound && e.after == db)
      && (e.result.Ok? ==>
            && (forall l :: l in e.result.value <==> l in db.postCategories && l == Link(postId, categoryId))
            && (forall l :: l in e.after.postCategories <==> l in db.postCategories && l != Link(postId, categoryId))
            && e.after.(postCategories := db.postCategories) == db
            && RemoveCategoryEffect(e.after, postId, categoryId) == Effect(Ok([]), e.after))
      && e.after.Valid()
  {
    UnlinkFacts(db.postCategories, postId, categoryId);
  }

  /**
   * A post is created as a draft and then published: it is found published,
   * with every other field as created.
   */
  lemma CreateThenPublish(db: Store, body: PostCreateBody)
    requires db.Valid() && PostsValid(db.posts)
    requires body.status.None? && ParsePostCreate(body).Ok?
    ensures var post := ParsePostCreate(body).value;
      var created := CreatePostEffect(db, post);
      var id := created.result.value;
      var published := RewritePostEffect(created.after, id, WithStatus(Published));
      && post.status == Draft
      && published.result == Ok([Row(id, post.(status := Published))])
      && Lookup(published.after.posts, id) == Ok(Row(id, post.(status := Published)))
  {
    var post := ParsePostCreate(body).value;
    CreatePostFacts(db, post);
    var created := CreatePostEffect(db, post);
    RewritePostFacts(created.after, created.result.value, WithStatus(Published));
  }

  // ---------------------------------------------------------------- the service methods

  method CreatePost(uow: CachedUnitOfWork, post: PostFields) returns (postId: int)
    requires uow.Valid()
    modifies uow
    ensures uow.Valid() && uow.phase == Closed
    ensures Effect(Ok(postId), uow.database) == CreatePostEffect(old(uow.database), post)
  {
    var _ := uow.Enter();
    postId := uow.AddPost(post);
    var _ := uow.Exit(None, false);
  }

  /** get_post_by_id: the scope rolls back and NotFound reaches the caller when there is no such post. */
  method GetPostById(uow: CachedUnitOfWork, postId: int) returns (r: Result<Row<PostFields>>)
    requires uow.Valid()
    modifies uow
    ensures uow.Valid() && uow.phase == Closed
    ensures uow.database == old(uow.database)
    ensures r == Lookup(old(uow.database).posts, postId)
  {
    var _ := uow.Enter();
    var post := FindOne(uow.working.posts.rows, ById(postId));
    if post.None? {
      var raised := uow.Exit(Some(NotFound), false);
      return Err(raised.value);
    }
    var _ := uow.Exit(None, false);
    return Ok(post.value);
  }

  method GetPosts(uow: CachedUnitOfWork, filters: Option<PostFilter>) returns (posts: seq<Row<PostFields>>)
    requires uow.Valid()
    modifies uow
    ensures uow.Valid() && uow.phase == Closed
    ensures uow.database == old(uow.database)
    ensures posts == PostsMatching(old(uow.database), filters)
  {
    var q := if filters.None? then NoFilter else filters.value;
    var _ := uow.Enter();
    posts := FindSome(uow.working.posts.rows, Matches(q));
    var _ := uow.Exit(None, false);
  }

  method GetPostsByAuthor(uow: CachedUnitOfWork, authorId: int) returns (posts: seq<Row<PostFields>>)
    requires uow.Valid()
    modifies uow
    ensures uow.Valid() && uow.phase == Closed
    ensures uow.database == old(uow.database)
    ensures posts == PostsMatching(old(uow.database), Some(NoFilter.(authorId := Some(authorId))))
    ensures forall x :: x in posts <==> x in old(uow.database).posts.rows && x.fields.authorId == authorId
  {
    posts := GetPosts(uow, Some(NoFilter.(authorId := Some(authorId))));
  }

  method GetPublishedPosts(uow: CachedUnitOfWork) returns (posts: seq<Row<PostFields>>)
    requires uow.Valid()
    modifies uow
    ensures uow.Valid() && uow.phase == Closed
    ensures uow.database == old(uow.database)
    ensures posts == PostsMatching(old(uow.database), Some(NoFilter.(status := Some(Published))))
    ensures forall x :: x in posts <==> x in old(uow.database).posts.rows && x.fields.status == Published
  {
    posts := GetPosts(uow, Some(NoFilter.(status := Some(Published))));
  }

  /** The update scope shared by update, publish and archive. */
  method RewritePost(uow: CachedUnitOfWork, postId: int, g: PostFields -> PostFields)
    returns (r: Result<seq<Row<PostFields>>>)
    requires uow.Valid()
    modifies uow
    ensures uow.Valid() && uow.phase == Closed
    ensures Effect(r, uow.database) == RewritePostEffect(old(uow.database), postId, g)
  {
    var found := GetPostById(uow, postId);
    if found.Err? {
      return Err(found.error);
    }
    var _ := uow.Enter();
    var updated := uow.UpdatePosts(ById(postId), g);
    var _ := uow.Exit(None, false);
    return Ok(updated);
  }

  method UpdatePost(uow: CachedUnitOfWork, postId: int, postUpdate: PostUpdate)
    returns (r: Result<seq<Row<PostFields>>>)
    requires uow.Valid()
    modifies uow
    ensures uow.Valid() && uow.phase == Closed
    ensures Effect(r, uow.database) == RewritePostEffect(old(uow.database), postId, Patch(postUpdate))
  {
    r := RewritePost(uow, postId, Patch(postUpdate));
  }

  method PublishPost(uow: CachedUnitOfWork, postId: int) returns (r: Result<seq<Row<PostFields>>>)
    requires uow.Valid()
    modifies uow
    ensures uow.Valid() && uow.phase == Closed
    ensures Effect(r, uow.database) == RewritePostEffect(old(uow.database), postId, WithStatus(Published))
  {
    r := RewritePost(uow, postId, WithStatus(Published));
  }

  method ArchivePost(uow: CachedUnitOfWork, postId: int) returns (r: Result<seq<Row<PostFields>>>)
    requires uow.Valid()
    modifies uow
    ensures uow.Valid() && uow.phase == Closed
    ensures Effect(r, uow.database) == RewritePostEffect(old(uow.database), postId, WithStatus(Archived))
  {
    r := RewritePost(uow, postId, WithStatus(Archived));
  }

  method DeletePost(uow: CachedUnitOfWork, postId: int) returns (r: Result<seq<Row<PostFields>>>)
    requires uow.Valid()
    modifies uow
    ensures uow.Valid() && uow.phase == Closed
    ensures Effect(r, uow.database) == DeletePostEffect(old(uow.database), postId)
  {
    var found := GetPostById(uow, postId);
    if found.Err? {
      return Err(found.error);
    }
    var _ := uow.Enter();
    var deleted := uow.DeletePosts(ById(postId));
    var _ := uow.Exit(None, false);
    return Ok(deleted);
  }

  method AddTagToPost(uow: CachedUnitOfWork, postId: int, tagId: int) returns (r: Result<Link>)
    requires uow.Valid()
    modifies uow
    ensures uow.Valid() && uow.phase == Closed
    ensures Effect(r, uow.database) == AddTagEffect(old(uow.database), postId, tagId)
  {
    var found := GetPostById(uow, postId);
    if found.Err? {
      return Err(found.error);
    }
    var _ := uow.Enter();
    var tag := FindOne(uow.working.tags.rows, ById(tagId));
    if tag.None? {
      var raised := uow.Exit(Some(NotFound), false);
      return Err(raised.value);
    }
    var existing := FindOne(uow.working.postTags, Pair(postId, tagId));
    if existing.Some? {
      var _ := uow.Exit(None, false);
      return Ok(existing.value);
    }
    // No record for the pair exists, so the composite key cannot refuse this one.
    r := uow.AddPostTag(Link(postId, tagId));
    assert r == Ok(Link(postId, tagId));
    var _ := uow.Exit(None, false);
  }

  method RemoveTagFromPost(uow: CachedUnitOfWork, postId: int, tagId: int) returns (r: Result<seq<Link>>)
    requires uow.Valid()
    modifies uow
    ensures uow.Valid() && uow.phase == Closed
    ensures Effect(r, uow.database) == RemoveTagEffect(old(uow.database), postId, tagId)
  {
    var found := GetPostById(uow, postId);
    if found.Err? {
      return Err(found.error);
    }
    var _ := uow.Enter();
    var removed := uow.DeletePostTags(Pair(postId, tagId));
    var _ := uow.Exit(None, false);
    return Ok(removed);
  }

  method AddCategoryToPost(uow: CachedUnitOfWork, postId: int, categoryId: int) returns (r: Result<Link>)
    requires uow.Valid()
    modifies uow
    ensures uow.Valid() && uow.phase == Closed
    ensures Effect(r, uow.database) == AddCategoryEffect(old(uow.database), postId, categoryId)
  {
    var found := GetPostById(uow, postId);
    if found.Err? {
      return Err(found.error);
    }
    var _ := uow.Enter();
    var category := FindOne(uow.working.categories.rows, ById(categoryId));
    if category.None? {
      var raised := uow.Exit(Some(NotFound), false);
      return Err(raised.value);
    }
    var existing := FindOne(uow.working.postCategories, Pair(postId, categoryId));
    if existing.Some? {
      var _ := uow.Exit(None, false);
      return Ok(existing.value);
    }
    // No record for the pair exists, so the composite key cannot refuse this one.
    r := uow.AddPostCategory(Link(postId, categoryId));
    assert r == Ok(Link(postId, categoryId));
    var _ := uow.Exit(None, false);
  }

  method RemoveCategoryFromPost(uow: CachedUnitOfWork, postId: int, categoryId: int) returns (r: Result<seq<Link>>)
    requires uow.Valid()
    modifies uow
    ensures uow.Valid() && uow.phase == Closed
    ensures Effect(r, uow.database) == RemoveCategoryEffect(old(uow.database), postId, categoryId)
  {
    var found := GetPostById(uow, postId);
    if found.Err? {
      return Err(found.error);
    }
    var _ := uow.Enter();
    var removed := uow.DeletePostCategories(Pair(postId, categoryId));
    var _ := uow.Exit(None, false);
    return Ok(removed);
  }
}
