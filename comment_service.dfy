// CommentService: comments on posts, replies to comments on the same post,
// and moderation.  Methods are proved equal to functions on the committed
// store, about which the lemmas speak.
module CommentService {
  import opened Results
  import opened Tables
  import opened Database
  import opened UnitOfWork

  /** A comment as created; the store fills in `is_approved`, true by default. */
  datatype CommentCreate = CommentCreate(content: string, postId: int, authorId: int, parentId: Option<int>)

  /** A comment update: only the content can be set. */
  datatype CommentUpdate = CommentUpdate(content: Option<string>)

  /** The stored fields of a new comment: approved unless moderated later. */
  function NewComment(c: CommentCreate): CommentFields {
    CommentFields(c.content, c.postId, c.authorId, c.parentId, true)
  }

  /** Python truthiness of an optional id: present and not zero. */
  predicate ParentGiven(parentId: Option<int>) {
    parentId.Some? && parentId.value != 0
  }

  function PatchComment(u: CommentUpdate): CommentFields -> CommentFields {
    (f: CommentFields) => if u.content.Some? then f.(content := u.content.value) else f
  }

  function SetApproved(approved: bool): CommentFields -> CommentFields {
    (f: CommentFields) => f.(isApproved := approved)
  }

  function OnPost(postId: int): Row<CommentFields> -> bool {
    (r: Row<CommentFields>) => r.fields.postId == postId
  }

  function ReplyTo(commentId: int): Row<CommentFields> -> bool {
    (r: Row<CommentFields>) => r.fields.parentId == Some(commentId)
  }

  // ---------------------------------------------------------------- the functions on the store

  /**
   * create_comment: 404 exactly when the post, or a given parent, is missing;
   * 400 exactly when the parent is on another post; accepted exactly when the
   * post exists and the parent is falsy (none or 0) or a comment on the same
   * post; a refusal changes nothing.
   */
  function CreateCommentEffect(db: Store, c: CommentCreate): (e: Effect<int>)
    ensures e.result == Err(NotFound) <==>
              Lookup(db.posts, c.postId).Err? || (ParentGiven(c.parentId) && Lookup(db.comments, c.parentId.value).Err?)
    ensures e.result == Err(BadRequest) <==>
              && Lookup(db.posts, c.postId).Ok? && ParentGiven(c.parentId)
              && Lookup(db.comments, c.parentId.value).Ok?
              && Lookup(db.comments, c.parentId.value).value.fields.postId != c.postId
    ensures e.result.Ok? <==>
              && Lookup(db.posts, c.postId).Ok?
              && (|| !ParentGiven(c.parentId)
                  || (&& Lookup(db.comments, c.parentId.value).Ok?
                      && Lookup(db.comments, c.parentId.value).value.fields.postId == c.postId))
    ensures e.result.Err? ==> e.after == db
  {
    if Lookup(db.posts, c.postId).Err? then Effect(Err(NotFound), db)
    else if ParentGiven(c.parentId) && Lookup(db.comments, c.parentId.value).Err? then Effect(Err(NotFound), db)
    else if ParentGiven(c.parentId) && Lookup(db.comments, c.parentId.value).value.fields.postId != c.postId then
      Effect(Err(BadRequest), db)
    else Effect(Ok(db.comments.nextId), db.(comments := Insert(db.comments, NewComment(c))))
  }

  /** get_comments_by_post: exactly the comments on that post. */
  function CommentsByPost(db: Store, postId: int): (r: seq<Row<CommentFields>>)
    ensures forall x :: x in r <==> x in db.comments.rows && x.fields.postId == postId
  {
    FindSome(db.comments.rows, OnPost(postId))
  }

  /** get_replies: exactly the comments whose parent is that comment. */
  function Replies(db: Store, commentId: int): (r: seq<Row<CommentFields>>)
    ensures forall x :: x in r <==> x in db.comments.rows && x.fields.parentId == Some(commentId)
  {
    FindSome(db.comments.rows, ReplyTo(commentId))
  }

  /** The shape shared by update, approve and reject: 404 for a missing comment, else rewrite it. */
  function RewriteCommentEffect(db: Store, commentId: int, g: CommentFields -> CommentFields)
    : Effect<seq<Row<CommentFields>>>
  {
    if Lookup(db.comments, commentId).Err? then Effect(Err(NotFound), db)
    else Effect(Ok(Updated(db.comments, ById(commentId), g)),
                db.(comments := UpdateWhere(db.comments, ById(commentId), g)))
  }

  function DeleteCommentEffect(db: Store, commentId: int): Effect<seq<Row<CommentFields>>> {
    if Lookup(db.comments, commentId).Err? then Effect(Err(NotFound), db)
    else Effect(Ok(FindSome(db.comments.rows, ById(commentId))),
                db.(comments := DeleteWhere(db.comments, ById(commentId))))
  }

  // ---------------------------------------------------------------- the reply invariant

  /** A comment whose parent passes the checks keeps every reply on its parent's post. */
  lemma InsertKeepsRepliesOnPost(c: Table<CommentFields>, f: CommentFields)
    requires WellFormed(c) && RepliesStayOnPost(c)
    requires f.parentId.Some? ==> f.parentId.value < c.nextId
    requires f.parentId.Some? && Lookup(c, f.parentId.value).Ok? ==> Lookup(c, f.parentId.value).value.fields.postId == f.postId
    ensures RepliesStayOnPost(Insert(c, f))
  {
    var c' := Insert(c, f);
    var n := |c.rows|;
    forall i, j | 0 <= i < |c'.rows| && 0 <= j < |c'.rows| && c'.rows[i].fields.parentId == Some(c'.rows[j].id)
      ensures c'.rows[i].fields.postId == c'.rows[j].fields.postId
    {
      if i == n && j < n {
        LookupIsMembership(c, c.rows[j].id, c.rows[j]);
      } else if i < n && j < n {
        assert c'.rows[i] == c.rows[i] && c'.rows[j] == c.rows[j];
      }
    }
  }

  /** Rewriting fields other than the post and the parent keeps every reply on its parent's post. */
  lemma RewriteKeepsRepliesOnPost(c: Table<CommentFields>, p: Row<CommentFields> -> bool, g: CommentFields -> CommentFields)
    requires RepliesStayOnPost(c)
    requires forall f :: g(f).postId == f.postId && g(f).parentId == f.parentId
    ensures RepliesStayOnPost(UpdateWhere(c, p, g))
  {
  }

  /** Dropping comments keeps every reply on its parent's post: ids are never handed out again. */
  lemma SelectionKeepsRepliesOnPost(c: Table<CommentFields>, p: Row<CommentFields> -> bool)
    requires RepliesStayOnPost(c)
    ensures RepliesStayOnPost(Table(FindSome(c.rows, p), c.nextId))
  {
    var rows := FindSome(c.rows, p);
    forall i, j | 0 <= i < |rows| && 0 <= j < |rows| && rows[i].fields.parentId == Some(rows[j].id)
      ensures rows[i].fields.postId == rows[j].fields.postId
    {
      assert rows[i] in c.rows && rows[j] in c.rows;
      var a :| 0 <= a < |c.rows| && c.rows[a] == rows[i];
      var b :| 0 <= b < |c.rows| && c.rows[b] == rows[j];
    }
    forall i | 0 <= i < |rows| && rows[i].fields.parentId.Some? ensures rows[i].fields.parentId.value < c.nextId {
      assert rows[i] in c.rows;
    }
  }

  // ---------------------------------------------------------------- what they promise

  /**
   * create_comment, accepted: the comment is found approved under the next
   * id, every other comment is as it was, nothing else changes, and the
   * store, with every reply on its parent's post, stays valid.
   */
  lemma CreateCommentFacts(db: Store, c: CommentCreate)
    requires db.Valid()
    ensures var e := CreateCommentEffect(db, c);
      && (e.result.Ok? ==>
            && Lookup(e.after.comments, e.result.value) == Ok(Row(e.result.value, NewComment(c)))
            && Lookup(e.after.comments, e.result.value).value.fields.isApproved
            && (forall id :: id != e.result.value ==> Lookup(e.after.comments, id) == Lookup(db.comments, id))
            && e.after.(comments := db.comments) == db)
      && e.after.Valid()
  {
    var e := CreateCommentEffect(db, c);
    InsertFacts(db.comments, NewComment(c));
    if e.result.Ok? {
      if c.parentId.Some? && Lookup(db.comments, c.parentId.value).Ok? {
        assert c.parentId.value < db.comments.nextId;
      }
      InsertKeepsRepliesOnPost(db.comments, NewComment(c));
    }
  }

  /**
   * A comment and a reply to it, created on a valid store: the replies of the
   * first comment are exactly the second, since no earlier comment can name
   * an id not yet handed out.
   */
  lemma ReplyToNewComment(db: Store, postId: int, authorId: int, text: string, answer: string)
    requires db.Valid() && Lookup(db.posts, postId).Ok?
    ensures var first := CreateCommentEffect(db, CommentCreate(text, postId, authorId, None));
      var c1 := first.result.value;
      var second := CreateCommentEffect(first.after, CommentCreate(answer, postId, authorId, Some(c1)));
      && first.result.Ok? && second.result.Ok?
      && Replies(second.after, c1) == [Row(second.result.value, NewComment(CommentCreate(answer, postId, authorId, Some(c1))))]
  {
    var c1 := db.comments.nextId;
    var opening, reply := CommentCreate(text, postId, authorId, None), CommentCreate(answer, postId, authorId, Some(c1));
    var first := CreateCommentEffect(db, opening);
    assert first.result == Ok(c1);
    var comments := first.after.comments;
    InsertFacts(db.comments, NewComment(opening));
    assert Lookup(comments, c1) == Ok(Row(c1, NewComment(opening)));
    var second := CreateCommentEffect(first.after, reply);
    assert second.result == Ok(comments.nextId);
    forall x | x in comments.rows ensures !ReplyTo(c1)(x) {
      var k :| 0 <= k < |comments.rows| && comments.rows[k] == x;
      if k < |db.comments.rows| {
        assert x == db.comments.rows[k];
      }
    }
    NothingSelected(comments.rows, ReplyTo(c1));
    FindSomeSnoc(comments.rows, Row(comments.nextId, NewComment(reply)), ReplyTo(c1));
  }

  /** A reply to an existing comment is on that comment's post. */
  lemma RepliesAreOnParentPost(db: Store, commentId: int)
    requires db.Valid() && Lookup(db.comments, commentId).Ok?
    ensures forall x :: x in Replies(db, commentId) ==> x.fields.postId == Lookup(db.comments, commentId).value.fields.postId
  {
    var rows := db.comments.rows;
    var parent := Lookup(db.comments, commentId).value;
    forall x | x in Replies(db, commentId) ensures x.fields.postId == parent.fields.postId {
      var i :| 0 <= i < |rows| && rows[i] == x;
      var j :| 0 <= j < |rows| && rows[j] == parent;
    }
  }

  /**
   * Rewriting a comment: NotFound exactly when no comment has the id, and
   * then nothing changes; otherwise the call returns just that comment as
   * rewritten, every other comment and table is as it was, and the store
   * stays valid as long as the rewrite keeps the post and the parent.
   */
  lemma RewriteCommentFacts(db: Store, commentId: int, g: CommentFields -> CommentFields)
    requires db.Valid()
    requires forall f :: g(f).postId == f.postId && g(f).parentId == f.parentId
    ensures var e := RewriteCommentEffect(db, commentId, g);
      && (e.result.Err? <==> Lookup(db.comments, commentId).Err?)
      && (e.result.Err? ==> e.result.error == NotFound && e.after == db)
      && (e.result.Ok? ==>
            var before := Lookup(db.comments, commentId).value;
            && e.result.value == [Row(commentId, g(before.fields))]
            && Lookup(e.after.comments, commentId) == Ok(Row(commentId, g(before.fields)))
            && (forall id :: id != commentId ==> Lookup(e.after.comments, id) == Lookup(db.comments, id))
            && e.after.(comments := db.comments) == db)
      && e.after.Valid()
  {
    UpdateById(db.comments, commentId, g);
    RewriteKeepsRepliesOnPost(db.comments, ById(commentId), g);
  }

  /** approve_comment and reject_comment: exactly `is_approved` changes, to the given value. */
  lemma ModerateFacts(db: Store, commentId: int, approved: bool)
    requires db.Valid()
    ensures var e := RewriteCommentEffect(db, commentId, SetApproved(approved));
      && (e.result.Err? <==> Lookup(db.comments, commentId).Err?)
      && (e.result.Ok? ==>
            Lookup(e.after.comments, commentId)
              == Ok(Row(commentId, Lookup(db.comments, commentId).value.fields.(isApproved := approved))))
      && e.after.Valid()
  {
    RewriteCommentFacts(db, commentId, SetApproved(approved));
  }

  /** update_comment: only the content changes, and only when the update sets it. */
  lemma UpdateCommentFacts(db: Store, commentId: int, u: CommentUpdate)
    requires db.Valid()
    ensures var e := RewriteCommentEffect(db, commentId, PatchComment(u));
      && (e.result.Err? <==> Lookup(db.comments, commentId).Err?)
      && (e.result.Ok? ==>
            var before := Lookup(db.comments, commentId).value.fields;
            Lookup(e.after.comments, commentId)
              == Ok(Row(commentId, if u.content.Some? then before.(content := u.content.value) else before)))
      && e.after.Valid()
  {
    RewriteCommentFacts(db, commentId, PatchComment(u));
  }

  /** delete_comment: 404 exactly when missing; otherwise only that comment goes. */
  lemma DeleteCommentFacts(db: Store, commentId: int)
    requires db.Valid()
    ensures var e := DeleteCommentEffect(db, commentId);
      && (e.result.Err? <==> Lookup(db.comments, commentId).Err?)
      && (e.result.Err? ==> e.result.error == NotFound && e.after == db)
      && (e.result.Ok? ==>
            && e.result.value == [Lookup(db.comments, commentId).value]
            && Lookup(e.after.comments, commentId).Err?
            && (forall id :: id != commentId ==> Lookup(e.after.comments, id) == Lookup(db.comments, id))
            && e.after.(comments := db.comments) == db)
      && e.after.Valid()
  {
    DeleteByIdFacts(db.comments, commentId);
    SelectionKeepsRepliesOnPost(db.comments, Not(ById(commentId)));
  }

  // ---------------------------------------------------------------- the service methods

  method CreateComment(uow: CachedUnitOfWork, comment: CommentCreate) returns (r: Result<int>)
    requires uow.Valid()
    modifies uow
    ensures uow.Valid() && uow.phase == Closed
    ensures Effect(r, uow.database) == CreateCommentEffect(old(uow.database), comment)
  {
    var _ := uow.Enter();
    var post := FindOne(uow.working.posts.rows, ById(comment.postId));
    if post.None? {
      var raised := uow.Exit(Some(NotFound), false);
      return Err(raised.value);
    }
    if ParentGiven(comment.parentId) {
      var parent := FindOne(uow.working.comments.rows, ById(comment.parentId.value));
      if parent.None? {
        var raised := uow.Exit(Some(NotFound), false);
        return Err(raised.value);
      }
      if parent.value.fields.postId != comment.postId {
        var raised := uow.Exit(Some(BadRequest), false);
        return Err(raised.value);
      }
    }
    var commentId := uow.AddComment(NewComment(comment));
    var _ := uow.Exit(None, false);
    return Ok(commentId);
  }

  method GetCommentById(uow: CachedUnitOfWork, commentId: int) returns (r: Result<Row<CommentFields>>)
    requires uow.Valid()
    modifies uow
    ensures uow.Valid() && uow.phase == Closed
    ensures uow.database == old(uow.database)
    ensures r == Lookup(old(uow.database).comments, commentId)
  {
    var _ := uow.Enter();
    var comment := FindOne(uow.working.comments.rows, ById(commentId));
    if comment.None? {
      var raised := uow.Exit(Some(NotFound), false);
      return Err(raised.value);
    }
    var _ := uow.Exit(None, false);
    return Ok(comment.value);
  }

  method GetCommentsByPost(uow: CachedUnitOfWork, postId: int) returns (comments: seq<Row<CommentFields>>)
    requires uow.Valid()
    modifies uow
    ensures uow.Valid() && uow.phase == Closed
    ensures uow.database == old(uow.database)
    ensures comments == CommentsByPost(old(uow.database), postId)
  {
    var _ := uow.Enter();
    comments := FindSome(uow.working.comments.rows, OnPost(postId));
    var _ := uow.Exit(None, false);
  }

  method GetReplies(uow: CachedUnitOfWork, commentId: int) returns (replies: seq<Row<CommentFields>>)
    requires uow.Valid()
    modifies uow
    ensures uow.Valid() && uow.phase == Closed
    ensures uow.database == old(uow.database)
    ensures replies == Replies(old(uow.database), commentId)
  {
    var _ := uow.Enter();
    replies := FindSome(uow.working.comments.rows, ReplyTo(commentId));
    var _ := uow.Exit(None, false);
  }

  /** The update scope shared by update, approve and reject. */
  method RewriteComment(uow: CachedUnitOfWork, commentId: int, g: CommentFields -> CommentFields)
    returns (r: Result<seq<Row<CommentFields>>>)
    requires uow.Valid()
    modifies uow
    ensures uow.Valid() && uow.phase == Closed
    ensures Effect(r, uow.database) == RewriteCommentEffect(old(uow.database), commentId, g)
  {
    var found := GetCommentById(uow, commentId);
    if found.Err? {
      return Err(found.error);
    }
    var _ := uow.Enter();
    var updated := uow.UpdateComments(ById(commentId), g);
    var _ := uow.Exit(None, false);
    return Ok(updated);
  }

  method UpdateComment(uow: CachedUnitOfWork, commentId: int, commentUpdate: CommentUpdate)
    returns (r: Result<seq<Row<CommentFields>>>)
    requires uow.Valid()
    modifies uow
    ensures uow.Valid() && uow.phase == Closed
    ensures Effect(r, uow.database) == RewriteCommentEffect(old(uow.database), commentId, PatchComment(commentUpdate))
  {
    r := RewriteComment(uow, commentId, PatchComment(commentUpdate));
  }

  method ApproveComment(uow: CachedUnitOfWork, commentId: int) returns (r: Result<seq<Row<CommentFields>>>)
    requires uow.Valid()
    modifies uow
    ensures uow.Valid() && uow.phase == Closed
    ensures Effect(r, uow.database) == RewriteCommentEffect(old(uow.database), commentId, SetApproved(true))
  {
    r := RewriteComment(uow, commentId, SetApproved(true));
  }

  method RejectComment(uow: CachedUnitOfWork, commentId: int) returns (r: Result<seq<Row<CommentFields>>>)
    requires uow.Valid()
    modifies uow
    ensures uow.Valid() && uow.phase == Closed
    ensures Effect(r, uow.database) == RewriteCommentEffect(old(uow.database), commentId, SetApproved(false))
  {
    r := RewriteComment(uow, commentId, SetApproved(false));
  }

  method DeleteComment(uow: CachedUnitOfWork, commentId: int) returns (r: Result<seq<Row<CommentFields>>>)
    requires uow.Valid()
    modifies uow
    ensures uow.Valid() && uow.phase == Closed
    ensures Effect(r, uow.database) == DeleteCommentEffect(old(uow.database), commentId)
  {
    var found := GetCommentById(uow, commentId);
    if found.Err? {
      return Err(found.error);
    }
    var _ := uow.Enter();
    var deleted := uow.DeleteComments(ById(commentId));
    var _ := uow.Exit(None, false);
    return Ok(deleted);
  }
}
