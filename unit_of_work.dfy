// The unit of work: one transactional session at a time, six repositories
// bound to it, commit on a normal exit, rollback on an exit with an exception,
// and the session closed in every case.  The services enter the same instance
// again and again, one scope after another.
module UnitOfWork {
  import opened Results
  import opened Tables
  import opened PostSchema
  import opened Database

  /** The repository classes a scope binds, one per table. */
  datatype Model = PostModel | CommentModel | TagModel | PostTagModel | CategoryModel | PostCategoryModel

  /** What `get_repository` builds: a repository for one table over a session, with a cache handle. */
  datatype Repository = Unbound | Repository(model: Model, session: nat, cache: nat)

  datatype Phase = NotStarted | Active | Closed

  datatype Action = BeginCall | CommitCall | RollbackCall | CloseCall

  /** One call made on a session, tagged with the session it was made on. */
  datatype Event = Event(session: nat, action: Action)

  /**
   * The abstract base class.  Its rollback is left to subclasses, so the model
   * records only that it was called; entering yields the unit of work itself
   * and the default exit rolls back, whatever happened in the scope.
   */
  class AbstractUnitOfWork {
    var calls: seq<Action>

    constructor ()
      ensures calls == []
    {
      calls := [];
    }

    method Enter() returns (self: AbstractUnitOfWork)
      ensures self == this
    {
      self := this;
    }

    method Exit(exc: Option<Error>)
      modifies this
      ensures calls == old(calls) + [RollbackCall]
    {
      calls := calls + [RollbackCall];
    }
  }

  class CachedUnitOfWork {
    /** The cache client made once by the constructor and handed to every repository. */
    const redis: nat
    /** The committed state of the store the session factory connects to. */
    var database: Store
    /** The current session's view: the committed state plus this transaction's writes. */
    var working: Store
    var phase: Phase
    /** Sessions obtained so far; the current one is numbered `session`. */
    var session: nat
    /** Every begin, commit, rollback and close, in order. */
    var log: seq<Event>
    var posts: Repository
    var comments: Repository
    var tags: Repository
    var postTags: Repository
    var categories: Repository
    var postCategories: Repository

    function Binding(m: Model): Repository
      reads this
    {
      match m
      case PostModel => posts
      case CommentModel => comments
      case TagModel => tags
      case PostTagModel => postTags
      case CategoryModel => categories
      case PostCategoryModel => postCategories
    }

    /** `get_repository`: a repository for `m` over the current session and the shared cache handle. */
    function GetRepository(m: Model): (r: Repository)
      reads this
      ensures r.Repository? && r.model == m
    {
      Repository(m, session, redis)
    }

    /**
     * Before the first enter nothing is bound; from then on all six
     * repositories are bound to the latest session and to the one cache
     * handle, and the log speaks only of sessions obtained so far.
     */
    ghost predicate Valid()
      reads this
    {
      && (phase == NotStarted <==> session == 0)
      && (phase == NotStarted ==> forall m :: Binding(m) == Unbound)
      && (phase != NotStarted ==> forall m :: Binding(m) == Repository(m, session, redis))
      && (forall k :: 0 <= k < |log| ==> 1 <= log[k].session <= session)
    }

    constructor (db: Store, cache: nat)
      ensures Valid() && phase == NotStarted && log == []
      ensures database == db && working == db && redis == cache
    {
      redis := cache;
      database, working := db, db;
      phase, session, log := NotStarted, 0, [];
      posts, comments, tags := Unbound, Unbound, Unbound;
      postTags, categories, postCategories := Unbound, Unbound, Unbound;
    }

    /**
     * `__aenter__`: a new session, all six repositories bound to it and to the
     * shared cache, and the unit of work itself as the value of the scope.
     */
    method Enter() returns (self: CachedUnitOfWork)
      requires Valid()
      modifies this
      ensures Valid() && self == this && phase == Active
      ensures session == old(session) + 1
      ensures forall k :: 0 <= k < |old(log)| ==> old(log)[k].session != session
      ensures forall m :: Binding(m) == Repository(m, session, redis)
      ensures database == old(database) && working == database
      ensures log == old(log) + [Event(session, BeginCall)]
    {
      session := session + 1;
      working, log := database, log + [Event(session, BeginCall)];
      posts, comments, tags := GetRepository(PostModel), GetRepository(CommentModel), GetRepository(TagModel);
      postTags, categories, postCategories :=
        GetRepository(PostTagModel), GetRepository(CategoryModel), GetRepository(PostCategoryModel);
      phase := Active;
      self := this;
      forall m ensures Binding(m) == Repository(m, session, redis) {
        match m
        case PostModel =>
        case CommentModel =>
        case TagModel =>
        case PostTagModel =>
        case CategoryModel =>
        case PostCategoryModel =>
      }
      forall k | 0 <= k < |old(log)| ensures old(log)[k].session != session {
        assert old(log)[k].session <= old(session);
      }
      forall k | 0 <= k < |log| ensures 1 <= log[k].session <= session {
        if k < |old(log)| {
          assert log[k] == old(log)[k];
        }
      }
    }

    /** `commit`: the session's writes become the committed state, unless the commit raises. */
    method Commit(fault: bool) returns (raised: Option<Error>)
      requires Valid() && phase == Active
      modifies this`database, this`log
      ensures Valid()
      ensures database == (if fault then old(database) else working)
      ensures log == old(log) + [Event(session, CommitCall)]
      ensures raised == (if fault then Some(StorageFault) else None)
    {
      log := log + [Event(session, CommitCall)];
      if fault {
        raised := Some(StorageFault);
      } else {
        database := working;
        raised := None;
      }
    }

    /** `rollback`: the session's writes are discarded; the committed state is untouched. */
    method Rollback(fault: bool) returns (raised: Option<Error>)
      requires Valid() && phase == Active
      modifies this`working, this`log
      ensures Valid()
      ensures working == database
      ensures log == old(log) + [Event(session, RollbackCall)]
      ensures raised == (if fault then Some(StorageFault) else None)
    {
      log := log + [Event(session, RollbackCall)];
      working := database;
      raised := if fault then Some(StorageFault) else None;
    }

    /** `session.close()`: whatever was not committed is gone. */
    method Close()
      requires Valid() && phase == Active
      modifies this`working, this`log, this`phase
      ensures Valid() && phase == Closed
      ensures working == database
      ensures log == old(log) + [Event(session, CloseCall)]
    {
      log := log + [Event(session, CloseCall)];
      working := database;
      phase := Closed;
    }

    /**
     * `__aexit__`: commit when the scope ended normally, roll back when it
     * ended with `exc`, and close the session either way, even when the commit
     * or rollback itself raises (`fault`).  Nothing is suppressed: the
     * exception that leaves the scope is the fault if there was one, else `exc`.
     */
    method Exit(exc: Option<Error>, fault: bool) returns (raised: Option<Error>)
      requires Valid() && phase == Active
      modifies this`database, this`working, this`log, this`phase
      ensures Valid() && phase == Closed
      ensures exc.None? ==> log == old(log) + [Event(session, CommitCall), Event(session, CloseCall)]
      ensures exc.Some? ==> log == old(log) + [Event(session, RollbackCall), Event(session, CloseCall)]
      ensures database == (if exc.None? && !fault then old(working) else old(database))
      ensures working == database
      ensures raised == (if fault then Some(StorageFault) else exc)
    {
      var failure: Option<Error>;
      if exc.Some? {
        failure := Rollback(fault);
      } else {
        failure := Commit(fault);
      }
      Close();
      raised := if failure.Some? then failure else exc;
    }

    // ------------------------------------------------------------ repository writes
    // Each write changes the session's view of one table and nothing else.

    method AddPost(f: PostFields) returns (id: int)
      requires Valid() && phase == Active
      modifies this`working
      ensures Valid()
      ensures id == old(working).posts.nextId
      ensures working == old(working).(posts := Insert(old(working).posts, f))
    {
      id := working.posts.nextId;
      working := working.(posts := Insert(working.posts, f));
    }

    method UpdatePosts(p: Row<PostFields> -> bool, g: PostFields -> PostFields) returns (updated: seq<Row<PostFields>>)
      requires Valid() && phase == Active
      modifies this`working
      ensures Valid()
      ensures updated == Updated(old(working).posts, p, g)
      ensures working == old(working).(posts := UpdateWhere(old(working).posts, p, g))
    {
      updated := Updated(working.posts, p, g);
      working := working.(posts := UpdateWhere(working.posts, p, g));
    }

    method DeletePosts(p: Row<PostFields> -> bool) returns (deleted: seq<Row<PostFields>>)
      requires Valid() && phase == Active
      modifies this`working
      ensures Valid()
      ensures deleted == FindSome(old(working).posts.rows, p)
      ensures working == old(working).(posts := DeleteWhere(old(working).posts, p))
    {
      deleted := FindSome(working.posts.rows, p);
      working := working.(posts := DeleteWhere(working.posts, p));
    }

    method AddComment(f: CommentFields) returns (id: int)
      requires Valid() && phase == Active
      modifies this`working
      ensures Valid()
      ensures id == old(working).comments.nextId
      ensures working == old(working).(comments := Insert(old(working).comments, f))
    {
      id := working.comments.nextId;
      working := working.(comments := Insert(working.comments, f));
    }

    method UpdateComments(p: Row<CommentFields> -> bool, g: CommentFields -> CommentFields)
      returns (updated: seq<Row<CommentFields>>)
      requires Valid() && phase == Active
      modifies this`working
      ensures Valid()
      ensures updated == Updated(old(working).comments, p, g)
      ensures working == old(working).(comments := UpdateWhere(old(working).comments, p, g))
    {
      updated := Updated(working.comments, p, g);
      working := working.(comments := UpdateWhere(working.comments, p, g));
    }

    method DeleteComments(p: Row<CommentFields> -> bool) returns (deleted: seq<Row<CommentFields>>)
      requires Valid() && phase == Active
      modifies this`working
      ensures Valid()
      ensures deleted == FindSome(old(working).comments.rows, p)
      ensures working == old(working).(comments := DeleteWhere(old(working).comments, p))
    {
      deleted := FindSome(working.comments.rows, p);
      working := working.(comments := DeleteWhere(working.comments, p));
    }

    method AddTag(f: TagFields) returns (id: int)
      requires Valid() && phase == Active
      modifies this`working
      ensures Valid()
      ensures id == old(working).tags.nextId
      ensures working == old(working).(tags := Insert(old(working).tags, f))
    {
      id := working.tags.nextId;
      working := working.(tags := Insert(working.tags, f));
    }

    method UpdateTags(p: Row<TagFields> -> bool, g: TagFields -> TagFields) returns (updated: seq<Row<TagFields>>)
      requires Valid() && phase == Active
      modifies this`working
      ensures Valid()
      ensures updated == Updated(old(working).tags, p, g)
      ensures working == old(working).(tags := UpdateWhere(old(working).tags, p, g))
    {
      updated := Updated(working.tags, p, g);
      working := working.(tags := UpdateWhere(working.tags, p, g));
    }

    method DeleteTags(p: Row<TagFields> -> bool) returns (deleted: seq<Row<TagFields>>)
      requires Valid() && phase == Active
      modifies this`working
      ensures Valid()
      ensures deleted == FindSome(old(working).tags.rows, p)
      ensures working == old(working).(tags := DeleteWhere(old(working).tags, p))
    {
      deleted := FindSome(working.tags.rows, p);
      working := working.(tags := DeleteWhere(working.tags, p));
    }

    /** The store refuses a category whose name is taken (the unique constraint on categories.name). */
    method AddCategory(f: CategoryFields) returns (r: Result<int>)
      requires Valid() && phase == Active
      modifies this`working
      ensures Valid()
      ensures UniqueCategoryNames(Insert(old(working).categories, f).rows) ==>
                r == Ok(old(working).categories.nextId)
                && working == old(working).(categories := Insert(old(working).categories, f))
      ensures !UniqueCategoryNames(Insert(old(working).categories, f).rows) ==>
                r == Err(Integrity) && working == old(working)
    {
      var t := Insert(working.categories, f);
      if UniqueCategoryNames(t.rows) {
        r := Ok(working.categories.nextId);
        working := working.(categories := t);
      } else {
        r := Err(Integrity);
      }
    }

    /** The store refuses an update after which two categories would share a name. */
    method UpdateCategories(p: Row<CategoryFields> -> bool, g: CategoryFields -> CategoryFields)
      returns (r: Result<seq<Row<CategoryFields>>>)
      requires Valid() && phase == Active
      modifies this`working
      ensures Valid()
      ensures UniqueCategoryNames(UpdateWhere(old(working).categories, p, g).rows) ==>
                r == Ok(Updated(old(working).categories, p, g))
                && working == old(working).(categories := UpdateWhere(old(working).categories, p, g))
      ensures !UniqueCategoryNames(UpdateWhere(old(working).categories, p, g).rows) ==>
                r == Err(Integrity) && working == old(working)
    {
      var t := UpdateWhere(working.categories, p, g);
      if UniqueCategoryNames(t.rows) {
        r := Ok(Updated(working.categories, p, g));
        working := working.(categories := t);
      } else {
        r := Err(Integrity);
      }
    }

    method DeleteCategories(p: Row<CategoryFields> -> bool) returns (deleted: seq<Row<CategoryFields>>)
      requires Valid() && phase == Active
      modifies this`working
      ensures Valid()
      ensures deleted == FindSome(old(working).categories.rows, p)
      ensures working == old(working).(categories := DeleteWhere(old(working).categories, p))
    {
      deleted := FindSome(working.categories.rows, p);
      working := working.(categories := DeleteWhere(working.categories, p));
    }

    /** The store refuses a second record for the same (post_id, tag_id): the composite primary key. */
    method AddPostTag(l: Link) returns (r: Result<Link>)
      requires Valid() && phase == Active
      modifies this`working
      ensures Valid()
      ensures l !in old(working).postTags ==>
                r == Ok(l) && working == old(working).(postTags := old(working).postTags + [l])
      ensures l in old(working).postTags ==> r == Err(Integrity) && working == old(working)
    {
      if l in working.postTags {
        r := Err(Integrity);
      } else {
        r := Ok(l);
        working := working.(postTags := working.postTags + [l]);
      }
    }

    method DeletePostTags(p: Link -> bool) returns (deleted: seq<Link>)
      requires Valid() && phase == Active
      modifies this`working
      ensures Valid()
      ensures deleted == FindSome(old(working).postTags, p)
      ensures working == old(working).(postTags := FindSome(old(working).postTags, Not(p)))
    {
      deleted := FindSome(working.postTags, p);
      working := working.(postTags := FindSome(working.postTags, Not(p)));
    }

    /** The store refuses a second record for the same (post_id, category_id). */
    method AddPostCategory(l: Link) returns (r: Result<Link>)
      requires Valid() && phase == Active
      modifies this`working
      ensures Valid()
      ensures l !in old(working).postCategories ==>
                r == Ok(l) && working == old(working).(postCategories := old(working).postCategories + [l])
      ensures l in old(working).postCategories ==> r == Err(Integrity) && working == old(working)
    {
      if l in working.postCategories {
        r := Err(Integrity);
      } else {
        r := Ok(l);
        working := working.(postCategories := working.postCategories + [l]);
      }
    }

    method DeletePostCategories(p: Link -> bool) returns (deleted: seq<Link>)
      requires Valid() && phase == Active
      modifies this`working
      ensures Valid()
      ensures deleted == FindSome(old(working).postCategories, p)
      ensures working == old(working).(postCategories := FindSome(old(working).postCategories, Not(p)))
    {
      deleted := FindSome(working.postCategories, p);
      working := working.(postCategories := FindSome(working.postCategories, Not(p)));
    }
  }

  /**
   * A scope that writes and then raises leaves no trace in the committed
   * store, and the exception reaches the caller unchanged.
   */
  method AbortedScopeLeavesNoTrace(uow: CachedUnitOfWork, f: PostFields, exc: Error) returns (raised: Option<Error>)
    requires uow.Valid()
    modifies uow
    ensures uow.Valid() && uow.phase == Closed
    ensures uow.database == old(uow.database)
    ensures raised == Some(exc)
  {
    var _ := uow.Enter();
    var _ := uow.AddPost(f);
    raised := uow.Exit(Some(exc), false);
  }

  /** A scope that writes and ends normally commits exactly what it wrote. */
  method CommittedScopeKeepsWrites(uow: CachedUnitOfWork, f: PostFields) returns (id: int)
    requires uow.Valid()
    modifies uow
    ensures uow.Valid() && uow.phase == Closed
    ensures id == old(uow.database).posts.nextId
    ensures uow.database == old(uow.database).(posts := Insert(old(uow.database).posts, f))
  {
    var _ := uow.Enter();
    id := uow.AddPost(f);
    var _ := uow.Exit(None, false);
  }
}
