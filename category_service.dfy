// CategoryService: categories with a unique name, their lookups, and the
// posts reached through the post–category edges.  Methods are proved equal to
// functions on the committed store, about which the lemmas speak.
module CategoryService {
  import opened Results
  import opened Tables
  import opened PostSchema
  import opened Database
  import opened UnitOfWork

  /** A category update: `Some` marks a field the request sets. */
  datatype CategoryUpdate = CategoryUpdate(name: Option<string>, description: Option<Option<string>>)

  function PatchCategory(u: CategoryUpdate): CategoryFields -> CategoryFields {
    (f: CategoryFields) =>
      CategoryFields(
        if u.name.Some? then u.name.value else f.name,
        if u.description.Some? then u.description.value else f.description)
  }

  /** One entry of `get_categories_with_posts_count`. */
  datatype CategoryWithCount = CategoryWithCount(id: int, name: string, description: Option<string>, postsCount: nat)

  // ---------------------------------------------------------------- the functions on the store

  /** get_category_by_name: the category with that name, or None; it never raises. */
  function CategoryByName(db: Store, name: string): (r: Option<Row<CategoryFields>>)
    ensures r.None? <==> forall x :: x in db.categories.rows ==> x.fields.name != name
    ensures r.Some? ==> r.value in db.categories.rows && r.value.fields.name == name
  {
    FindOne(db.categories.rows, CategoryNamed(name))
  }

  /** create_category: 409 for a taken name; the unique constraint backs the check up. */
  function CreateCategoryEffect(db: Store, category: CategoryFields): Effect<int> {
    if CategoryByName(db, category.name).Some? then Effect(Err(Conflict), db)
    else if !UniqueCategoryNames(Insert(db.categories, category).rows) then Effect(Err(Integrity), db)
    else Effect(Ok(db.categories.nextId), db.(categories := Insert(db.categories, category)))
  }

  /** A truthy new name that another category (a different id) already has. */
  predicate NameTakenByOther(db: Store, categoryId: int, name: Option<string>) {
    Truthy(name) &&
    match CategoryByName(db, name.value)
    case Some(existing) => existing.id != categoryId
    case None => false
  }

  /**
   * update_category: 404, then 409, then the update; the unique constraint
   * on names refuses the write when the check above let a duplicate through.
   */
  function UpdateCategoryEffect(db: Store, categoryId: int, u: CategoryUpdate): Effect<seq<Row<CategoryFields>>> {
    if Lookup(db.categories, categoryId).Err? then Effect(Err(NotFound), db)
    else if NameTakenByOther(db, categoryId, u.name) then Effect(Err(Conflict), db)
    else
      var t := UpdateWhere(db.categories, ById(categoryId), PatchCategory(u));
      if !UniqueCategoryNames(t.rows) then Effect(Err(Integrity), db)
      else Effect(Ok(Updated(db.categories, ById(categoryId), PatchCategory(u))), db.(categories := t))
  }

  function DeleteCategoryEffect(db: Store, categoryId: int): Effect<seq<Row<CategoryFields>>> {
    if Lookup(db.categories, categoryId).Err? then Effect(Err(NotFound), db)
    else Effect(Ok(FindSome(db.categories.rows, ById(categoryId))),
                db.(categories := DeleteWhere(db.categories, ById(categoryId))))
  }

  /** get_posts_by_category: the linked posts that still exist, in relation order. */
  function PostsByCategory(db: Store, categoryId: int): Result<seq<Row<PostFields>>> {
    if Lookup(db.categories, categoryId).Err? then Err(NotFound)
    else Ok(PostsFor(db.posts, PostIdsOf(FindSome(db.postCategories, Targeting(categoryId)))))
  }

  /** One entry per category, in table order, each with the number of its post–category edges. */
  function CategoryCounts(rows: seq<Row<CategoryFields>>, links: seq<Link>): (r: seq<CategoryWithCount>)
    ensures |r| == |rows|
    ensures forall k :: 0 <= k < |rows| ==>
      r[k] == CategoryWithCount(rows[k].id, rows[k].fields.name, rows[k].fields.description, CountLinks(links, rows[k].id))
    decreases |rows|
  {
    if rows == [] then []
    else
      var c := rows[|rows| - 1];
      CategoryCounts(rows[..|rows| - 1], links)
        + [CategoryWithCount(c.id, c.fields.name, c.fields.description, CountLinks(links, c.id))]
  }

  // ---------------------------------------------------------------- what they promise

  /** Adding a row whose name no row has keeps the names unique. */
  lemma InsertNewNameKeepsUnique(t: Table<CategoryFields>, category: CategoryFields)
    requires UniqueCategoryNames(t.rows)
    requires forall x :: x in t.rows ==> x.fields.name != category.name
    ensures UniqueCategoryNames(Insert(t, category).rows)
  {
    var rows := Insert(t, category).rows;
    forall i, j | 0 <= i < j < |rows| ensures rows[i].fields.name != rows[j].fields.name {
      if j == |t.rows| {
        assert rows[i] in t.rows;
      } else {
        assert rows[i] == t.rows[i] && rows[j] == t.rows[j];
      }
    }
  }

  /**
   * create_category: 409, with nothing added, exactly when a category with
   * that name exists; otherwise the new category is found under the next id
   * and the store (with its unique names) stays valid.
   */
  lemma CreateCategoryFacts(db: Store, category: CategoryFields)
    requires db.Valid()
    ensures var e := CreateCategoryEffect(db, category);
      && (e.result.Err? <==> exists x :: x in db.categories.rows && x.fields.name == category.name)
      && (e.result.Err? ==> e.result.error == Conflict)
      && (e.result.Err? ==> e.after == db)
      && (e.result.Ok? ==>
            && Lookup(e.after.categories, e.result.value) == Ok(Row(e.result.value, category))
            && (forall id :: id != e.result.value ==> Lookup(e.after.categories, id) == Lookup(db.categories, id))
            && e.after.(categories := db.categories) == db)
      && e.after.Valid()
  {
    InsertFacts(db.categories, category);
    if CategoryByName(db, category.name).None? {
      InsertNewNameKeepsUnique(db.categories, category);
    }
  }

  /** Renaming one row to a name no other row has keeps the names unique. */
  lemma RenameKeepsUnique(t: Table<CategoryFields>, categoryId: int, u: CategoryUpdate)
    requires WellFormed(t) && UniqueCategoryNames(t.rows)
    requires u.name.Some? ==> forall x :: x in t.rows && x.fields.name == u.name.value ==> x.id == categoryId
    ensures UniqueCategoryNames(UpdateWhere(t, ById(categoryId), PatchCategory(u)).rows)
  {
    var rows := UpdateWhere(t, ById(categoryId), PatchCategory(u)).rows;
    forall i, j | 0 <= i < j < |rows| ensures rows[i].fields.name != rows[j].fields.name {
      assert t.rows[i].id < t.rows[j].id;
      if u.name.Some? && t.rows[i].id == categoryId {
        assert t.rows[j] in t.rows;
      } else if u.name.Some? && t.rows[j].id == categoryId {
        assert t.rows[i] in t.rows;
      }
    }
  }

  /**
   * update_category refuses: 404 exactly when the id is missing; 409 exactly
   * when the new name is truthy and a category with a different id has it;
   * the unique constraint can only refuse an empty name, which skips the
   * check.  A refused update changes nothing.
   */
  lemma UpdateCategoryErrors(db: Store, categoryId: int, u: CategoryUpdate)
    requires db.Valid()
    ensures var e := UpdateCategoryEffect(db, categoryId, u);
      && (e.result == Err(NotFound) <==> Lookup(db.categories, categoryId).Err?)
      && (e.result == Err(Conflict) <==>
            && Lookup(db.categories, categoryId).Ok?
            && Truthy(u.name)
            && exists x :: x in db.categories.rows && x.fields.name == u.name.value && x.id != categoryId)
      && (e.result == Err(Integrity) ==> u.name == Some(""))
      && (e.result.Err? ==> e.after == db)
  {
    NameTakenIffOther(db, categoryId, u.name);
    if Lookup(db.categories, categoryId).Ok? && !NameTakenByOther(db, categoryId, u.name) && u.name != Some("") {
      RenameKeepsUnique(db.categories, categoryId, u);
    }
  }

  /** With unique names, the name check fires exactly when another category has the truthy name. */
  lemma NameTakenIffOther(db: Store, categoryId: int, name: Option<string>)
    requires UniqueCategoryNames(db.categories.rows)
    ensures NameTakenByOther(db, categoryId, name) <==>
              Truthy(name) && exists x :: x in db.categories.rows && x.fields.name == name.value && x.id != categoryId
  {
    if Truthy(name) && exists x :: x in db.categories.rows && x.fields.name == name.value && x.id != categoryId {
      var x :| x in db.categories.rows && x.fields.name == name.value && x.id != categoryId;
      CategoryNamedIsOnly(db.categories.rows, name.value, x);
    }
  }

  /** Keeping a category's own name is never a conflict, and the update goes through. */
  lemma UpdateCategoryKeepsOwnName(db: Store, categoryId: int, u: CategoryUpdate)
    requires db.Valid()
    requires Lookup(db.categories, categoryId).Ok?
    requires u.name == Some(Lookup(db.categories, categoryId).value.fields.name)
    ensures UpdateCategoryEffect(db, categoryId, u).result.Ok?
  {
    var cats := db.categories;
    var own := Lookup(cats, categoryId).value;
    forall x | x in cats.rows && x.fields.name == u.name.value ensures x.id == categoryId {
      CategoryNamedIsOnly(db.categories.rows, u.name.value, x);
      CategoryNamedIsOnly(db.categories.rows, u.name.value, own);
    }
    RenameKeepsUnique(cats, categoryId, u);
  }

  /**
   * update_category that goes through: the category is rewritten in place
   * by the fields set, every other category and table is as it was, and the
   * store stays valid.
   */
  lemma UpdateCategoryWrites(db: Store, categoryId: int, u: CategoryUpdate)
    requires db.Valid()
    ensures var e := UpdateCategoryEffect(db, categoryId, u);
      && (e.result.Ok? ==>
            var before := Lookup(db.categories, categoryId).value;
            && e.result.value == [Row(categoryId, PatchCategory(u)(before.fields))]
            && Lookup(e.after.categories, categoryId) == Ok(Row(categoryId, PatchCategory(u)(before.fields)))
            && (forall id :: id != categoryId ==> Lookup(e.after.categories, id) == Lookup(db.categories, id))
            && e.after.(categories := db.categories) == db)
      && e.after.Valid()
  {
    var t := UpdateWhere(db.categories, ById(categoryId), PatchCategory(u));
    UpdateById(db.categories, categoryId, PatchCategory(u));
    if UpdateCategoryEffect(db, categoryId, u).result.Ok? {
      assert UpdateCategoryEffect(db, categoryId, u).after == db.(categories := t);
      ValidWithCategories(db, t);
    }
  }

  /** delete_category: 404 exactly when missing; otherwise only that category goes. */
  lemma DeleteCategoryFacts(db: Store, categoryId: int)
    requires db.Valid()
    ensures var e := DeleteCategoryEffect(db, categoryId);
      && (e.result.Err? <==> Lookup(db.categories, categoryId).Err?)
      && (e.result.Err? ==> e.result.error == NotFound && e.after == db)
      && (e.result.Ok? ==>
            && e.result.value == [Lookup(db.categories, categoryId).value]
            && Lookup(e.after.categories, categoryId).Err?
            && (forall id :: id != categoryId ==> Lookup(e.after.categories, id) == Lookup(db.categories, id))
            && e.after.(categories := db.categories) == db)
      && e.after.Valid()
  {
    var cats := db.categories;
    DeleteByIdFacts(cats, categoryId);
    var rows := DeleteWhere(cats, ById(categoryId)).rows;
    forall i, j | 0 <= i < j < |rows| ensures rows[i].fields.name != rows[j].fields.name {
      assert rows[i] in cats.rows && rows[j] in cats.rows;
      assert rows[i].id < rows[j].id;
      var a :| 0 <= a < |cats.rows| && cats.rows[a] == rows[i];
      var b :| 0 <= b < |cats.rows| && cats.rows[b] == rows[j];
      assert a != b;
    }
  }

  /**
   * get_posts_by_category: 404 exactly when the category is missing;
   * otherwise the posts are those of the category's edges whose post still
   * exists, in edge order, never more than there are edges, and one per edge
   * when every linked post exists.
   */
  lemma PostsByCategoryFacts(db: Store, categoryId: int)
    ensures var r := PostsByCategory(db, categoryId);
      var ids := PostIdsOf(FindSome(db.postCategories, Targeting(categoryId)));
      && (r.Err? <==> Lookup(db.categories, categoryId).Err?)
      && (r.Err? ==> r.error == NotFound)
      && (r.Ok? ==>
            && PostIdsOfRows(r.value) == FindSome(ids, HasPost(db.posts))
            && |r.value| <= CountLinks(db.postCategories, categoryId)
            && (forall p :: p in r.value ==> p in db.posts.rows && Link(p.id, categoryId) in db.postCategories)
            && ((forall id :: id in ids ==> Lookup(db.posts, id).Ok?) ==> |r.value| == CountLinks(db.postCategories, categoryId)))
  {
    RelatedPostsFacts(db.posts, db.postCategories, categoryId);
  }

  /**
   * get_categories_with_posts_count: with one edge per pair, each count is
   * the number of distinct posts in the category.
   */
  lemma CountsAreDistinctPosts(db: Store)
    requires db.Valid()
    ensures var r := CategoryCounts(db.categories.rows, db.postCategories);
      forall k :: 0 <= k < |r| ==>
        r[k].postsCount == |LinkedPosts(db.postCategories, r[k].id)|
  {
    var r := CategoryCounts(db.categories.rows, db.postCategories);
    forall k | 0 <= k < |r|
      ensures r[k].postsCount == |LinkedPosts(db.postCategories, r[k].id)|
    {
      CountIsDistinctPosts(db.postCategories, r[k].id);
    }
  }

  // ---------------------------------------------------------------- the service methods

  method GetCategoryById(uow: CachedUnitOfWork, categoryId: int) returns (r: Result<Row<CategoryFields>>)
    requires uow.Valid()
    modifies uow
    ensures uow.Valid() && uow.phase == Closed
    ensures uow.database == old(uow.database)
    ensures r == Lookup(old(uow.database).categories, categoryId)
  {
    var _ := uow.Enter();
    var category := FindOne(uow.working.categories.rows, ById(categoryId));
    if category.None? {
      var raised := uow.Exit(Some(NotFound), false);
      return Err(raised.value);
    }
    var _ := uow.Exit(None, false);
    return Ok(category.value);
  }

  method GetCategoryByName(uow: CachedUnitOfWork, name: string) returns (r: Option<Row<CategoryFields>>)
    requires uow.Valid()
    modifies uow
    ensures uow.Valid() && uow.phase == Closed
    ensures uow.database == old(uow.database)
    ensures r == CategoryByName(old(uow.database), name)
  {
    var _ := uow.Enter();
    r := FindOne(uow.working.categories.rows, CategoryNamed(name));
    var _ := uow.Exit(None, false);
  }

  method GetCategories(uow: CachedUnitOfWork) returns (categories: seq<Row<CategoryFields>>)
    requires uow.Valid()
    modifies uow
    ensures uow.Valid() && uow.phase == Closed
    ensures uow.database == old(uow.database)
    ensures categories == old(uow.database).categories.rows
  {
    var _ := uow.Enter();
    categories := uow.working.categories.rows;
    var _ := uow.Exit(None, false);
  }

  method CreateCategory(uow: CachedUnitOfWork, category: CategoryFields) returns (r: Result<int>)
    requires uow.Valid()
    modifies uow
    ensures uow.Valid() && uow.phase == Closed
    ensures Effect(r, uow.database) == CreateCategoryEffect(old(uow.database), category)
  {
    var existing := GetCategoryByName(uow, category.name);
    if existing.Some? {
      return Err(Conflict);
    }
    var _ := uow.Enter();
    r := uow.AddCategory(category);
    if r.Err? {
      var raised := uow.Exit(Some(r.error), false);
      return Err(raised.value);
    }
    var _ := uow.Exit(None, false);
  }

  method UpdateCategory(uow: CachedUnitOfWork, categoryId: int, categoryUpdate: CategoryUpdate)
    returns (r: Result<seq<Row<CategoryFields>>>)
    requires uow.Valid()
    modifies uow
    ensures uow.Valid() && uow.phase == Closed
    ensures Effect(r, uow.database) == UpdateCategoryEffect(old(uow.database), categoryId, categoryUpdate)
  {
    ghost var db := uow.database;
    var found := GetCategoryById(uow, categoryId);
    if found.Err? {
      return Err(found.error);
    }
    if Truthy(categoryUpdate.name) {
      var existing := GetCategoryByName(uow, categoryUpdate.name.value);
      if existing.Some? && existing.value.id != categoryId {
        return Err(Conflict);
      }
    }
    assert uow.database == db && !NameTakenByOther(db, categoryId, categoryUpdate.name);
    var _ := uow.Enter();
    assert uow.working == db;
    r := uow.UpdateCategories(ById(categoryId), PatchCategory(categoryUpdate));
    if r.Err? {
      var raised := uow.Exit(Some(r.error), false);
      return Err(raised.value);
    }
    var _ := uow.Exit(None, false);
  }

  method DeleteCategory(uow: CachedUnitOfWork, categoryId: int) returns (r: Result<seq<Row<CategoryFields>>>)
    requires uow.Valid()
    modifies uow
    ensures uow.Valid() && uow.phase == Closed
    ensures Effect(r, uow.database) == DeleteCategoryEffect(old(uow.database), categoryId)
  {
    var found := GetCategoryById(uow, categoryId);
    if found.Err? {
      return Err(found.error);
    }
    var _ := uow.Enter();
    var deleted := uow.DeleteCategories(ById(categoryId));
    var _ := uow.Exit(None, false);
    return Ok(deleted);
  }

  method GetPostsByCategory(uow: CachedUnitOfWork, categoryId: int) returns (r: Result<seq<Row<PostFields>>>)
    requires uow.Valid()
    modifies uow
    ensures uow.Valid() && uow.phase == Closed
    ensures uow.database == old(uow.database)
    ensures r == PostsByCategory(old(uow.database), categoryId)
  {
    var found := GetCategoryById(uow, categoryId);
    if found.Err? {
      return Err(found.error);
    }
    var _ := uow.Enter();
    var relations := FindSome(uow.working.postCategories, Targeting(categoryId));
    var postIds := PostIdsOf(relations);
    if |postIds| == 0 {
      var _ := uow.Exit(None, false);
      return Ok([]);
    }
    var posts := CollectPosts(uow.working.posts, postIds);
    var _ := uow.Exit(None, false);
    return Ok(posts);
  }

  method GetCategoriesWithPostsCount(uow: CachedUnitOfWork) returns (counts: seq<CategoryWithCount>)
    requires uow.Valid()
    modifies uow
    ensures uow.Valid() && uow.phase == Closed
    ensures uow.database == old(uow.database)
    ensures counts == CategoryCounts(old(uow.database).categories.rows, old(uow.database).postCategories)
  {
    var _ := uow.Enter();
    var categories := uow.working.categories.rows;
    counts := [];
    var i := 0;
    while i < |categories|
      invariant 0 <= i <= |categories|
      invariant counts == CategoryCounts(categories[..i], uow.working.postCategories)
    {
      var category := categories[i];
      var relations := FindSome(uow.working.postCategories, Targeting(category.id));
      counts := counts + [CategoryWithCount(category.id, category.fields.name, category.fields.description, |relations|)];
      assert categories[..i + 1][..i] == categories[..i];
      i := i + 1;
    }
    assert categories[..i] == categories;
    var _ := uow.Exit(None, false);
  }
}
