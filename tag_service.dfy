// TagService: tags with a name checked for uniqueness by the service alone,
// the posts reached through the post–tag edges, and the popular-tags
// ranking.  Methods are proved equal to functions on the committed store,
// about which the lemmas speak.
module TagService {
  import opened Results
  import opened Tables
  import opened PostSchema
  import opened Database
  import opened UnitOfWork

  /** A tag update: `Some` marks a name the request sets. */
  datatype TagUpdate = TagUpdate(name: Option<string>)

  function PatchTag(u: TagUpdate): TagFields -> TagFields {
    (f: TagFields) => if u.name.Some? then TagFields(u.name.value) else f
  }

  /** One entry of `get_popular_tags`. */
  datatype TagWithCount = TagWithCount(id: int, name: string, postsCount: nat)

  // ---------------------------------------------------------------- the functions on the store

  /** get_tag_by_name: the tag with that name, or None; it never raises. */
  function TagByName(db: Store, name: string): (r: Option<Row<TagFields>>)
    ensures r.None? <==> forall x :: x in db.tags.rows ==> x.fields.name != name
    ensures r.Some? ==> r.value in db.tags.rows && r.value.fields.name == name
  {
    FindOne(db.tags.rows, TagNamed(name))
  }

  function CreateTagEffect(db: Store, tag: TagFields): Effect<int> {
    if TagByName(db, tag.name).Some? then Effect(Err(Conflict), db)
    else Effect(Ok(db.tags.nextId), db.(tags := Insert(db.tags, tag)))
  }

  /** update_tag: 404, then 409 for a truthy name that a tag with a different id has, then the update. */
  function UpdateTagEffect(db: Store, tagId: int, u: TagUpdate): Effect<seq<Row<TagFields>>> {
    if Lookup(db.tags, tagId).Err? then Effect(Err(NotFound), db)
    else if Truthy(u.name) && TagByName(db, u.name.value).Some? && TagByName(db, u.name.value).value.id != tagId then
      Effect(Err(Conflict), db)
    else Effect(Ok(Updated(db.tags, ById(tagId), PatchTag(u))), db.(tags := UpdateWhere(db.tags, ById(tagId), PatchTag(u))))
  }

  function DeleteTagEffect(db: Store, tagId: int): Effect<seq<Row<TagFields>>> {
    if Lookup(db.tags, tagId).Err? then Effect(Err(NotFound), db)
    else Effect(Ok(FindSome(db.tags.rows, ById(tagId))), db.(tags := DeleteWhere(db.tags, ById(tagId))))
  }

  /** get_posts_by_tag: the linked posts that still exist, in relation order. */
  function PostsByTag(db: Store, tagId: int): Result<seq<Row<PostFields>>> {
    if Lookup(db.tags, tagId).Err? then Err(NotFound)
    else Ok(PostsFor(db.posts, PostIdsOf(FindSome(db.postTags, Targeting(tagId)))))
  }

  /** One entry per tag, in table order, each with the number of its post–tag edges. */
  function TagCounts(rows: seq<Row<TagFields>>, links: seq<Link>): (r: seq<TagWithCount>)
    ensures |r| == |rows|
    ensures forall k :: 0 <= k < |rows| ==> r[k] == TagWithCount(rows[k].id, rows[k].fields.name, CountLinks(links, rows[k].id))
    decreases |rows|
  {
    if rows == [] then []
    else
      var t := rows[|rows| - 1];
      TagCounts(rows[..|rows| - 1], links) + [TagWithCount(t.id, t.fields.name, CountLinks(links, t.id))]
  }

  // ---------------------------------------------------------------- sorted(..., key=posts_count, reverse=True)

  ghost predicate NonIncreasing(s: seq<TagWithCount>) {
    forall i, j :: 0 <= i < j < |s| ==> s[i].postsCount >= s[j].postsCount
  }

  /** `a` ranks before `b`: a higher count, or the same count and a lower id. */
  predicate Before(a: TagWithCount, b: TagWithCount) {
    a.postsCount > b.postsCount || (a.postsCount == b.postsCount && a.id < b.id)
  }

  /** By count, highest first, and by id among equal counts. */
  ghost predicate Ranked(s: seq<TagWithCount>) {
    forall i, j :: 0 <= i < j < |s| ==> Before(s[i], s[j])
  }

  ghost predicate IdsIncreasing(s: seq<TagWithCount>) {
    forall i, j :: 0 <= i < j < |s| ==> s[i].id < s[j].id
  }

  /** A later element goes after every element whose count is at least its own: that is what keeps the sort stable. */
  function InsertByCount(x: TagWithCount, s: seq<TagWithCount>): (r: seq<TagWithCount>)
    ensures |r| == |s| + 1
  {
    if s == [] then [x]
    else if s[0].postsCount >= x.postsCount then [s[0]] + InsertByCount(x, s[1..])
    else [x] + s
  }

  /** Python's stable sort by count, highest first (`sorted(..., reverse=True)`). */
  function SortByCount(s: seq<TagWithCount>): (r: seq<TagWithCount>)
    ensures |r| == |s|
    decreases |s|
  {
    if s == [] then [] else InsertByCount(s[|s| - 1], SortByCount(s[..|s| - 1]))
  }

  /** Python's `s[:limit]`: a negative limit counts back from the end. */
  function PyTake<T>(s: seq<T>, limit: int): (r: seq<T>)
    ensures limit >= 0 ==> |r| == (if limit < |s| then limit else |s|)
    ensures limit < 0 ==> |r| == (if -limit < |s| then |s| + limit else 0)
    ensures r == s[..|r|]
  {
    if limit >= 0 then (if limit < |s| then s[..limit] else s)
    else if -limit < |s| then s[..|s| + limit] else []
  }

  /** get_popular_tags: the tags with their counts, ranked, cut at `limit`. */
  function PopularTags(db: Store, limit: int): seq<TagWithCount> {
    PyTake(SortByCount(TagCounts(db.tags.rows, db.postTags)), limit)
  }

  // ---------------------------------------------------------------- what the ranking promises

  lemma {:induction false} InsertPermutes(x: TagWithCount, s: seq<TagWithCount>)
    ensures multiset(InsertByCount(x, s)) == multiset(s) + multiset{x}
  {
    if s != [] && s[0].postsCount >= x.postsCount {
      var rest := InsertByCount(x, s[1..]);
      InsertPermutes(x, s[1..]);
      assert InsertByCount(x, s) == [s[0]] + rest;
      assert multiset([s[0]] + rest) == multiset{s[0]} + multiset(rest);
      assert s == [s[0]] + s[1..];
      assert multiset(s) == multiset{s[0]} + multiset(s[1..]);
    }
  }

  /** The sort only reorders: the result is a permutation of its input. */
  lemma {:induction false} SortPermutes(s: seq<TagWithCount>)
    ensures multiset(SortByCount(s)) == multiset(s)
    ensures |SortByCount(s)| == |s|
    decreases |s|
  {
    if s != [] {
      var init, last := s[..|s| - 1], s[|s| - 1];
      var sorted := SortByCount(init);
      calc {
        multiset(SortByCount(s));
        multiset(InsertByCount(last, sorted));
        { InsertPermutes(last, sorted); }
        multiset(sorted) + multiset{last};
        { SortPermutes(init); }
        multiset(init) + multiset{last};
        multiset(init + [last]);
        { assert init + [last] == s; }
        multiset(s);
      }
    }
  }

  /** Everything in the insertion comes from the list or is the inserted element. */
  lemma InsertFrom(x: TagWithCount, s: seq<TagWithCount>, y: TagWithCount)
    requires y in InsertByCount(x, s)
    ensures y in s || y == x
  {
    InsertPermutes(x, s);
    assert y in multiset(InsertByCount(x, s));
  }

  lemma ConsNonIncreasing(a: TagWithCount, s: seq<TagWithCount>)
    requires NonIncreasing(s)
    requires forall y :: y in s ==> a.postsCount >= y.postsCount
    ensures NonIncreasing([a] + s)
  {
    var r := [a] + s;
    forall i, j | 0 <= i < j < |r| ensures r[i].postsCount >= r[j].postsCount {
      assert r[j] == s[j - 1];
      if i > 0 {
        assert r[i] == s[i - 1];
      }
    }
  }

  lemma ConsRanked(a: TagWithCount, s: seq<TagWithCount>)
    requires Ranked(s)
    requires forall y :: y in s ==> Before(a, y)
    ensures Ranked([a] + s)
  {
    var r := [a] + s;
    forall i, j | 0 <= i < j < |r| ensures Before(r[i], r[j]) {
      assert r[j] == s[j - 1];
      if i > 0 {
        assert r[i] == s[i - 1];
      }
    }
  }

  lemma {:induction false} InsertKeepsNonIncreasing(x: TagWithCount, s: seq<TagWithCount>)
    requires NonIncreasing(s)
    ensures NonIncreasing(InsertByCount(x, s))
  {
    if s == [] {
    } else if s[0].postsCount >= x.postsCount {
      InsertKeepsNonIncreasing(x, s[1..]);
      forall y | y in InsertByCount(x, s[1..]) ensures s[0].postsCount >= y.postsCount {
        InsertFrom(x, s[1..], y);
      }
      ConsNonIncreasing(s[0], InsertByCount(x, s[1..]));
    } else {
      ConsNonIncreasing(x, s);
    }
  }

  /** The sort's result is ordered by count, highest first. */
  lemma {:induction false} SortNonIncreasing(s: seq<TagWithCount>)
    ensures NonIncreasing(SortByCount(s))
    decreases |s|
  {
    if s != [] {
      SortNonIncreasing(s[..|s| - 1]);
      InsertKeepsNonIncreasing(s[|s| - 1], SortByCount(s[..|s| - 1]));
    }
  }

  /** Inserting an element whose id is above every other keeps a ranked list ranked. */
  lemma {:induction false} InsertKeepsRanked(x: TagWithCount, s: seq<TagWithCount>)
    requires Ranked(s)
    requires forall y :: y in s ==> y.id < x.id
    ensures Ranked(InsertByCount(x, s))
  {
    if s == [] {
    } else if s[0].postsCount >= x.postsCount {
      assert Ranked(s[1..]);
      InsertKeepsRanked(x, s[1..]);
      forall y | y in InsertByCount(x, s[1..]) ensures Before(s[0], y) {
        InsertFrom(x, s[1..], y);
        if y in s[1..] {
          var k :| 0 <= k < |s[1..]| && s[1..][k] == y;
          assert s[k + 1] == y;
        }
      }
      ConsRanked(s[0], InsertByCount(x, s[1..]));
    } else {
      forall y | y in s ensures Before(x, y) {
        var k :| 0 <= k < |s| && s[k] == y;
        if k > 0 {
          assert Before(s[0], s[k]);
        }
      }
      ConsRanked(x, s);
    }
  }

  /**
   * The sort is stable: on entries listed in increasing id order (the order
   * `find_all` gives), equal counts keep that order, so the result is ranked
   * by count and then by id.
   */
  lemma {:induction false} SortIsStable(s: seq<TagWithCount>)
    requires IdsIncreasing(s)
    ensures Ranked(SortByCount(s))
    decreases |s|
  {
    if s != [] {
      var init, last := s[..|s| - 1], s[|s| - 1];
      assert IdsIncreasing(init);
      SortIsStable(init);
      SortPermutes(init);
      forall y | y in SortByCount(init) ensures y.id < last.id {
        assert y in multiset(SortByCount(init));
        var k :| 0 <= k < |init| && init[k] == y;
      }
      InsertKeepsRanked(last, SortByCount(init));
    }
  }

  /** get_popular_tags returns at most `limit` entries, and exactly `limit` when there are enough tags. */
  lemma PopularTagsLength(db: Store, limit: int)
    ensures limit >= 0 ==> |PopularTags(db, limit)| == (if limit < |db.tags.rows| then limit else |db.tags.rows|)
    ensures |PopularTags(db, limit)| <= |db.tags.rows|
  {
    SortPermutes(TagCounts(db.tags.rows, db.postTags));
  }

  /** get_popular_tags is ordered by count, highest first, and by id among equal counts. */
  lemma PopularTagsRanked(db: Store, limit: int)
    requires db.Valid()
    ensures NonIncreasing(PopularTags(db, limit)) && Ranked(PopularTags(db, limit))
  {
    var all := TagCounts(db.tags.rows, db.postTags);
    assert IdsIncreasing(all);
    SortIsStable(all);
  }

  /** Each entry of get_popular_tags is a tag, with its name and the number of its post–tag edges. */
  lemma PopularTagsEntries(db: Store, limit: int)
    ensures forall x :: x in PopularTags(db, limit) ==>
      exists t :: t in db.tags.rows && x == TagWithCount(t.id, t.fields.name, CountLinks(db.postTags, t.id))
  {
    var all := TagCounts(db.tags.rows, db.postTags);
    SortPermutes(all);
    forall x | x in PopularTags(db, limit)
      ensures exists t :: t in db.tags.rows && x == TagWithCount(t.id, t.fields.name, CountLinks(db.postTags, t.id))
    {
      assert x in SortByCount(all);
      assert x in multiset(all);
      var k :| 0 <= k < |all| && all[k] == x;
      assert db.tags.rows[k] in db.tags.rows;
    }
  }

  /**
   * get_popular_tags is the front of the full ranking: a permutation of all
   * the tags' entries, cut after `|r|` of them, and no entry after the cut
   * has a higher count than an entry returned.
   */
  lemma PopularTagsAreTop(db: Store, limit: int)
    ensures var all := TagCounts(db.tags.rows, db.postTags);
      var sorted := SortByCount(all);
      var r := PopularTags(db, limit);
      && multiset(sorted) == multiset(all)
      && r == sorted[..|r|]
      && forall i, j :: 0 <= i < |r| <= j < |sorted| ==> sorted[j].postsCount <= r[i].postsCount
  {
    var all := TagCounts(db.tags.rows, db.postTags);
    var sorted := SortByCount(all);
    var r := PopularTags(db, limit);
    SortPermutes(all);
    SortNonIncreasing(all);
    forall i, j | 0 <= i < |r| <= j < |sorted| ensures sorted[j].postsCount <= r[i].postsCount {
      assert r[i] == sorted[i];
    }
  }

  // ---------------------------------------------------------------- what the rest promises

  /**
   * create_tag: 409, with nothing added, exactly when a tag with that name
   * exists; otherwise the new tag is found under the next id, and names that
   * were unique stay unique.
   */
  lemma CreateTagFacts(db: Store, tag: TagFields)
    requires db.Valid()
    ensures var e := CreateTagEffect(db, tag);
      && (e.result.Err? <==> exists x :: x in db.tags.rows && x.fields.name == tag.name)
      && (e.result.Err? ==> e.result.error == Conflict && e.after == db)
      && (e.result.Ok? ==>
            && Lookup(e.after.tags, e.result.value) == Ok(Row(e.result.value, tag))
            && (forall id :: id != e.result.value ==> Lookup(e.after.tags, id) == Lookup(db.tags, id))
            && e.after.(tags := db.tags) == db)
      && e.after.Valid()
      && (UniqueTagNames(db.tags.rows) ==> UniqueTagNames(e.after.tags.rows))
      && (UniqueNamedTags(db.tags.rows) ==> UniqueNamedTags(e.after.tags.rows))
  {
    InsertFacts(db.tags, tag);
    if TagByName(db, tag.name).None? {
      InsertNewNameKeepsUnique(db.tags, tag);
    }
  }

  /** Adding a tag whose name no tag has keeps names, and non-empty names, unique. */
  lemma InsertNewNameKeepsUnique(t: Table<TagFields>, tag: TagFields)
    requires forall x :: x in t.rows ==> x.fields.name != tag.name
    ensures UniqueTagNames(t.rows) ==> UniqueTagNames(Insert(t, tag).rows)
    ensures UniqueNamedTags(t.rows) ==> UniqueNamedTags(Insert(t, tag).rows)
  {
    var rows := Insert(t, tag).rows;
    assert rows == t.rows + [Row(t.nextId, tag)];
    forall i | 0 <= i < |t.rows| ensures rows[i] == t.rows[i] && rows[i].fields.name != tag.name {
      assert t.rows[i] in t.rows;
    }
    if UniqueTagNames(t.rows) {
      forall i, j | 0 <= i < j < |rows| ensures rows[i].fields.name != rows[j].fields.name {
        if j < |t.rows| {
          assert rows[j] == t.rows[j];
        }
      }
    }
    if UniqueNamedTags(t.rows) {
      forall i, j | 0 <= i < j < |rows| && rows[i].fields.name != "" ensures rows[i].fields.name != rows[j].fields.name {
        if j < |t.rows| {
          assert rows[j] == t.rows[j];
        }
      }
    }
  }

  /**
   * update_tag refuses: 404 exactly when the id is missing; with unique
   * non-empty names, 409 exactly when the new name is truthy and a tag with
   * a different id has it.  A refused update changes nothing.
   */
  lemma UpdateTagErrors(db: Store, tagId: int, u: TagUpdate)
    requires db.Valid() && UniqueNamedTags(db.tags.rows)
    ensures var e := UpdateTagEffect(db, tagId, u);
      && (e.result == Err(NotFound) <==> Lookup(db.tags, tagId).Err?)
      && (e.result == Err(Conflict) <==>
            && Lookup(db.tags, tagId).Ok?
            && Truthy(u.name)
            && exists x :: x in db.tags.rows && x.fields.name == u.name.value && x.id != tagId)
      && (e.result.Err? ==> e.after == db)
  {
    NameTakenIffOther(db, tagId, u.name);
  }

  /** With unique non-empty names, the name check fires exactly when another tag has the truthy name. */
  lemma NameTakenIffOther(db: Store, tagId: int, name: Option<string>)
    requires UniqueNamedTags(db.tags.rows)
    ensures (Truthy(name) && TagByName(db, name.value).Some? && TagByName(db, name.value).value.id != tagId) <==>
              Truthy(name) && exists x :: x in db.tags.rows && x.fields.name == name.value && x.id != tagId
  {
    if Truthy(name) && exists x :: x in db.tags.rows && x.fields.name == name.value && x.id != tagId {
      var x :| x in db.tags.rows && x.fields.name == name.value && x.id != tagId;
      TagNamedIsOnly(db.tags.rows, name.value, x);
    }
  }

  /** Keeping a tag's own name is never a conflict; an empty own name is not even checked. */
  lemma UpdateTagKeepsOwnName(db: Store, tagId: int, u: TagUpdate)
    requires db.Valid() && UniqueNamedTags(db.tags.rows)
    requires Lookup(db.tags, tagId).Ok? && u.name == Some(Lookup(db.tags, tagId).value.fields.name)
    ensures UpdateTagEffect(db, tagId, u).result.Ok?
  {
    if u.name.value != "" {
      TagNamedIsOnly(db.tags.rows, u.name.value, Lookup(db.tags, tagId).value);
    }
  }

  /**
   * update_tag that goes through: the tag is rewritten in place, every other
   * tag and table is as it was, the store stays valid, and unique names stay
   * unique unless the new name is empty, which skips the check.
   */
  lemma UpdateTagWrites(db: Store, tagId: int, u: TagUpdate)
    requires db.Valid()
    ensures var e := UpdateTagEffect(db, tagId, u);
      && (e.result.Ok? ==>
            && e.result.value == [Row(tagId, PatchTag(u)(Lookup(db.tags, tagId).value.fields))]
            && Lookup(e.after.tags, tagId) == Ok(Row(tagId, PatchTag(u)(Lookup(db.tags, tagId).value.fields)))
            && (forall id :: id != tagId ==> Lookup(e.after.tags, id) == Lookup(db.tags, id))
            && e.after.(tags := db.tags) == db)
      && e.after.Valid()
      && (UniqueTagNames(db.tags.rows) && u.name != Some("") ==> UniqueTagNames(e.after.tags.rows))
      && (UniqueNamedTags(db.tags.rows) ==> UniqueNamedTags(e.after.tags.rows))
  {
    var t := db.tags;
    var g := PatchTag(u);
    UpdateById(t, tagId, g);
    var e := UpdateTagEffect(db, tagId, u);
    if e.result.Ok? && UniqueTagNames(t.rows) && u.name != Some("") {
      UpdateKeepsUniqueTagNames(db, tagId, u);
    }
    if e.result.Ok? && UniqueNamedTags(t.rows) {
      UpdateKeepsUniqueNamedTags(db, tagId, u);
    }
  }

  /** An update that passed the name check gives no tag a name another already has. */
  lemma UpdateKeepsUniqueTagNames(db: Store, tagId: int, u: TagUpdate)
    requires db.Valid() && UniqueTagNames(db.tags.rows) && u.name != Some("")
    requires UpdateTagEffect(db, tagId, u).result.Ok?
    ensures UniqueTagNames(UpdateWhere(db.tags, ById(tagId), PatchTag(u)).rows)
  {
    var t := db.tags;
    var rows := UpdateWhere(t, ById(tagId), PatchTag(u)).rows;
    forall i, j | 0 <= i < j < |rows| ensures rows[i].fields.name != rows[j].fields.name {
      assert t.rows[i].id < t.rows[j].id;
      if u.name.Some? && t.rows[i].id == tagId {
        if t.rows[j].fields.name == u.name.value {
          TagNamedIsOnly(db.tags.rows, u.name.value, t.rows[j]);
        }
      } else if u.name.Some? && t.rows[j].id == tagId {
        if t.rows[i].fields.name == u.name.value {
          TagNamedIsOnly(db.tags.rows, u.name.value, t.rows[i]);
        }
      }
    }
  }

  /** The same for non-empty names, whatever the new name is. */
  lemma UpdateKeepsUniqueNamedTags(db: Store, tagId: int, u: TagUpdate)
    requires db.Valid() && UniqueNamedTags(db.tags.rows)
    requires UpdateTagEffect(db, tagId, u).result.Ok?
    ensures UniqueNamedTags(UpdateWhere(db.tags, ById(tagId), PatchTag(u)).rows)
  {
    var t := db.tags;
    var rows := UpdateWhere(t, ById(tagId), PatchTag(u)).rows;
    forall i, j | 0 <= i < j < |rows| && rows[i].fields.name != "" ensures rows[i].fields.name != rows[j].fields.name {
      assert t.rows[i].id < t.rows[j].id;
      if u.name.Some? && t.rows[i].id == tagId {
        if t.rows[j].fields.name == u.name.value {
          TagNamedIsOnly(db.tags.rows, u.name.value, t.rows[j]);
        }
      } else if u.name.Some? && t.rows[j].id == tagId {
        if t.rows[i].fields.name == u.name.value {
          TagNamedIsOnly(db.tags.rows, u.name.value, t.rows[i]);
        }
      }
    }
  }

  /** Renaming one tag to the name another already has leaves two rows with that name. */
  lemma RenameCollides(t: Table<TagFields>, named: int, renamed: int, name: string)
    requires WellFormed(t) && named != renamed
    requires Lookup(t, named) == Ok(Row(named, TagFields(name))) && Lookup(t, renamed).Ok?
    ensures var after := UpdateWhere(t, ById(renamed), PatchTag(TagUpdate(Some(name))));
      && Lookup(after, renamed) == Ok(Row(renamed, TagFields(name)))
      && Lookup(after, named) == Ok(Row(named, TagFields(name)))
      && !UniqueTagNames(after.rows)
  {
    var after := UpdateWhere(t, ById(renamed), PatchTag(TagUpdate(Some(name))));
    UpdateByIdTarget(t, renamed, PatchTag(TagUpdate(Some(name))));
    UpdateByIdOthers(t, renamed, PatchTag(TagUpdate(Some(name))), named);
    SharedNameNotUnique(after.rows, Row(named, TagFields(name)), Row(renamed, TagFields(name)));
  }

  /** Two different rows with one name break uniqueness. */
  lemma SharedNameNotUnique(rows: seq<Row<TagFields>>, x: Row<TagFields>, y: Row<TagFields>)
    requires x in rows && y in rows && x != y && x.fields.name == y.fields.name
    ensures !UniqueTagNames(rows)
  {
    var i :| 0 <= i < |rows| && rows[i] == x;
    var j :| 0 <= j < |rows| && rows[j] == y;
    if i < j {
      assert rows[i].fields.name == rows[j].fields.name;
    } else {
      assert rows[j].fields.name == rows[i].fields.name;
    }
  }

  /**
   * An empty name skips the check: when one tag is already named "", renaming
   * another tag to "" succeeds and leaves two tags with the same name.
   */
  lemma EmptyNameSkipsCheck(db: Store, named: int, renamed: int)
    requires WellFormed(db.tags) && named != renamed
    requires Lookup(db.tags, named) == Ok(Row(named, TagFields(""))) && Lookup(db.tags, renamed).Ok?
    ensures var e := UpdateTagEffect(db, renamed, TagUpdate(Some("")));
      && e.result.Ok?
      && Lookup(e.after.tags, renamed) == Ok(Row(renamed, TagFields("")))
      && Lookup(e.after.tags, named) == Ok(Row(named, TagFields("")))
      && !UniqueTagNames(e.after.tags.rows)
  {
    var u := TagUpdate(Some(""));
    assert !Truthy(u.name);
    assert UpdateTagEffect(db, renamed, u).after.tags == UpdateWhere(db.tags, ById(renamed), PatchTag(u));
    RenameCollides(db.tags, named, renamed, "");
  }

  /** delete_tag: 404 exactly when missing; otherwise only that tag goes. */
  lemma DeleteTagFacts(db: Store, tagId: int)
    requires db.Valid()
    ensures var e := DeleteTagEffect(db, tagId);
      && (e.result.Err? <==> Lookup(db.tags, tagId).Err?)
      && (e.result.Err? ==> e.result.error == NotFound && e.after == db)
      && (e.result.Ok? ==>
            && e.result.value == [Lookup(db.tags, tagId).value]
            && Lookup(e.after.tags, tagId).Err?
            && (forall id :: id != tagId ==> Lookup(e.after.tags, id) == Lookup(db.tags, id))
            && e.after.(tags := db.tags) == db)
      && e.after.Valid()
  {
    DeleteByIdFacts(db.tags, tagId);
  }

  /**
   * get_posts_by_tag: 404 exactly when the tag is missing; otherwise the
   * posts of the tag's edges whose post still exists, in edge order, never
   * more than there are edges, and one per edge when every post exists.
   */
  lemma PostsByTagFacts(db: Store, tagId: int)
    ensures var r := PostsByTag(db, tagId);
      var ids := PostIdsOf(FindSome(db.postTags, Targeting(tagId)));
      && (r.Err? <==> Lookup(db.tags, tagId).Err?)
      && (r.Err? ==> r.error == NotFound)
      && (r.Ok? ==>
            && PostIdsOfRows(r.value) == FindSome(ids, HasPost(db.posts))
            && |r.value| <= CountLinks(db.postTags, tagId)
            && (forall p :: p in r.value ==> p in db.posts.rows && Link(p.id, tagId) in db.postTags)
            && ((forall id :: id in ids ==> Lookup(db.posts, id).Ok?) ==> |r.value| == CountLinks(db.postTags, tagId)))
  {
    RelatedPostsFacts(db.posts, db.postTags, tagId);
  }

  // ---------------------------------------------------------------- the service methods

  method GetTagById(uow: CachedUnitOfWork, tagId: int) returns (r: Result<Row<TagFields>>)
    requires uow.Valid()
    modifies uow
    ensures uow.Valid() && uow.phase == Closed
    ensures uow.database == old(uow.database)
    ensures r == Lookup(old(uow.database).tags, tagId)
  {
    var _ := uow.Enter();
    var tag := FindOne(uow.working.tags.rows, ById(tagId));
    if tag.None? {
      var raised := uow.Exit(Some(NotFound), false);
      return Err(raised.value);
    }
    var _ := uow.Exit(None, false);
    return Ok(tag.value);
  }

  method GetTagByName(uow: CachedUnitOfWork, name: string) returns (r: Option<Row<TagFields>>)
    requires uow.Valid()
    modifies uow
    ensures uow.Valid() && uow.phase == Closed
    ensures uow.database == old(uow.database)
    ensures r == TagByName(old(uow.database), name)
  {
    var _ := uow.Enter();
    r := FindOne(uow.working.tags.rows, TagNamed(name));
    var _ := uow.Exit(None, false);
  }

  method GetTags(uow: CachedUnitOfWork) returns (tags: seq<Row<TagFields>>)
    requires uow.Valid()
    modifies uow
    ensures uow.Valid() && uow.phase == Closed
    ensures uow.database == old(uow.database)
    ensures tags == old(uow.database).tags.rows
  {
    var _ := uow.Enter();
    tags := uow.working.tags.rows;
    var _ := uow.Exit(None, false);
  }

  method CreateTag(uow: CachedUnitOfWork, tag: TagFields) returns (r: Result<int>)
    requires uow.Valid()
    modifies uow
    ensures uow.Valid() && uow.phase == Closed
    ensures Effect(r, uow.database) == CreateTagEffect(old(uow.database), tag)
  {
    var existing := GetTagByName(uow, tag.name);
    if existing.Some? {
      return Err(Conflict);
    }
    var _ := uow.Enter();
    var tagId := uow.AddTag(tag);
    var _ := uow.Exit(None, false);
    return Ok(tagId);
  }

  method UpdateTag(uow: CachedUnitOfWork, tagId: int, tagUpdate: TagUpdate) returns (r: Result<seq<Row<TagFields>>>)
    requires uow.Valid()
    modifies uow
    ensures uow.Valid() && uow.phase == Closed
    ensures Effect(r, uow.database) == UpdateTagEffect(old(uow.database), tagId, tagUpdate)
  {
    var found := GetTagById(uow, tagId);
    if found.Err? {
      return Err(found.error);
    }
    if Truthy(tagUpdate.name) {
      var existing := GetTagByName(uow, tagUpdate.name.value);
      if existing.Some? && existing.value.id != tagId {
        return Err(Conflict);
      }
    }
    var _ := uow.Enter();
    var updated := uow.UpdateTags(ById(tagId), PatchTag(tagUpdate));
    var _ := uow.Exit(None, false);
    return Ok(updated);
  }

  method DeleteTag(uow: CachedUnitOfWork, tagId: int) returns (r: Result<seq<Row<TagFields>>>)
    requires uow.Valid()
    modifies uow
    ensures uow.Valid() && uow.phase == Closed
    ensures Effect(r, uow.database) == DeleteTagEffect(old(uow.database), tagId)
  {
    var found := GetTagById(uow, tagId);
    if found.Err? {
      return Err(found.error);
    }
    var _ := uow.Enter();
    var deleted := uow.DeleteTags(ById(tagId));
    var _ := uow.Exit(None, false);
    return Ok(deleted);
  }

  method GetPostsByTag(uow: CachedUnitOfWork, tagId: int) returns (r: Result<seq<Row<PostFields>>>)
    requires uow.Valid()
    modifies uow
    ensures uow.Valid() && uow.phase == Closed
    ensures uow.database == old(uow.database)
    ensures r == PostsByTag(old(uow.database), tagId)
  {
    var found := GetTagById(uow, tagId);
    if found.Err? {
      return Err(found.error);
    }
    var _ := uow.Enter();
    var relations := FindSome(uow.working.postTags, Targeting(tagId));
    var postIds := PostIdsOf(relations);
    if |postIds| == 0 {
      var _ := uow.Exit(None, false);
      return Ok([]);
    }
    var posts := CollectPosts(uow.working.posts, postIds);
    var _ := uow.Exit(None, false);
    return Ok(posts);
  }

  method GetPopularTags(uow: CachedUnitOfWork, limit: int) returns (popular: seq<TagWithCount>)
    requires uow.Valid()
    modifies uow
    ensures uow.Valid() && uow.phase == Closed
    ensures uow.database == old(uow.database)
    ensures popular == PopularTags(old(uow.database), limit)
  {
    var _ := uow.Enter();
    var tags := uow.working.tags.rows;
    var tagsWithCount: seq<TagWithCount> := [];
    var i := 0;
    while i < |tags|
      invariant 0 <= i <= |tags|
      invariant tagsWithCount == TagCounts(tags[..i], uow.working.postTags)
    {
      var tag := tags[i];
      var relations := FindSome(uow.working.postTags, Targeting(tag.id));
      tagsWithCount := tagsWithCount + [TagWithCount(tag.id, tag.fields.name, |relations|)];
      assert tags[..i + 1][..i] == tags[..i];
      i := i + 1;
    }
    assert tags[..i] == tags;
    var sortedTags := SortByCount(tagsWithCount);
    popular := PyTake(sortedTags, limit);
    var _ := uow.Exit(None, false);
  }
}
