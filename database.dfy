// The six tables the unit of work reaches through one session, the record
// shapes of comments, tags and categories, the constraints the tables keep,
// and the read-only queries more than one service builds on.
module Database {
  import opened Results
  import opened Tables
  import opened PostSchema

  /** A comment's fields; `isApproved` defaults to true. */
  datatype CommentFields = CommentFields(
    content: string,
    postId: int,
    authorId: int,
    parentId: Option<int>,
    isApproved: bool)

  datatype TagFields = TagFields(name: string)

  datatype CategoryFields = CategoryFields(name: string, description: Option<string>)

  datatype Store = Store(
    posts: Table<PostFields>,
    comments: Table<CommentFields>,
    tags: Table<TagFields>,
    postTags: seq<Link>,
    categories: Table<CategoryFields>,
    postCategories: seq<Link>)
  {
    /**
     * What every reachable store keeps: ids as the store assigns them, one
     * join record per pair, one category per name, and every reply on the
     * post of the comment it answers.
     */
    ghost predicate Valid() {
      && WellFormed(posts) && WellFormed(comments) && WellFormed(tags) && WellFormed(categories)
      && UniqueLinks(postTags) && UniqueLinks(postCategories)
      && UniqueCategoryNames(categories.rows)
      && RepliesStayOnPost(comments)
    }
  }

  const EmptyStore := Store(EmptyTable(), EmptyTable(), EmptyTable(), [], EmptyTable(), [])

  /** What a service call returns, and the committed store it leaves behind. */
  datatype Effect<T> = Effect(result: Result<T>, after: Store)

  /** Python truthiness of an optional name: present and not empty. */
  predicate Truthy(name: Option<string>) {
    name.Some? && name.value != ""
  }

  /** The unique constraint on categories.name, which the store checks on every write. */
  predicate UniqueCategoryNames(rows: seq<Row<CategoryFields>>) {
    forall i, j :: 0 <= i < j < |rows| ==> rows[i].fields.name != rows[j].fields.name
  }

  /**
   * A reply names an id that was assigned before it, and when that comment
   * exists the reply is on the same post.
   */
  ghost predicate RepliesStayOnPost(c: Table<CommentFields>) {
    && (forall i :: 0 <= i < |c.rows| && c.rows[i].fields.parentId.Some? ==>
          c.rows[i].fields.parentId.value < c.nextId)
    && (forall i, j :: 0 <= i < |c.rows| && 0 <= j < |c.rows| && c.rows[i].fields.parentId == Some(c.rows[j].id) ==>
          c.rows[i].fields.postId == c.rows[j].fields.postId)
  }

  lemma EmptyStoreIsValid()
    ensures EmptyStore.Valid()
  {
  }

  /** Replacing the categories by a well-formed table with unique names keeps a valid store valid. */
  lemma ValidWithCategories(db: Store, t: Table<CategoryFields>)
    requires db.Valid() && WellFormed(t) && UniqueCategoryNames(t.rows)
    ensures db.(categories := t).Valid()
  {
  }

  // ---------------------------------------------------------------- name lookups

  function CategoryNamed(name: string): Row<CategoryFields> -> bool {
    (r: Row<CategoryFields>) => r.fields.name == name
  }

  function TagNamed(name: string): Row<TagFields> -> bool {
    (r: Row<TagFields>) => r.fields.name == name
  }

  /**
   * No two tags share a name, the empty one included.  The store does not
   * enforce it; create_tag keeps it, but an update to the empty name skips
   * the check and can break it (TagService.EmptyNameSkipsCheck).
   */
  ghost predicate UniqueTagNames(rows: seq<Row<TagFields>>) {
    forall i, j :: 0 <= i < j < |rows| ==> rows[i].fields.name != rows[j].fields.name
  }

  /**
   * No two tags share a non-empty name: what the service's own checks keep
   * on create and on update, since only an empty name escapes them.
   */
  ghost predicate UniqueNamedTags(rows: seq<Row<TagFields>>) {
    forall i, j :: 0 <= i < j < |rows| && rows[i].fields.name != "" ==> rows[i].fields.name != rows[j].fields.name
  }

  /** With unique category names, find_one by name finds the one category with it. */
  lemma CategoryNamedIsOnly(rows: seq<Row<CategoryFields>>, name: string, x: Row<CategoryFields>)
    requires UniqueCategoryNames(rows) && x in rows && x.fields.name == name
    ensures FindOne(rows, CategoryNamed(name)) == Some(x)
  {
    FindOneUnique(rows, CategoryNamed(name), x);
  }

  /** With unique non-empty tag names, find_one by a non-empty name finds the one tag with it. */
  lemma TagNamedIsOnly(rows: seq<Row<TagFields>>, name: string, x: Row<TagFields>)
    requires UniqueNamedTags(rows) && name != "" && x in rows && x.fields.name == name
    ensures FindOne(rows, TagNamed(name)) == Some(x)
  {
    FindOneUnique(rows, TagNamed(name), x);
  }

  // ---------------------------------------------------------------- posts through a join table

  /** `[relation.post_id for relation in relations]`. */
  function PostIdsOf(links: seq<Link>): seq<int> {
    seq(|links|, k requires 0 <= k < |links| => links[k].postId)
  }

  function HasPost(posts: Table<PostFields>): int -> bool {
    (id: int) => Lookup(posts, id).Ok?
  }

  /**
   * The loop over post ids: each id whose post still exists contributes that
   * post, in id order; an id whose post is gone is skipped.
   */
  function PostsFor(posts: Table<PostFields>, ids: seq<int>): (r: seq<Row<PostFields>>)
    ensures |r| <= |ids|
    ensures forall x :: x in r ==> x in posts.rows && x.id in ids
    decreases |ids|
  {
    if ids == [] then []
    else
      var last := ids[|ids| - 1];
      PostsFor(posts, ids[..|ids| - 1]) + (match Lookup(posts, last) case Ok(p) => [p] case Err(_) => [])
  }

  lemma {:induction false} FindSomeSnoc<T(!new)>(s: seq<T>, x: T, p: T -> bool)
    ensures FindSome(s + [x], p) == FindSome(s, p) + (if p(x) then [x] else [])
  {
    var tail := if p(x) then [x] else [];
    if s == [] {
      assert s + [x] == [x];
    } else {
      var head := if p(s[0]) then [s[0]] else [];
      calc {
        FindSome(s + [x], p);
        { assert (s + [x])[0] == s[0] && (s + [x])[1..] == s[1..] + [x]; }
        head + FindSome(s[1..] + [x], p);
        { FindSomeSnoc(s[1..], x, p); }
        head + (FindSome(s[1..], p) + tail);
        (head + FindSome(s[1..], p)) + tail;
        FindSome(s, p) + tail;
      }
    }
  }

  /**
   * The posts found are exactly the posts of the ids that still have one, in
   * relation order: their ids are the relation's post ids with the missing ones
   * dropped.
   */
  lemma {:induction false} PostsForSkipsMissing(posts: Table<PostFields>, ids: seq<int>)
    ensures PostIdsOfRows(PostsFor(posts, ids)) == FindSome(ids, HasPost(posts))
    decreases |ids|
  {
    if ids != [] {
      var init, last := ids[..|ids| - 1], ids[|ids| - 1];
      assert ids == init + [last];
      PostsForSkipsMissing(posts, init);
      FindSomeSnoc(init, last, HasPost(posts));
      var found := match Lookup(posts, last) case Ok(p) => [p] case Err(_) => [];
      assert PostsFor(posts, ids) == PostsFor(posts, init) + found;
      assert PostIdsOfRows(found) == if HasPost(posts)(last) then [last] else [];
      IdsOfRowsAppend(PostsFor(posts, init), found);
    }
  }

  /** When every related post exists, the result has one post per relation, in relation order. */
  lemma {:induction false} PostsForAllPresent(posts: Table<PostFields>, ids: seq<int>)
    requires forall k :: 0 <= k < |ids| ==> Lookup(posts, ids[k]).Ok?
    ensures |PostsFor(posts, ids)| == |ids|
    ensures forall k :: 0 <= k < |ids| ==> PostsFor(posts, ids)[k] == Lookup(posts, ids[k]).value
    decreases |ids|
  {
    if ids != [] {
      var init, last := ids[..|ids| - 1], ids[|ids| - 1];
      assert forall k :: 0 <= k < |init| ==> init[k] == ids[k];
      PostsForAllPresent(posts, init);
      var prev := PostsFor(posts, init);
      var found := Lookup(posts, last).value;
      assert PostsFor(posts, ids) == prev + [found];
      forall k | 0 <= k < |ids| ensures (prev + [found])[k] == Lookup(posts, ids[k]).value {
        if k < |init| {
          assert ids[k] == init[k] && (prev + [found])[k] == prev[k];
        } else {
          assert k == |prev| && ids[k] == last;
        }
      }
    }
  }

  /**
   * The posts related to a tag or category: their ids are those of its join
   * records whose post still exists, in record order; each is a stored post
   * linked to it; there are never more than the records, and exactly one per
   * record when every linked post exists.
   */
  lemma RelatedPostsFacts(posts: Table<PostFields>, links: seq<Link>, targetId: int)
    ensures var ids := PostIdsOf(FindSome(links, Targeting(targetId)));
      var r := PostsFor(posts, ids);
      && PostIdsOfRows(r) == FindSome(ids, HasPost(posts))
      && |r| <= CountLinks(links, targetId)
      && (forall p :: p in r ==> p in posts.rows && Link(p.id, targetId) in links)
      && ((forall id :: id in ids ==> Lookup(posts, id).Ok?) ==> |r| == CountLinks(links, targetId))
  {
    var selected := FindSome(links, Targeting(targetId));
    var ids := PostIdsOf(selected);
    PostsForSkipsMissing(posts, ids);
    forall p | p in PostsFor(posts, ids) ensures Link(p.id, targetId) in links {
      var k :| 0 <= k < |ids| && ids[k] == p.id;
      assert selected[k] in selected;
    }
    if forall id :: id in ids ==> Lookup(posts, id).Ok? {
      forall k | 0 <= k < |ids| ensures Lookup(posts, ids[k]).Ok? {
        assert ids[k] in ids;
      }
      PostsForAllPresent(posts, ids);
    }
  }

  /** The loop over post ids: find each post, keep the ones found. */
  method CollectPosts(posts: Table<PostFields>, postIds: seq<int>) returns (found: seq<Row<PostFields>>)
    ensures found == PostsFor(posts, postIds)
  {
    found := [];
    var i := 0;
    while i < |postIds|
      invariant 0 <= i <= |postIds|
      invariant found == PostsFor(posts, postIds[..i])
    {
      var post := FindOne(posts.rows, ById(postIds[i]));
      if post.Some? {
        found := found + [post.value];
      }
      assert postIds[..i + 1][..i] == postIds[..i];
      i := i + 1;
    }
    assert postIds[..i] == postIds;
  }

  function PostIdsOfRows(rows: seq<Row<PostFields>>): seq<int> {
    seq(|rows|, k requires 0 <= k < |rows| => rows[k].id)
  }

  lemma IdsOfRowsAppend(a: seq<Row<PostFields>>, b: seq<Row<PostFields>>)
    ensures PostIdsOfRows(a + b) == PostIdsOfRows(a) + PostIdsOfRows(b)
  {
  }

  /** How many join records point at this tag or category: `len(find_some({"x_id": id}))`. */
  function CountLinks(links: seq<Link>, targetId: int): nat {
    |FindSome(links, Targeting(targetId))|
  }

  /** The distinct posts that the join records link to this tag or category. */
  function LinkedPosts(links: seq<Link>, targetId: int): set<int> {
    set l | l in links && l.targetId == targetId :: l.postId
  }

  /** The linked posts of a non-empty sequence: the head's post, if it points here, and the tail's. */
  lemma LinkedPostsCons(links: seq<Link>, targetId: int)
    requires links != []
    ensures LinkedPosts(links, targetId) ==
              (if links[0].targetId == targetId then {links[0].postId} else {}) + LinkedPosts(links[1..], targetId)
  {
    assert forall l :: l in links <==> l == links[0] || l in links[1..];
  }

  /** With one record per pair, no later record links the head's post to the same target. */
  lemma HeadPostIsNew(links: seq<Link>)
    requires links != [] && UniqueLinks(links)
    ensures links[0].postId !in LinkedPosts(links[1..], links[0].targetId)
  {
    var tail := links[1..];
    forall l | l in tail && l.targetId == links[0].targetId ensures l.postId != links[0].postId {
      var k :| 0 <= k < |tail| && tail[k] == l;
      assert links[k + 1] == l && links[0] != links[k + 1];
    }
  }

  /** With one record per pair, the count is the number of distinct posts linked. */
  lemma {:induction false} CountIsDistinctPosts(links: seq<Link>, targetId: int)
    requires UniqueLinks(links)
    ensures CountLinks(links, targetId) == |LinkedPosts(links, targetId)|
    decreases |links|
  {
    if links == [] {
      assert LinkedPosts(links, targetId) == {};
    } else {
      var tail := links[1..];
      assert UniqueLinks(tail) by {
        forall i, j | 0 <= i < j < |tail| ensures tail[i] != tail[j] {
          assert tail[i] == links[i + 1] && tail[j] == links[j + 1];
        }
      }
      CountIsDistinctPosts(tail, targetId);
      LinkedPostsCons(links, targetId);
      if links[0].targetId == targetId {
        HeadPostIsNew(links);
      }
    }
  }

  // ---------------------------------------------------------------- join records

  /**
   * Linking a post to a tag or category: an existing record for the pair is
   * returned as it is; otherwise the pair is appended and returned.
   */
  function LinkOnce(links: seq<Link>, postId: int, targetId: int): (Link, seq<Link>) {
    match FindOne(links, Pair(postId, targetId))
    case Some(existing) => (existing, links)
    case None => (Link(postId, targetId), links + [Link(postId, targetId)])
  }

  /** Unlinking: the records for exactly that pair go, and are what the call returns. */
  function Unlink(links: seq<Link>, postId: int, targetId: int): (seq<Link>, seq<Link>) {
    (FindSome(links, Pair(postId, targetId)), FindSome(links, Not(Pair(postId, targetId))))
  }

  /**
   * Linking returns the pair's record, leaves exactly one record for the pair
   * and every other record as it was, and doing it again changes nothing.
   */
  lemma LinkOnceFacts(links: seq<Link>, postId: int, targetId: int)
    requires UniqueLinks(links)
    ensures var (l, after) := LinkOnce(links, postId, targetId);
      && l == Link(postId, targetId)
      && UniqueLinks(after)
      && FindSome(after, Pair(postId, targetId)) == [l]
      && (forall x :: x in after <==> x in links || x == l)
      && LinkOnce(after, postId, targetId) == (l, after)
  {
    var (l, after) := LinkOnce(links, postId, targetId);
    var p := Pair(postId, targetId);
    assert l == Link(postId, targetId);
    if FindOne(links, p).None? {
      assert l !in links;
      assert forall i :: 0 <= i < |links| ==> after[i] == links[i];
    }
    assert l in after;
    PairIsSingle(after, postId, targetId);
  }

  /** With one record per pair, selecting a pair that is present gives just its record. */
  lemma {:induction false} PairIsSingle(links: seq<Link>, postId: int, targetId: int)
    requires UniqueLinks(links) && Link(postId, targetId) in links
    ensures FindSome(links, Pair(postId, targetId)) == [Link(postId, targetId)]
    decreases |links|
  {
    var l, tail := Link(postId, targetId), links[1..];
    assert UniqueLinks(tail) by {
      forall i, j | 0 <= i < j < |tail| ensures tail[i] != tail[j] {
        assert tail[i] == links[i + 1] && tail[j] == links[j + 1];
      }
    }
    if links[0] == l {
      assert l !in tail by {
        forall k | 0 <= k < |tail| ensures tail[k] != l {
          assert links[k + 1] != links[0];
        }
      }
      NothingSelected(tail, Pair(postId, targetId));
    } else {
      PairIsSingle(tail, postId, targetId);
    }
  }

  /**
   * Unlinking removes the pair and keeps every other record; unlinking again
   * returns nothing and changes nothing.
   */
  lemma UnlinkFacts(links: seq<Link>, postId: int, targetId: int)
    requires UniqueLinks(links)
    ensures var (removed, after) := Unlink(links, postId, targetId);
      && (forall x :: x in removed <==> x in links && x == Link(postId, targetId))
      && (forall x :: x in after <==> x in links && x != Link(postId, targetId))
      && UniqueLinks(after)
      && Unlink(after, postId, targetId) == ([], after)
  {
    var (removed, after) := Unlink(links, postId, targetId);
    var keep := Not(Pair(postId, targetId));
    SelectionStaysUnique(links, keep);
    assert FindSome(after, Pair(postId, targetId)) == [] by {
      NothingSelected(after, Pair(postId, targetId));
    }
    FindSomeAll(after, keep);
  }

  lemma {:induction false} NothingSelected<T(!new)>(s: seq<T>, p: T -> bool)
    requires forall x :: x in s ==> !p(x)
    ensures FindSome(s, p) == []
  {
    if s != [] {
      NothingSelected(s[1..], p);
    }
  }

  lemma {:induction false} SelectionStaysUnique(links: seq<Link>, p: Link -> bool)
    requires UniqueLinks(links)
    ensures UniqueLinks(FindSome(links, p))
    decreases |links|
  {
    if links != [] {
      var tail := links[1..];
      assert UniqueLinks(tail) by {
        forall i, j | 0 <= i < j < |tail| ensures tail[i] != tail[j] {
          assert tail[i] == links[i + 1] && tail[j] == links[j + 1];
        }
      }
      SelectionStaysUnique(tail, p);
      assert links[0] !in tail by {
        forall k | 0 <= k < |tail| ensures tail[k] != links[0] {
          assert links[k + 1] != links[0];
        }
      }
    }
  }
}
