// The repository contract every entity type shares, over an abstract table:
// rows in insertion order, each with the surrogate id the store assigned.
// `find_one`, `find_some` and `find_all` read a table; `add_one`, `update` and
// `delete` produce the table after the write.  Predicates are functions on
// rows, standing for the field-to-value dictionaries the services pass.
module Tables {
  import opened Results

  /** A stored row: the id the store assigned on insert, and the entity's fields. */
  datatype Row<F> = Row(id: int, fields: F)

  /** One entity type's table: its rows in insertion order and the id the next insert receives. */
  datatype Table<F> = Table(rows: seq<Row<F>>, nextId: int)

  /** A join record (post_id, tag_id) or (post_id, category_id); the pair is its identity. */
  datatype Link = Link(postId: int, targetId: int)

  function EmptyTable<F(!new)>(): (t: Table<F>)
    ensures WellFormed(t) && t.rows == []
  {
    Table([], 1)
  }

  /** Ids are positive, strictly increasing in table order, and below the next id to assign. */
  ghost predicate WellFormed<F(!new)>(t: Table<F>) {
    && 1 <= t.nextId
    && (forall i, j :: 0 <= i < j < |t.rows| ==> t.rows[i].id < t.rows[j].id)
    && (forall i :: 0 <= i < |t.rows| ==> 1 <= t.rows[i].id < t.nextId)
  }

  /** At most one join record per pair: the composite primary key. */
  ghost predicate UniqueLinks(links: seq<Link>) {
    forall i, j :: 0 <= i < j < |links| ==> links[i] != links[j]
  }

  // ---------------------------------------------------------------- predicates

  function ById<F(!new)>(id: int): Row<F> -> bool {
    (r: Row<F>) => r.id == id
  }

  function Pair(postId: int, targetId: int): Link -> bool {
    (l: Link) => l.postId == postId && l.targetId == targetId
  }

  function Targeting(targetId: int): Link -> bool {
    (l: Link) => l.targetId == targetId
  }

  function Not<T(!new)>(p: T -> bool): T -> bool {
    (x: T) => !p(x)
  }

  // ---------------------------------------------------------------- reads

  /** find_one: a row satisfying the predicate (the first in table order), or None when no row does. */
  function FindOne<T(!new)>(s: seq<T>, p: T -> bool): (r: Option<T>)
    ensures r.Some? ==> r.value in s && p(r.value)
    ensures r.None? <==> forall x :: x in s ==> !p(x)
  {
    if s == [] then None
    else if p(s[0]) then Some(s[0])
    else FindOne(s[1..], p)
  }

  /** When no two entries both satisfy the predicate, find_one finds the one that does. */
  lemma FindOneUnique<T(!new)>(s: seq<T>, p: T -> bool, x: T)
    requires x in s && p(x)
    requires forall i, j :: 0 <= i < j < |s| && p(s[i]) ==> !p(s[j])
    ensures FindOne(s, p) == Some(x)
  {
    var y := FindOne(s, p).value;
    var i :| 0 <= i < |s| && s[i] == x;
    var j :| 0 <= j < |s| && s[j] == y;
    assert i == j;
  }

  /** find_some: the rows satisfying the predicate, in table order. */
  function FindSome<T(!new)>(s: seq<T>, p: T -> bool): (r: seq<T>)
    ensures |r| <= |s|
    ensures forall x :: x in r <==> x in s && p(x)
  {
    if s == [] then []
    else (if p(s[0]) then [s[0]] else []) + FindSome(s[1..], p)
  }

  /** get-by-id: the row with this id, or NotFound. */
  function Lookup<F(!new)>(t: Table<F>, id: int): (r: Result<Row<F>>)
    ensures r.Err? <==> forall x :: x in t.rows ==> x.id != id
    ensures r.Err? ==> r.error == NotFound
    ensures r.Ok? ==> r.value in t.rows && r.value.id == id
  {
    match FindOne(t.rows, ById(id))
    case None => Err(NotFound)
    case Some(x) => Ok(x)
  }

  // ---------------------------------------------------------------- writes

  /** add_one: the new row receives the next id. */
  function Insert<F(!new)>(t: Table<F>, f: F): Table<F> {
    Table(t.rows + [Row(t.nextId, f)], t.nextId + 1)
  }

  /** update: every row satisfying the predicate gets its fields rewritten by `g`. */
  function UpdateWhere<F(!new)>(t: Table<F>, p: Row<F> -> bool, g: F -> F): Table<F> {
    Table(seq(|t.rows|, i requires 0 <= i < |t.rows| =>
                if p(t.rows[i]) then Row(t.rows[i].id, g(t.rows[i].fields)) else t.rows[i]),
          t.nextId)
  }

  /** The rows `update` returns: the matched rows as they are after the update. */
  function Updated<F(!new)>(t: Table<F>, p: Row<F> -> bool, g: F -> F): seq<Row<F>> {
    var m := FindSome(t.rows, p);
    seq(|m|, i requires 0 <= i < |m| => Row(m[i].id, g(m[i].fields)))
  }

  /** delete: the rows satisfying the predicate go; `FindSome(t.rows, p)` is what it returns. */
  function DeleteWhere<F(!new)>(t: Table<F>, p: Row<F> -> bool): Table<F> {
    Table(FindSome(t.rows, Not(p)), t.nextId)
  }

  // ---------------------------------------------------------------- lemmas

  /** The empty predicate selects every row: find_some({}) is find_all(). */
  lemma {:induction false} FindSomeAll<T(!new)>(s: seq<T>, p: T -> bool)
    requires forall x :: x in s ==> p(x)
    ensures FindSome(s, p) == s
  {
    if s != [] {
      FindSomeAll(s[1..], p);
    }
  }

  /** find_some keeps table order: on a table with increasing ids, the result's ids still increase. */
  lemma {:induction false} FindSomeKeepsOrder<F(!new)>(t: Table<F>, p: Row<F> -> bool)
    requires WellFormed(t)
    ensures WellFormed(Table(FindSome(t.rows, p), t.nextId))
    decreases |t.rows|
  {
    if t.rows != [] {
      var head, tail := t.rows[0], Table(t.rows[1..], t.nextId);
      assert WellFormed(tail) by {
        forall i | 0 <= i < |tail.rows| ensures tail.rows[i] == t.rows[i + 1] { }
      }
      FindSomeKeepsOrder(tail, p);
      var rest := FindSome(tail.rows, p);
      if p(head) {
        forall x | x in rest ensures head.id < x.id {
          var k :| 0 <= k < |tail.rows| && tail.rows[k] == x;
          assert t.rows[k + 1] == x;
        }
        ConsKeepsOrder(head, Table(rest, t.nextId));
      }
    }
  }

  /** A row with a positive id below the others, put in front, keeps ids increasing. */
  lemma ConsKeepsOrder<F(!new)>(head: Row<F>, t: Table<F>)
    requires WellFormed(t) && 1 <= head.id < t.nextId
    requires forall x :: x in t.rows ==> head.id < x.id
    ensures WellFormed(Table([head] + t.rows, t.nextId))
  {
    var r := [head] + t.rows;
    forall i, j | 0 <= i < j < |r| ensures r[i].id < r[j].id {
      if i == 0 {
        assert r[j] == t.rows[j - 1];
      } else {
        assert r[i] == t.rows[i - 1] && r[j] == t.rows[j - 1];
      }
    }
  }

  /** In a well-formed table, the row found by id is the only row with that id. */
  lemma LookupIsMembership<F(!new)>(t: Table<F>, id: int, x: Row<F>)
    requires WellFormed(t)
    ensures Lookup(t, id) == Ok(x) <==> x in t.rows && x.id == id
  {
    if x in t.rows && x.id == id {
      var y := Lookup(t, id).value;
      var i :| 0 <= i < |t.rows| && t.rows[i] == x;
      var j :| 0 <= j < |t.rows| && t.rows[j] == y;
      assert i == j;
    }
  }

  /** In a well-formed table, selecting by id gives exactly the one row with that id, or nothing. */
  lemma {:induction false} SelectById<F(!new)>(t: Table<F>, id: int)
    requires WellFormed(t)
    ensures FindSome(t.rows, ById(id)) == match Lookup(t, id) case Ok(x) => [x] case Err(_) => []
    decreases |t.rows|
  {
    if t.rows != [] {
      var p := ById<F>(id);
      var tail := Table(t.rows[1..], t.nextId);
      assert WellFormed(tail) by {
        forall i | 0 <= i < |tail.rows| ensures tail.rows[i] == t.rows[i + 1] { }
      }
      SelectById(tail, id);
      assert FindSome(t.rows, p) == (if p(t.rows[0]) then [t.rows[0]] else []) + FindSome(tail.rows, p);
      if t.rows[0].id == id {
        assert Lookup(t, id) == Ok(t.rows[0]);
        assert Lookup(tail, id).Err? by {
          forall x | x in tail.rows ensures x.id != id {
            var k :| 0 <= k < |tail.rows| && tail.rows[k] == x;
            assert t.rows[0].id < t.rows[k + 1].id;
          }
        }
      } else {
        assert FindOne(t.rows, p) == FindOne(tail.rows, p);
        assert Lookup(t, id) == Lookup(tail, id);
      }
    }
  }

  /** add_one: the new row is found by its id, every earlier row is still found, and ids stay increasing. */
  lemma InsertFacts<F(!new)>(t: Table<F>, f: F)
    requires WellFormed(t)
    ensures WellFormed(Insert(t, f))
    ensures Lookup(Insert(t, f), t.nextId) == Ok(Row(t.nextId, f))
    ensures forall id :: id != t.nextId ==> Lookup(Insert(t, f), id) == Lookup(t, id)
  {
    var t' := Insert(t, f);
    assert forall i :: 0 <= i < |t.rows| ==> t'.rows[i] == t.rows[i];
    assert WellFormed(t');
    LookupIsMembership(t', t.nextId, Row(t.nextId, f));
    forall id | id != t.nextId ensures Lookup(t', id) == Lookup(t, id) {
      match Lookup(t, id)
      case Ok(x) =>
        LookupIsMembership(t, id, x);
        LookupIsMembership(t', id, x);
      case Err(_) =>
        assert forall x :: x in t'.rows ==> x in t.rows || x == Row(t.nextId, f);
    }
  }

  /** update keeps every id where it was, so a well-formed table stays well-formed. */
  lemma UpdateKeepsWellFormed<F(!new)>(t: Table<F>, p: Row<F> -> bool, g: F -> F)
    requires WellFormed(t)
    ensures WellFormed(UpdateWhere(t, p, g))
    ensures forall i :: 0 <= i < |t.rows| ==> UpdateWhere(t, p, g).rows[i].id == t.rows[i].id
  {
  }

  /** update by id returns exactly the rewritten row with that id, or nothing when there is none. */
  lemma UpdatedById<F(!new)>(t: Table<F>, id: int, g: F -> F)
    requires WellFormed(t)
    ensures Updated(t, ById(id), g) == match Lookup(t, id) case Ok(x) => [Row(id, g(x.fields))] case Err(_) => []
  {
    SelectById(t, id);
  }

  /** update by id: the row with that id has its fields rewritten by `g`; without one the table is unchanged. */
  lemma UpdateByIdTarget<F(!new)>(t: Table<F>, id: int, g: F -> F)
    requires WellFormed(t)
    ensures Lookup(t, id).Ok? ==>
              Lookup(UpdateWhere(t, ById(id), g), id) == Ok(Row(id, g(Lookup(t, id).value.fields)))
    ensures Lookup(t, id).Err? ==> UpdateWhere(t, ById(id), g) == t
  {
    var t' := UpdateWhere(t, ById(id), g);
    match Lookup(t, id)
    case Ok(x) =>
      var i :| 0 <= i < |t.rows| && t.rows[i] == x;
      assert t'.rows[i] == Row(id, g(x.fields));
      UpdateKeepsWellFormed(t, ById(id), g);
      LookupIsMembership(t', id, t'.rows[i]);
    case Err(_) =>
      assert t'.rows == t.rows by {
        forall i | 0 <= i < |t.rows| ensures t'.rows[i] == t.rows[i] {
          assert t.rows[i] in t.rows;
        }
      }
  }

  /** update by id leaves every other row as it was. */
  lemma UpdateByIdOthers<F(!new)>(t: Table<F>, id: int, g: F -> F, other: int)
    requires WellFormed(t) && other != id
    ensures Lookup(UpdateWhere(t, ById(id), g), other) == Lookup(t, other)
  {
    var t' := UpdateWhere(t, ById(id), g);
    UpdateKeepsWellFormed(t, ById(id), g);
    match Lookup(t, other)
    case Ok(x) =>
      var i :| 0 <= i < |t.rows| && t.rows[i] == x;
      assert t'.rows[i] == x;
      LookupIsMembership(t, other, x);
      LookupIsMembership(t', other, x);
    case Err(_) =>
      forall y | y in t'.rows ensures y.id != other {
        var i :| 0 <= i < |t'.rows| && t'.rows[i] == y;
      }
  }

  /** update by id, all at once: the target rewritten, every other row kept, ids as they were. */
  lemma UpdateById<F(!new)>(t: Table<F>, id: int, g: F -> F)
    requires WellFormed(t)
    ensures WellFormed(UpdateWhere(t, ById(id), g))
    ensures Lookup(t, id).Ok? ==>
              && Updated(t, ById(id), g) == [Row(id, g(Lookup(t, id).value.fields))]
              && Lookup(UpdateWhere(t, ById(id), g), id) == Ok(Row(id, g(Lookup(t, id).value.fields)))
    ensures Lookup(t, id).Err? ==> Updated(t, ById(id), g) == [] && UpdateWhere(t, ById(id), g) == t
    ensures forall other :: other != id ==> Lookup(UpdateWhere(t, ById(id), g), other) == Lookup(t, other)
  {
    UpdateKeepsWellFormed(t, ById(id), g);
    UpdatedById(t, id, g);
    UpdateByIdTarget(t, id, g);
    forall other | other != id ensures Lookup(UpdateWhere(t, ById(id), g), other) == Lookup(t, other) {
      UpdateByIdOthers(t, id, g, other);
    }
  }

  /** delete by id: that row is gone, every other row is still found, and `delete` returns what it removed. */
  lemma DeleteByIdFacts<F(!new)>(t: Table<F>, id: int)
    requires WellFormed(t)
    ensures WellFormed(DeleteWhere(t, ById(id)))
    ensures Lookup(DeleteWhere(t, ById(id)), id).Err?
    ensures FindSome(t.rows, ById(id)) == match Lookup(t, id) case Ok(x) => [x] case Err(_) => []
    ensures forall other :: other != id ==> Lookup(DeleteWhere(t, ById(id)), other) == Lookup(t, other)
  {
    var t' := DeleteWhere(t, ById(id));
    FindSomeKeepsOrder(t, Not(ById(id)));
    SelectById(t, id);
    forall other | other != id ensures Lookup(t', other) == Lookup(t, other) {
      match Lookup(t, other)
      case Ok(x) =>
        LookupIsMembership(t, other, x);
        LookupIsMembership(t', other, x);
      case Err(_) =>
    }
  }
}
