/**
 * The relational store the controllers talk to through the ORM. Every
 * database table is a `Relation`: its rows in id order and the next value of
 * its auto-increment id. The operations are the ORM calls the controllers
 * make: `findByPk`, `findAll({ where })`, `create`, `bulkCreate`, `save`,
 * `destroy`.
 */
module Store {
  import opened Common

  /** A stored row: its primary key and its columns. */
  datatype Row<T> = Row(id: int, val: T)

  /** Primary keys strictly increase along the table (so they are unique). */
  ghost predicate IdsAscending<T>(rows: seq<Row<T>>) {
    forall i, j :: 0 <= i < j < |rows| ==> rows[i].id < rows[j].id
  }

  /** The rows `bulkCreate` stores for `vals`: consecutive keys from `first`. */
  function Numbered<T>(first: int, vals: seq<T>): (r: seq<Row<T>>)
    ensures |r| == |vals|
    ensures forall i :: 0 <= i < |r| ==> r[i] == Row(first + i, vals[i])
    decreases |vals|
  {
    if vals == [] then [] else [Row(first, vals[0])] + Numbered(first + 1, vals[1..])
  }

  /** Where the row with key `id` sits, as `findByPk` finds it. */
  function IndexOf<T>(rows: seq<Row<T>>, id: int): (r: Option<nat>)
    ensures r.Some? ==> r.value < |rows| && rows[r.value].id == id
    ensures r.None? ==> forall i :: 0 <= i < |rows| ==> rows[i].id != id
  {
    if rows == [] then None
    else if rows[0].id == id then Some(0)
    else match IndexOf(rows[1..], id)
      case None => None
      case Some(k) => Some(k + 1)
  }

  /** Whether `findByPk(id)` finds a row. */
  predicate Has<T>(rows: seq<Row<T>>, id: int) {
    IndexOf(rows, id).Some?
  }

  /** The rows that satisfy `p`, in table order: a `findAll({ where })`. */
  function Where<T>(rows: seq<Row<T>>, p: Row<T> -> bool): (r: seq<Row<T>>)
    ensures |r| <= |rows|
    ensures forall i :: 0 <= i < |r| ==> r[i] in rows && p(r[i])
    ensures forall i :: 0 <= i < |rows| && p(rows[i]) ==> rows[i] in r
    ensures IdsAscending(rows) ==> IdsAscending(r)
  {
    if rows == [] then []
    else
      var rest := Where(rows[1..], p);
      assert forall i :: 0 <= i < |rest| ==> rest[i] in rows[1..];
      if p(rows[0]) then [rows[0]] + rest else rest
  }

  /** In a table with ascending keys each row occurs once. */
  lemma {:induction false} AscendingOccursOnce<T>(rows: seq<Row<T>>, x: Row<T>)
    requires IdsAscending(rows)
    ensures multiset(rows)[x] <= 1
    decreases |rows|
  {
    if rows != [] {
      assert rows == [rows[0]] + rows[1..];
      AscendingOccursOnce(rows[1..], x);
      if rows[0] == x {
        assert x !in rows[1..];
      }
    }
  }

  /**
   * Any reordering of a table with ascending keys holds rows with different
   * keys at different positions.
   */
  lemma PermutedKeysDistinct<T>(rows: seq<Row<T>>, r: seq<Row<T>>, i: int, j: int)
    requires IdsAscending(rows) && multiset(r) == multiset(rows)
    requires 0 <= i < j < |r|
    ensures r[i].id != r[j].id
  {
    var x, y := r[i], r[j];
    assert x in multiset(rows) && y in multiset(rows);
    if x == y {
      assert r == r[..j] + [y] + r[j + 1..];
      assert x in r[..j];
      assert multiset(r)[x] >= 2;
      AscendingOccursOnce(rows, x);
    } else {
      var a :| 0 <= a < |rows| && rows[a] == x;
      var b :| 0 <= b < |rows| && rows[b] == y;
      assert a != b;
    }
  }

  /**
   * A database table: its rows in primary-key order and the next key its
   * sequence hands out. Keys start at 1, so a stored key is always truthy.
   */
  class Relation<T> {
    var rows: seq<Row<T>>
    var nextId: int

    ghost predicate Valid()
      reads this
    {
      && 1 <= nextId
      && IdsAscending(rows)
      && (forall i :: 0 <= i < |rows| ==> 1 <= rows[i].id < nextId)
    }

    /** An empty table. */
    constructor ()
      ensures Valid() && rows == [] && nextId == 1
    {
      rows, nextId := [], 1;
    }

    /** `Model.create`: one row under the next key. */
    method Create(v: T) returns (id: int)
      requires Valid()
      modifies this
      ensures Valid()
      ensures id == old(nextId) && nextId == old(nextId) + 1
      ensures rows == old(rows) + [Row(id, v)]
    {
      id := nextId;
      rows := rows + [Row(id, v)];
      nextId := nextId + 1;
    }

    /** `Model.bulkCreate`: the rows under consecutive keys, in order. */
    method BulkCreate(vals: seq<T>) returns (created: seq<Row<T>>)
      requires Valid()
      modifies this
      ensures Valid()
      ensures created == Numbered(old(nextId), vals)
      ensures nextId == old(nextId) + |vals|
      ensures rows == old(rows) + created
    {
      created := Numbered(nextId, vals);
      rows := rows + created;
      nextId := nextId + |vals|;
    }

    /** `instance.save()` after changing the columns of the row at `i`. */
    method Save(i: nat, v: T)
      requires Valid() && i < |rows|
      modifies this
      ensures Valid() && nextId == old(nextId)
      ensures rows == old(rows)[i := Row(old(rows)[i].id, v)]
    {
      rows := rows[i := Row(rows[i].id, v)];
    }

    /** `Model.update(values, { where })`: every row that satisfies `p` takes `f` of its columns. */
    method Update(p: Row<T> -> bool, f: T -> T)
      requires Valid()
      modifies this
      ensures Valid() && nextId == old(nextId)
      ensures |rows| == |old(rows)|
      ensures forall i :: 0 <= i < |rows| ==>
        rows[i] == (if p(old(rows)[i]) then Row(old(rows)[i].id, f(old(rows)[i].val)) else old(rows)[i])
    {
      var before := rows;
      rows := seq(|before|, i requires 0 <= i < |before| =>
        if p(before[i]) then Row(before[i].id, f(before[i].val)) else before[i]);
      assert forall i :: 0 <= i < |rows| ==> rows[i].id == before[i].id;
    }

    /** `Model.destroy({ where })`: removes every row that satisfies `p`. */
    method Destroy(p: Row<T> -> bool)
      requires Valid()
      modifies this
      ensures Valid() && nextId == old(nextId)
      ensures rows == Where(old(rows), (x: Row<T>) => !p(x))
    {
      rows := Where(rows, (x: Row<T>) => !p(x));
    }
  }
}
