/**
 * The seat ledger of a table (controllers/seat.controller.js): adding seats
 * after the last one, creating seats 1..n, all-or-nothing removal of
 * AVAILABLE seats, listing and status updates.
 */
module Seats {
  import opened Common
  import opened Store
  import opened Schema
  import Ordering

  /** The seat status codes. */
  const BOOKED: int := 1
  const CANCEL: int := 2
  const CLEANING: int := 3
  const AVAILABLE: int := 4

  /** The state each status code stands for. */
  datatype SeatState = Booked | Cancel | Cleaning | Available {
    function Code(): int {
      match this
      case Booked => BOOKED
      case Cancel => CANCEL
      case Cleaning => CLEANING
      case Available => AVAILABLE
    }
  }

  /**
   * `Object.values(SEAT_STATUS).includes(code)`, with the state it names:
   * exactly the four codes are accepted, and each names one state.
   */
  function StateOf(code: int): (r: Option<SeatState>)
    ensures r.Some? <==> code in {BOOKED, CANCEL, CLEANING, AVAILABLE}
    ensures r.Some? ==> r.value.Code() == code
  {
    if code == BOOKED then Some(Booked)
    else if code == CANCEL then Some(Cancel)
    else if code == CLEANING then Some(Cleaning)
    else if code == AVAILABLE then Some(Available)
    else None
  }

  /** The codes are distinct: every state reads back from its own code. */
  lemma StateOfCode(s: SeatState)
    ensures StateOf(s.Code()) == Some(s)
  {
  }

  /**
   * The highest seat number of the table, as `findOne` ordered by
   * seat_number DESC finds it, or None when the table has no seat.
   */
  function LastSeatNumber(rows: seq<Row<Seat>>, tableId: int): (r: Option<int>)
    ensures r.None? <==> forall i :: 0 <= i < |rows| ==> rows[i].val.tableId != tableId
    ensures r.Some? ==> exists i :: 0 <= i < |rows| && rows[i].val.tableId == tableId
                                    && rows[i].val.seatNumber == r.value
    ensures r.Some? ==> forall i :: 0 <= i < |rows| && rows[i].val.tableId == tableId
                                    ==> rows[i].val.seatNumber <= r.value
  {
    if rows == [] then None
    else
      var rest := LastSeatNumber(rows[1..], tableId);
      var head := rows[0].val;
      if head.tableId != tableId then
        assert forall i :: 1 <= i < |rows| ==> rows[i] == rows[1..][i - 1];
        rest
      else if rest.None? || rest.value < head.seatNumber then
        Some(head.seatNumber)
      else
        assert forall i :: 1 <= i < |rows| ==> rows[i] == rows[1..][i - 1];
        rest
  }

  /** The first seat number addSeatsToTable hands out: after the last, or 1. */
  function StartNumber(rows: seq<Row<Seat>>, tableId: int): int {
    match LastSeatNumber(rows, tableId)
    case None => 1
    case Some(n) => n + 1
  }

  /** Some seat of the table is numbered in [lo, hi). */
  predicate NumberTaken(rows: seq<Row<Seat>>, tableId: int, lo: int, hi: int) {
    exists x :: x in rows && x.val.tableId == tableId && lo <= x.val.seatNumber < hi
  }

  /**
   * `count` seats on the table numbered `first`, `first + 1`, ..., each with
   * `status` and not booked.
   */
  function SeatRun(tableId: int, first: int, count: nat, status: Option<int>): seq<Seat> {
    seq(count, i requires 0 <= i < count => Seat(tableId, first + i, status, false))
  }

  /** No seat of the table is numbered at or after StartNumber. */
  lemma StartNumberIsFree(rows: seq<Row<Seat>>, tableId: int, hi: int)
    ensures !NumberTaken(rows, tableId, StartNumber(rows, tableId), hi)
  {
    if x :| x in rows && x.val.tableId == tableId && StartNumber(rows, tableId) <= x.val.seatNumber < hi {
      var i :| 0 <= i < |rows| && rows[i] == x;
      assert false;
    }
  }

  /** A stored row of a run: its key fixes its seat number. */
  lemma StoredRunRow(idFirst: int, tableId: int, from: int, count: nat, status: Option<int>, x: Row<Seat>)
    requires x in Numbered(idFirst, SeatRun(tableId, from, count, status))
    ensures idFirst <= x.id < idFirst + count
    ensures x.val == Seat(tableId, from + (x.id - idFirst), status, false)
  {
    var added := Numbered(idFirst, SeatRun(tableId, from, count, status));
    var i :| 0 <= i < |added| && added[i] == x;
  }

  /**
   * The unique index accepts a run of seats on one table, stored under fresh
   * keys, exactly when none of the table's seats already has one of its
   * numbers.
   */
  lemma {:induction false} BatchKeepsKeysUnique(rows: seq<Row<Seat>>, idFirst: int, tableId: int, from: int,
                                                count: nat, status: Option<int>)
    requires SeatKeysUnique(rows)
    requires forall x :: x in rows ==> x.id < idFirst
    ensures SeatKeysUnique(rows + Numbered(idFirst, SeatRun(tableId, from, count, status)))
        <==> !NumberTaken(rows, tableId, from, from + count)
  {
    var added := Numbered(idFirst, SeatRun(tableId, from, count, status));
    if NumberTaken(rows, tableId, from, from + count) {
      var x :| x in rows && x.val.tableId == tableId && from <= x.val.seatNumber < from + count;
      var y := added[x.val.seatNumber - from];
      assert y in rows + added && x in rows + added && x.id != y.id;
    } else {
      forall x, y | x in rows + added && y in rows + added && x.id != y.id && x.val.tableId == y.val.tableId
        ensures x.val.seatNumber != y.val.seatNumber
      {
        if x in added {
          StoredRunRow(idFirst, tableId, from, count, status, x);
        }
        if y in added {
          StoredRunRow(idFirst, tableId, from, count, status, y);
        }
      }
    }
  }

  /** The controller's loop: the seat records of a run, pushed one by one. */
  method SeatBatch(tableId: int, first: int, count: nat, status: Option<int>) returns (batch: seq<Seat>)
    ensures batch == SeatRun(tableId, first, count, status)
  {
    batch := [];
    var i := 0;
    while i < count
      invariant 0 <= i <= count && |batch| == i
      invariant forall k :: 0 <= k < i ==> batch[k] == Seat(tableId, first + k, status, false)
    {
      batch := batch + [Seat(tableId, first + i, status, false)];
      i := i + 1;
    }
  }

  /**
   * addSeatsToTable: after the checks for a positive count (400) and a
   * known table (404), `seatCount` AVAILABLE seats numbered on from the
   * table's last seat (or from 1) are inserted; nothing else changes and
   * (table_id, seat_number) stays unique.
   */
  method AddSeatsToTable(tables: Relation<Table>, seats: Relation<Seat>, tableId: int, seatCount: Option<int>)
    returns (r: Reply<seq<Row<Seat>>>)
    requires tables.Valid() && seats.Valid() && SeatKeysUnique(seats.rows)
    modifies seats
    ensures seats.Valid() && SeatKeysUnique(seats.rows)
    ensures !Positive(seatCount) ==> r == Fail(400, "seatCount must be greater than 0") && unchanged(seats)
    ensures Positive(seatCount) && !Has(tables.rows, tableId) ==> r == Fail(404, "Table not found") && unchanged(seats)
    ensures Positive(seatCount) && Has(tables.rows, tableId) ==>
      && r == Ok(201, Numbered(old(seats.nextId),
                               SeatRun(tableId, StartNumber(old(seats.rows), tableId), seatCount.value, Some(AVAILABLE))))
      && seats.rows == old(seats.rows) + r.data
  {
    if !Positive(seatCount) {
      return Fail(400, "seatCount must be greater than 0");
    }
    if !Has(tables.rows, tableId) {
      return Fail(404, "Table not found");
    }
    var startNumber := StartNumber(seats.rows, tableId);
    var batch := SeatBatch(tableId, startNumber, seatCount.value, Some(AVAILABLE));
    StartNumberIsFree(seats.rows, tableId, startNumber + seatCount.value);
    BatchKeepsKeysUnique(seats.rows, seats.nextId, tableId, startNumber, seatCount.value, Some(AVAILABLE));
    var created := seats.BulkCreate(batch);
    r := Ok(201, created);
  }

  /**
   * createSeatsForTable: after the same checks, seats 1..seatCount are
   * inserted, all AVAILABLE, without looking at the table's existing seats;
   * if one of those numbers is already taken the unique index refuses the
   * whole insert and the handler answers 500 with nothing changed.
   */
  method CreateSeatsForTable(tables: Relation<Table>, seats: Relation<Seat>, tableId: int, seatCount: Option<int>)
    returns (r: Reply<seq<Row<Seat>>>)
    requires tables.Valid() && seats.Valid() && SeatKeysUnique(seats.rows)
    modifies seats
    ensures seats.Valid() && SeatKeysUnique(seats.rows)
    ensures !Positive(seatCount) ==> r == Fail(400, "seatCount must be greater than 0") && unchanged(seats)
    ensures Positive(seatCount) && !Has(tables.rows, tableId) ==> r == Fail(404, "Table not found") && unchanged(seats)
    ensures Positive(seatCount) && Has(tables.rows, tableId) && NumberTaken(old(seats.rows), tableId, 1, seatCount.value + 1)
      ==> r == Fail(500, "Failed to create seats") && unchanged(seats)
    ensures Positive(seatCount) && Has(tables.rows, tableId) && !NumberTaken(old(seats.rows), tableId, 1, seatCount.value + 1) ==>
      && r == Ok(201, Numbered(old(seats.nextId), SeatRun(tableId, 1, seatCount.value, Some(AVAILABLE))))
      && seats.rows == old(seats.rows) + r.data
  {
    if !Positive(seatCount) {
      return Fail(400, "seatCount must be greater than 0");
    }
    if !Has(tables.rows, tableId) {
      return Fail(404, "Table not found");
    }
    var batch := SeatBatch(tableId, 1, seatCount.value, Some(AVAILABLE));
    BatchKeepsKeysUnique(seats.rows, seats.nextId, tableId, 1, seatCount.value, Some(AVAILABLE));
    if !SeatKeysUnique(seats.rows + Numbered(seats.nextId, batch)) {
      return Fail(500, "Failed to create seats");
    }
    var created := seats.BulkCreate(batch);
    r := Ok(201, created);
  }

  /** The answer of removeSeatsFromTable. */
  datatype Removal =
    | Removed(removedSeatIds: seq<int>)
    | Rejected(code: int, message: string)
    | Blocked(blockedSeatIds: seq<int>)

  /** The table's seats whose id is listed: `findAll({ where: { id: seatIds, table_id } })`. */
  function Listed(rows: seq<Row<Seat>>, tableId: int, seatIds: seq<int>): seq<Row<Seat>> {
    Where(rows, (x: Row<Seat>) => x.id in seatIds && x.val.tableId == tableId)
  }

  /** The ids of the seats among `found` that are not AVAILABLE, in order. */
  function BlockedIds(found: seq<Row<Seat>>): (r: seq<int>)
    ensures forall id :: id in r <==> exists x :: x in found && x.id == id && x.val.status != Some(AVAILABLE)
  {
    if found == [] then []
    else
      var rest := BlockedIds(found[1..]);
      assert forall x :: x in found <==> x == found[0] || x in found[1..];
      if found[0].val.status != Some(AVAILABLE) then [found[0].id] + rest else rest
  }

  /** The ids of `found`, in order. */
  function Ids(found: seq<Row<Seat>>): (r: seq<int>)
    ensures |r| == |found| && forall i :: 0 <= i < |found| ==> r[i] == found[i].id
  {
    seq(|found|, i requires 0 <= i < |found| => found[i].id)
  }

  /**
   * The seats as the ORM loads them under models/seat.model.js, which
   * declares no `status`: the attribute reads as undefined on every seat.
   */
  function AsLoaded(found: seq<Row<Seat>>): (r: seq<Row<Seat>>)
    ensures |r| == |found|
    ensures forall i :: 0 <= i < |found| ==> r[i] == Row(found[i].id, found[i].val.(status := None))
  {
    seq(|found|, i requires 0 <= i < |found| => Row(found[i].id, found[i].val.(status := None)))
  }

  /** With `status` undefined no seat is AVAILABLE, so every found seat is blocked. */
  lemma {:induction false} UndeclaredStatusBlocksAll(found: seq<Row<Seat>>)
    ensures BlockedIds(AsLoaded(found)) == Ids(found)
    decreases |found|
  {
    if found != [] {
      assert AsLoaded(found)[1..] == AsLoaded(found[1..]);
      assert Ids(found) == [found[0].id] + Ids(found[1..]);
      UndeclaredStatusBlocksAll(found[1..]);
    }
  }

  /**
   * removeSeatsFromTable as the code stands against models/seat.model.js:
   * the same two 400 checks, and then every listed seat is reported as
   * blocked, since its status reads undefined. Nothing is ever removed.
   */
  method RemoveSeatsFromTableAsWritten(seats: Relation<Seat>, tableId: int, seatIds: Option<seq<int>>)
    returns (r: Removal)
    ensures (seatIds.None? || seatIds.value == []) ==> r == Rejected(400, "seatIds must be a non-empty array")
    ensures seatIds.Some? && seatIds.value != [] && |Listed(seats.rows, tableId, seatIds.value)| != |seatIds.value| ==>
      r == Rejected(400, "One or more seatIds are invalid or not linked to this table")
    ensures seatIds.Some? && seatIds.value != [] && |Listed(seats.rows, tableId, seatIds.value)| == |seatIds.value| ==>
      r == Blocked(Ids(Listed(seats.rows, tableId, seatIds.value))) && r.blockedSeatIds != []
    ensures !r.Removed?
  {
    if seatIds.None? || seatIds.value == [] {
      return Rejected(400, "seatIds must be a non-empty array");
    }
    var ids := seatIds.value;
    var found := Listed(seats.rows, tableId, ids);
    if |found| != |ids| {
      return Rejected(400, "One or more seatIds are invalid or not linked to this table");
    }
    var blocked := BlockedIds(AsLoaded(found));
    UndeclaredStatusBlocksAll(found);
    r := Blocked(blocked);
  }

  /**
   * removeSeatsFromTable: a missing or empty id list is refused; so is a
   * list that does not match exactly as many seats of the table as it has
   * entries; if a matched seat is not AVAILABLE the ids of all such seats are
   * returned and nothing is removed; otherwise exactly the listed seats of
   * the table are deleted and every other seat stays as it was.
   */
  method RemoveSeatsFromTable(seats: Relation<Seat>, tableId: int, seatIds: Option<seq<int>>)
    returns (r: Removal)
    requires seats.Valid() && SeatKeysUnique(seats.rows)
    modifies seats
    ensures seats.Valid() && SeatKeysUnique(seats.rows)
    ensures (seatIds.None? || seatIds.value == []) ==>
      r == Rejected(400, "seatIds must be a non-empty array") && unchanged(seats)
    ensures seatIds.Some? && seatIds.value != [] && |Listed(old(seats.rows), tableId, seatIds.value)| != |seatIds.value| ==>
      r == Rejected(400, "One or more seatIds are invalid or not linked to this table") && unchanged(seats)
    ensures (&& seatIds.Some? && seatIds.value != []
             && |Listed(old(seats.rows), tableId, seatIds.value)| == |seatIds.value|
             && BlockedIds(Listed(old(seats.rows), tableId, seatIds.value)) != []) ==>
      r == Blocked(BlockedIds(Listed(old(seats.rows), tableId, seatIds.value))) && unchanged(seats)
    ensures r.Removed? <==>
      && seatIds.Some? && seatIds.value != []
      && |Listed(old(seats.rows), tableId, seatIds.value)| == |seatIds.value|
      && BlockedIds(Listed(old(seats.rows), tableId, seatIds.value)) == []
    ensures r.Removed? ==>
      && r.removedSeatIds == seatIds.value
      && seats.nextId == old(seats.nextId)
      && (forall x :: x in seats.rows ==> x in old(seats.rows))
      && (forall x :: x in old(seats.rows) ==>
            (x in seats.rows <==> !(x.id in seatIds.value && x.val.tableId == tableId)))
  {
    if seatIds.None? || seatIds.value == [] {
      return Rejected(400, "seatIds must be a non-empty array");
    }
    var ids := seatIds.value;
    var found := Listed(seats.rows, tableId, ids);
    if |found| != |ids| {
      return Rejected(400, "One or more seatIds are invalid or not linked to this table");
    }
    var blocked := BlockedIds(found);
    if blocked != [] {
      return Blocked(blocked);
    }
    seats.Destroy((x: Row<Seat>) => x.id in ids && x.val.tableId == tableId);
    r := Removed(ids);
  }

  /** Seats in ascending seat number. */
  function SeatNumberLe(a: Row<Seat>, b: Row<Seat>): bool {
    a.val.seatNumber <= b.val.seatNumber
  }

  /**
   * getSeatsByTable: the table's seats and no others, ascending by seat
   * number (an unknown table just has none).
   */
  function SeatsByTable(rows: seq<Row<Seat>>, tableId: int): (r: seq<Row<Seat>>)
    ensures Ordering.SortedBy(r, SeatNumberLe)
    ensures forall x :: x in r <==> x in rows && x.val.tableId == tableId
    ensures |r| == |Where(rows, (x: Row<Seat>) => x.val.tableId == tableId)|
  {
    var mine := Where(rows, (x: Row<Seat>) => x.val.tableId == tableId);
    var r := Ordering.SortBy(mine, SeatNumberLe);
    forall x ensures x in r <==> x in rows && x.val.tableId == tableId {
      Ordering.SortByMembers(mine, SeatNumberLe, x);
      if x in rows && x.val.tableId == tableId {
        var i :| 0 <= i < |rows| && rows[i] == x;
      }
    }
    assert |r| == |multiset(r)| == |multiset(mine)|;
    r
  }

  /**
   * updateSeatStatus: a status other than the four codes is refused (400),
   * an unknown seat is 404; otherwise that seat's status, and nothing else,
   * changes.
   */
  method UpdateSeatStatus(seats: Relation<Seat>, seatId: int, status: Option<int>) returns (r: Reply<Row<Seat>>)
    requires seats.Valid() && SeatKeysUnique(seats.rows)
    modifies seats
    ensures seats.Valid() && SeatKeysUnique(seats.rows)
    ensures (status.None? || StateOf(status.value).None?) ==> r == Fail(400, "Invalid seat status") && unchanged(seats)
    ensures status.Some? && StateOf(status.value).Some? && !Has(old(seats.rows), seatId) ==>
      r == Fail(404, "Seat not found") && unchanged(seats)
    ensures status.Some? && StateOf(status.value).Some? && Has(old(seats.rows), seatId) ==>
      var i := IndexOf(old(seats.rows), seatId).value;
      && r == Ok(200, Row(seatId, old(seats.rows)[i].val.(status := status)))
      && seats.rows == old(seats.rows)[i := r.data]
      && seats.nextId == old(seats.nextId)
  {
    if status.None? || StateOf(status.value).None? {
      return Fail(400, "Invalid seat status");
    }
    var found := IndexOf(seats.rows, seatId);
    if found.None? {
      return Fail(404, "Seat not found");
    }
    var i := found.value;
    var updated := seats.rows[i].val.(status := status);
    ghost var before := seats.rows;
    seats.Save(i, updated);
    assert forall x :: x in seats.rows ==> x in before || x == Row(seatId, updated);
    r := Ok(200, Row(seatId, updated));
  }
}
