/**
 * The dining tables of a hotel (controllers/table.controller.js): adding
 * tables numbered on from the hotel's last one, the per-floor availability
 * summary, and deleting a table.
 */
module Tables {
  import opened Common
  import opened Store
  import opened Schema

  /**
   * The highest table number of the hotel, as `findOne` ordered by
   * table_number DESC finds it, or None when the hotel has no table.
   */
  function LastTableNumber(rows: seq<Row<Table>>, hotelId: int): (r: Option<int>)
    ensures r.None? <==> forall i :: 0 <= i < |rows| ==> rows[i].val.hotelId != hotelId
    ensures r.Some? ==> exists i :: 0 <= i < |rows| && rows[i].val.hotelId == hotelId
                                    && rows[i].val.tableNumber == r.value
    ensures r.Some? ==> forall i :: 0 <= i < |rows| && rows[i].val.hotelId == hotelId
                                    ==> rows[i].val.tableNumber <= r.value
  {
    if rows == [] then None
    else
      var rest := LastTableNumber(rows[1..], hotelId);
      var head := rows[0].val;
      if head.hotelId != hotelId then
        assert forall i :: 1 <= i < |rows| ==> rows[i] == rows[1..][i - 1];
        rest
      else if rest.None? || rest.value < head.tableNumber then
        Some(head.tableNumber)
      else
        assert forall i :: 1 <= i < |rows| ==> rows[i] == rows[1..][i - 1];
        rest
  }

  /** The first number createTablesForHotel hands out: after the last, or 1. */
  function StartTableNumber(rows: seq<Row<Table>>, hotelId: int): int {
    match LastTableNumber(rows, hotelId)
    case None => 1
    case Some(n) => n + 1
  }

  /** `count` tables of the hotel numbered `first`, `first + 1`, ..., on no floor. */
  function TableRun(hotelId: int, first: int, count: nat): seq<Table> {
    seq(count, i requires 0 <= i < count => Table(hotelId, None, None, first + i))
  }

  /** The controller's loop: the table records, pushed one by one. */
  method TableBatch(hotelId: int, first: int, count: nat) returns (batch: seq<Table>)
    ensures batch == TableRun(hotelId, first, count)
  {
    batch := [];
    var i := 0;
    while i < count
      invariant 0 <= i <= count && |batch| == i
      invariant forall k :: 0 <= k < i ==> batch[k] == Table(hotelId, None, None, first + k)
    {
      batch := batch + [Table(hotelId, None, None, first + i)];
      i := i + 1;
    }
  }

  /**
   * Every table the run adds is numbered above every table the hotel
   * already has, and the run's numbers are pairwise distinct, so no number
   * of the hotel is repeated.
   */
  lemma NewTableNumbersFresh(rows: seq<Row<Table>>, hotelId: int, count: nat)
    ensures forall x, t ::
              (x in rows && x.val.hotelId == hotelId && t in TableRun(hotelId, StartTableNumber(rows, hotelId), count))
              ==> x.val.tableNumber < t.tableNumber
    ensures forall i, j :: 0 <= i < j < count ==>
      TableRun(hotelId, StartTableNumber(rows, hotelId), count)[i].tableNumber
        < TableRun(hotelId, StartTableNumber(rows, hotelId), count)[j].tableNumber
  {
    var start := StartTableNumber(rows, hotelId);
    var run := TableRun(hotelId, start, count);
    forall x, t | x in rows && x.val.hotelId == hotelId && t in run
      ensures x.val.tableNumber < t.tableNumber
    {
      var i :| 0 <= i < |rows| && rows[i] == x;
      var k :| 0 <= k < count && run[k] == t;
    }
  }

  /** Tables stored without a floor never clash in the unique index. */
  lemma FloorlessTablesKeepKeysUnique(rows: seq<Row<Table>>, idFirst: int, hotelId: int, first: int, count: nat)
    requires TableKeysUnique(rows)
    requires forall x :: x in rows ==> x.id < idFirst
    ensures TableKeysUnique(rows + Numbered(idFirst, TableRun(hotelId, first, count)))
  {
    var added := Numbered(idFirst, TableRun(hotelId, first, count));
    forall x | x in added ensures x.val.floorId.None? {
      var i :| 0 <= i < |added| && added[i] == x;
    }
  }

  /**
   * createTablesForHotel: a missing or non-positive tableCount is 400, an
   * unknown hotel 404; otherwise exactly tableCount tables of the hotel are
   * inserted, numbered consecutively from one past its highest table number
   * (or from 1), without a floor, and nothing else changes.
   */
  method CreateTablesForHotel(hotels: Relation<Hotel>, tables: Relation<Table>, hotelId: int, tableCount: Option<int>)
    returns (r: Reply<seq<Row<Table>>>)
    requires hotels.Valid() && tables.Valid() && TableKeysUnique(tables.rows)
    modifies tables
    ensures tables.Valid() && TableKeysUnique(tables.rows)
    ensures !Positive(tableCount) ==> r == Fail(400, "tableCount must be greater than 0") && unchanged(tables)
    ensures Positive(tableCount) && !Has(hotels.rows, hotelId) ==> r == Fail(404, "Hotel not found") && unchanged(tables)
    ensures Positive(tableCount) && Has(hotels.rows, hotelId) ==>
      && r == Ok(201, Numbered(old(tables.nextId),
                               TableRun(hotelId, StartTableNumber(old(tables.rows), hotelId), tableCount.value)))
      && tables.rows == old(tables.rows) + r.data
  {
    if !Positive(tableCount) {
      return Fail(400, "tableCount must be greater than 0");
    }
    if !Has(hotels.rows, hotelId) {
      return Fail(404, "Hotel not found");
    }
    var startNumber := StartTableNumber(tables.rows, hotelId);
    var batch := TableBatch(hotelId, startNumber, tableCount.value);
    FloorlessTablesKeepKeysUnique(tables.rows, tables.nextId, hotelId, startNumber, tableCount.value);
    var created := tables.BulkCreate(batch);
    r := Ok(201, created);
  }

  /** No record of a run carries a floor: each leaves the NOT NULL floor_id empty. */
  lemma RunBreaksNotNull(hotelId: int, first: int, count: nat)
    ensures forall t :: t in TableRun(hotelId, first, count) ==> !TableNotNull(t)
    ensures count > 0 ==> !TableNotNull(TableRun(hotelId, first, count)[0])
  {
  }

  /**
   * createTablesForHotel as the code stands, against the tables model: the
   * same 400 and 404 checks, then a batch whose records have no floor_id.
   * The database refuses the NOT NULL column for the whole batch, which is
   * not a unique-index error, so the answer is 500 and nothing is stored.
   */
  method CreateTablesForHotelAsWritten(hotels: Relation<Hotel>, tables: Relation<Table>, hotelId: int,
                                       tableCount: Option<int>)
    returns (r: Reply<seq<Row<Table>>>)
    ensures !Positive(tableCount) ==> r == Fail(400, "tableCount must be greater than 0")
    ensures Positive(tableCount) && !Has(hotels.rows, hotelId) ==> r == Fail(404, "Hotel not found")
    ensures Positive(tableCount) && Has(hotels.rows, hotelId) ==> r == Fail(500, "Failed to create tables")
  {
    if !Positive(tableCount) {
      return Fail(400, "tableCount must be greater than 0");
    }
    if !Has(hotels.rows, hotelId) {
      return Fail(404, "Hotel not found");
    }
    var batch := TableBatch(hotelId, StartTableNumber(tables.rows, hotelId), tableCount.value);
    RunBreaksNotNull(hotelId, StartTableNumber(tables.rows, hotelId), tableCount.value);
    assert !TableNotNull(batch[0]);
    r := Fail(500, "Failed to create tables");
  }

  /** A seat as the summary shows it. */
  datatype SeatView = SeatView(seatId: int, seatNumber: int, isBooked: bool)

  /** A table as the summary shows it, with its seats. */
  datatype TableView = TableView(tableId: int, tableNumber: int, seats: seq<SeatView>)

  /** One floor of getTablesByHotel's answer: its tables and their counts. */
  datatype FloorSummary = FloorSummary(
    floorId: int,
    floorNumber: int,
    tables: seq<TableView>,
    numberOfTables: nat,
    numberOfSeats: nat,
    availableOfTables: nat,
    availableOfSeats: nat)

  /** getTablesByHotel's answer: the hotel's key and its floors. */
  datatype HotelLayout = HotelLayout(hotelTableId: int, floors: seq<FloorSummary>)

  /** The hotel's floors (`hotel.floors`). */
  function FloorsOf(floors: seq<Row<Floor>>, hotelId: int): seq<Row<Floor>> {
    Where(floors, (x: Row<Floor>) => x.val.hotelId == hotelId)
  }

  /** The floor's tables (`floor.tables`). */
  function TablesOnFloor(tables: seq<Row<Table>>, floorId: int): seq<Row<Table>> {
    Where(tables, (x: Row<Table>) => x.val.floorId == Some(floorId))
  }

  /** The table's seats (`table.seats`). */
  function SeatsAt(seats: seq<Row<Seat>>, tableId: int): seq<Row<Seat>> {
    Where(seats, (x: Row<Seat>) => x.val.tableId == tableId)
  }

  /** The seats shown for a table, one view per seat in order. */
  function SeatViews(ss: seq<Row<Seat>>): seq<SeatView> {
    seq(|ss|, j requires 0 <= j < |ss| => SeatView(ss[j].id, ss[j].val.seatNumber, ss[j].val.isBooked))
  }

  /** The tables shown for a floor, each with its seats. */
  function TableViews(ts: seq<Row<Table>>, seats: seq<Row<Seat>>): seq<TableView> {
    seq(|ts|, i requires 0 <= i < |ts| => TableView(ts[i].id, ts[i].val.tableNumber, SeatViews(SeatsAt(seats, ts[i].id))))
  }

  /** The number of seats in `ss` that are not booked. */
  function Unbooked(ss: seq<Row<Seat>>): nat {
    if ss == [] then 0
    else Unbooked(ss[..|ss| - 1]) + (if ss[|ss| - 1].val.isBooked then 0 else 1)
  }

  /** Some seat in `ss` is not booked. */
  predicate HasFreeSeat(ss: seq<Row<Seat>>) {
    exists j :: 0 <= j < |ss| && !ss[j].val.isBooked
  }

  /** The seats of the tables `ts`, counted table by table. */
  function SeatTotal(ts: seq<Row<Table>>, seats: seq<Row<Seat>>): nat {
    if ts == [] then 0
    else SeatTotal(ts[..|ts| - 1], seats) + |SeatsAt(seats, ts[|ts| - 1].id)|
  }

  /** The unbooked seats of the tables `ts`. */
  function FreeSeatTotal(ts: seq<Row<Table>>, seats: seq<Row<Seat>>): nat {
    if ts == [] then 0
    else FreeSeatTotal(ts[..|ts| - 1], seats) + Unbooked(SeatsAt(seats, ts[|ts| - 1].id))
  }

  /** The tables among `ts` with at least one unbooked seat. */
  function FreeTableTotal(ts: seq<Row<Table>>, seats: seq<Row<Seat>>): nat {
    if ts == [] then 0
    else FreeTableTotal(ts[..|ts| - 1], seats) + (if HasFreeSeat(SeatsAt(seats, ts[|ts| - 1].id)) then 1 else 0)
  }

  /** What getTablesByHotel reports for one floor. */
  function FloorSummaryOf(floor: Row<Floor>, tables: seq<Row<Table>>, seats: seq<Row<Seat>>): FloorSummary {
    var ts := TablesOnFloor(tables, floor.id);
    FloorSummary(floor.id, floor.val.floorNumber, TableViews(ts, seats),
                 |ts|, SeatTotal(ts, seats), FreeTableTotal(ts, seats), FreeSeatTotal(ts, seats))
  }

  /** A table has an unbooked seat exactly when its unbooked count is not 0, which is at most its seat count. */
  lemma {:induction false} UnbookedBounds(ss: seq<Row<Seat>>)
    ensures Unbooked(ss) <= |ss|
    ensures Unbooked(ss) == 0 <==> !HasFreeSeat(ss)
  {
    if ss != [] {
      var front := ss[..|ss| - 1];
      UnbookedBounds(front);
      if HasFreeSeat(front) {
        var j :| 0 <= j < |front| && !front[j].val.isBooked;
        assert ss[j] == front[j];
      }
      if HasFreeSeat(ss) && !ss[|ss| - 1].val.isBooked {
      } else if HasFreeSeat(ss) {
        var j :| 0 <= j < |ss| && !ss[j].val.isBooked;
        assert j < |ss| - 1 && front[j] == ss[j];
      }
    }
  }

  /**
   * Over any tables: the unbooked seats are at most all seats, the tables
   * with a free seat at most all tables, and no table has a free seat
   * exactly when no seat is free.
   */
  lemma {:induction false} AvailabilityBounds(ts: seq<Row<Table>>, seats: seq<Row<Seat>>)
    ensures FreeSeatTotal(ts, seats) <= SeatTotal(ts, seats)
    ensures FreeTableTotal(ts, seats) <= |ts|
    ensures FreeTableTotal(ts, seats) == 0 <==> FreeSeatTotal(ts, seats) == 0
  {
    if ts != [] {
      AvailabilityBounds(ts[..|ts| - 1], seats);
      UnbookedBounds(SeatsAt(seats, ts[|ts| - 1].id));
    }
  }

  /**
   * Every floor of the summary: available_of_seats <= number_of_seats,
   * available_of_tables <= number_of_tables, available_of_tables is 0
   * exactly when available_of_seats is, and the floor lists as many tables
   * as it counts.
   */
  lemma FloorSummaryBounds(floor: Row<Floor>, tables: seq<Row<Table>>, seats: seq<Row<Seat>>)
    ensures FloorSummaryOf(floor, tables, seats).availableOfSeats <= FloorSummaryOf(floor, tables, seats).numberOfSeats
    ensures FloorSummaryOf(floor, tables, seats).availableOfTables <= FloorSummaryOf(floor, tables, seats).numberOfTables
    ensures FloorSummaryOf(floor, tables, seats).availableOfTables == 0
        <==> FloorSummaryOf(floor, tables, seats).availableOfSeats == 0
    ensures |FloorSummaryOf(floor, tables, seats).tables| == FloorSummaryOf(floor, tables, seats).numberOfTables
  {
    AvailabilityBounds(TablesOnFloor(tables, floor.id), seats);
  }

  /**
   * The inner `map` over one table's seats: each seat bumps the floor's
   * seat counter, an unbooked one also its free-seat counter and the
   * table's flag.
   */
  method VisitSeats(ss: seq<Row<Seat>>, totalSeats0: nat, availableSeats0: nat)
    returns (views: seq<SeatView>, totalSeats: nat, availableSeats: nat, tableHasFreeSeat: bool)
    ensures views == SeatViews(ss)
    ensures totalSeats == totalSeats0 + |ss|
    ensures availableSeats == availableSeats0 + Unbooked(ss)
    ensures tableHasFreeSeat <==> HasFreeSeat(ss)
  {
    views, totalSeats, availableSeats, tableHasFreeSeat := [], totalSeats0, availableSeats0, false;
    var j := 0;
    while j < |ss|
      invariant 0 <= j <= |ss|
      invariant views == SeatViews(ss[..j])
      invariant totalSeats == totalSeats0 + j
      invariant availableSeats == availableSeats0 + Unbooked(ss[..j])
      invariant tableHasFreeSeat <==> HasFreeSeat(ss[..j])
    {
      var seat := ss[j];
      assert ss[..j + 1][..j] == ss[..j];
      totalSeats := totalSeats + 1;
      if !seat.val.isBooked {
        availableSeats := availableSeats + 1;
        tableHasFreeSeat := true;
      }
      views := views + [SeatView(seat.id, seat.val.seatNumber, seat.val.isBooked)];
      j := j + 1;
    }
    assert ss[..j] == ss;
  }

  /** Counting one more table: each total grows by that table's share. */
  lemma FloorStep(ts: seq<Row<Table>>, seats: seq<Row<Seat>>, i: nat)
    requires i < |ts|
    ensures var ss := SeatsAt(seats, ts[i].id);
      && TableViews(ts[..i + 1], seats) == TableViews(ts[..i], seats) + [TableView(ts[i].id, ts[i].val.tableNumber, SeatViews(ss))]
      && SeatTotal(ts[..i + 1], seats) == SeatTotal(ts[..i], seats) + |ss|
      && FreeSeatTotal(ts[..i + 1], seats) == FreeSeatTotal(ts[..i], seats) + Unbooked(ss)
      && FreeTableTotal(ts[..i + 1], seats) == FreeTableTotal(ts[..i], seats) + (if HasFreeSeat(ss) then 1 else 0)
  {
    assert ts[..i + 1][..i] == ts[..i];
  }

  /** The outer `map` over one floor's tables, with its three counters. */
  method SummarizeFloor(floor: Row<Floor>, tables: seq<Row<Table>>, seats: seq<Row<Seat>>) returns (s: FloorSummary)
    ensures s == FloorSummaryOf(floor, tables, seats)
  {
    var ts := TablesOnFloor(tables, floor.id);
    var totalSeats, availableSeats, availableTables := 0, 0, 0;
    var views: seq<TableView> := [];
    var i := 0;
    while i < |ts|
      invariant 0 <= i <= |ts|
      invariant views == TableViews(ts[..i], seats)
      invariant totalSeats == SeatTotal(ts[..i], seats)
      invariant availableSeats == FreeSeatTotal(ts[..i], seats)
      invariant availableTables == FreeTableTotal(ts[..i], seats)
    {
      var table := ts[i];
      FloorStep(ts, seats, i);
      var seatViews, tableHasFreeSeat;
      seatViews, totalSeats, availableSeats, tableHasFreeSeat :=
        VisitSeats(SeatsAt(seats, table.id), totalSeats, availableSeats);
      if tableHasFreeSeat {
        availableTables := availableTables + 1;
      }
      views := views + [TableView(table.id, table.val.tableNumber, seatViews)];
      i := i + 1;
    }
    assert ts[..i] == ts;
    s := FloorSummary(floor.id, floor.val.floorNumber, views, |ts|, totalSeats, availableTables, availableSeats);
  }

  /** The floors of the answer, one summary per floor of the hotel, in order. */
  function LayoutOf(floors: seq<Row<Floor>>, tables: seq<Row<Table>>, seats: seq<Row<Seat>>): seq<FloorSummary> {
    seq(|floors|, k requires 0 <= k < |floors| => FloorSummaryOf(floors[k], tables, seats))
  }

  /**
   * getTablesByHotel: 404 for an unknown hotel; otherwise one entry for
   * the hotel holding a summary of each of its floors. Nothing changes.
   */
  method GetTablesByHotel(hotels: Relation<Hotel>, floors: Relation<Floor>, tables: Relation<Table>,
                          seats: Relation<Seat>, hotelId: int)
    returns (r: Reply<seq<HotelLayout>>)
    ensures !Has(hotels.rows, hotelId) ==> r == Fail(404, "Hotel not found")
    ensures Has(hotels.rows, hotelId) ==>
      r == Ok(200, [HotelLayout(hotelId, LayoutOf(FloorsOf(floors.rows, hotelId), tables.rows, seats.rows))])
  {
    if !Has(hotels.rows, hotelId) {
      return Fail(404, "Hotel not found");
    }
    var fs := FloorsOf(floors.rows, hotelId);
    var floorsData: seq<FloorSummary> := [];
    var k := 0;
    while k < |fs|
      invariant 0 <= k <= |fs|
      invariant floorsData == LayoutOf(fs[..k], tables.rows, seats.rows)
    {
      var summary := SummarizeFloor(fs[k], tables.rows, seats.rows);
      floorsData := floorsData + [summary];
      k := k + 1;
    }
    assert fs[..k] == fs;
    r := Ok(200, [HotelLayout(hotelId, floorsData)]);
  }

  /**
   * Every floor summary getTablesByHotel answers with keeps the counting
   * bounds, and describes a floor of that hotel.
   */
  lemma LayoutBounds(floors: seq<Row<Floor>>, tables: seq<Row<Table>>, seats: seq<Row<Seat>>, hotelId: int, k: nat)
    requires k < |LayoutOf(FloorsOf(floors, hotelId), tables, seats)|
    ensures var s := LayoutOf(FloorsOf(floors, hotelId), tables, seats)[k];
      && s.availableOfSeats <= s.numberOfSeats
      && s.availableOfTables <= s.numberOfTables
      && (s.availableOfTables == 0 <==> s.availableOfSeats == 0)
      && exists f :: f in floors && f.val.hotelId == hotelId && f.id == s.floorId && f.val.floorNumber == s.floorNumber
  {
    var fs := FloorsOf(floors, hotelId);
    FloorSummaryBounds(fs[k], tables, seats);
    assert fs[k] in floors;
  }

  /**
   * deleteTable: 404 for an unknown table; otherwise that table is gone and
   * every other table stays.
   */
  method DeleteTable(tables: Relation<Table>, tableId: int) returns (r: Reply<string>)
    requires tables.Valid() && TableKeysUnique(tables.rows)
    modifies tables
    ensures tables.Valid() && TableKeysUnique(tables.rows) && tables.nextId == old(tables.nextId)
    ensures !Has(old(tables.rows), tableId) ==> r == Fail(404, "Table not found") && tables.rows == old(tables.rows)
    ensures Has(old(tables.rows), tableId) ==>
      && r == Ok(200, "Table deleted successfully")
      && !Has(tables.rows, tableId)
      && (forall x :: x in tables.rows ==> x in old(tables.rows))
      && (forall x :: x in old(tables.rows) && x.id != tableId ==> x in tables.rows)
  {
    if !Has(tables.rows, tableId) {
      return Fail(404, "Table not found");
    }
    tables.Destroy((x: Row<Table>) => x.id == tableId);
    r := Ok(200, "Table deleted successfully");
  }
}
