/**
 * Hotel provisioning (createHotelTable in controllers/hotelTable.controller.js):
 * three positive counts and an area are checked, then one transaction stores
 * the hotel, F floors, T tables on every floor and C seats at every table.
 * The layout is specified the way the loops build it, floor after floor and
 * table after table.
 */
module Provisioning {
  import opened Common
  import opened Store
  import opened Schema

  /** The floors the first loop pushes: floor numbers 1..count of the hotel. */
  function FloorLayout(hotelId: int, count: nat): seq<Floor> {
    seq(count, k requires 0 <= k < count => Floor(hotelId, k + 1))
  }

  /** The floors as `bulkCreate` returns them, under keys from `floorNext`. */
  function StoredFloors(hotelId: int, floorNext: int, count: nat): seq<Row<Floor>> {
    Numbered(floorNext, FloorLayout(hotelId, count))
  }

  /**
   * The tables the inner loop pushes for one stored floor: i = 1..perFloor,
   * numbered (floor_number - 1) * perFloor + i.
   */
  function FloorTables(hotelId: int, floor: Row<Floor>, perFloor: nat): seq<Table> {
    seq(perFloor, i requires 0 <= i < perFloor =>
      Table(hotelId, Some(floor.id), Some(floor.val.floorNumber), (floor.val.floorNumber - 1) * perFloor + i + 1))
  }

  /** The tables of the nested loop: the tables of each floor, floor after floor. */
  function TablesOf(hotelId: int, floors: seq<Row<Floor>>, perFloor: nat): seq<Table>
    decreases |floors|
  {
    if floors == [] then []
    else TablesOf(hotelId, floors[..|floors| - 1], perFloor) + FloorTables(hotelId, floors[|floors| - 1], perFloor)
  }

  /** The seats the inner loop pushes for one stored table: seats 1..perTable. */
  function TableSeats(table: Row<Table>, perTable: nat): seq<Seat> {
    seq(perTable, s requires 0 <= s < perTable => Seat(table.id, s + 1, None, false))
  }

  /** The seats of the last nested loop: the seats of each table, in order. */
  function SeatsOf(tables: seq<Row<Table>>, perTable: nat): seq<Seat>
    decreases |tables|
  {
    if tables == [] then []
    else SeatsOf(tables[..|tables| - 1], perTable) + TableSeats(tables[|tables| - 1], perTable)
  }

  /** The tables of a new hotel whose floors were stored from key `floorNext`. */
  function HotelTables(hotelId: int, floorNext: int, floors: nat, perFloor: nat): seq<Table> {
    TablesOf(hotelId, StoredFloors(hotelId, floorNext, floors), perFloor)
  }

  /** The seats of a new hotel whose tables were stored from key `tableNext`. */
  function HotelSeats(hotelId: int, floorNext: int, tableNext: int, floors: nat, perFloor: nat, perTable: nat): seq<Seat> {
    SeatsOf(Numbered(tableNext, HotelTables(hotelId, floorNext, floors, perFloor)), perTable)
  }

  /** The first loop: `count` floor records, floor numbers 1, 2, ... */
  method FloorRecords(hotelId: int, count: nat) returns (recs: seq<Floor>)
    ensures recs == FloorLayout(hotelId, count)
  {
    recs := [];
    var f := 1;
    while f <= count
      invariant 1 <= f <= count + 1 && |recs| == f - 1
      invariant forall k :: 0 <= k < f - 1 ==> recs[k] == Floor(hotelId, k + 1)
    {
      recs := recs + [Floor(hotelId, f)];
      f := f + 1;
    }
  }

  /** The nested loop over the created floors and i = 1..perFloor. */
  method TableRecords(hotelId: int, floors: seq<Row<Floor>>, perFloor: nat) returns (recs: seq<Table>)
    ensures recs == TablesOf(hotelId, floors, perFloor)
  {
    recs := [];
    var f := 0;
    while f < |floors|
      invariant 0 <= f <= |floors|
      invariant recs == TablesOf(hotelId, floors[..f], perFloor)
    {
      var floor := floors[f];
      var chunk := FloorTables(hotelId, floor, perFloor);
      ghost var done := recs;
      var i := 1;
      while i <= perFloor
        invariant 1 <= i <= perFloor + 1
        invariant recs == done + chunk[..i - 1]
      {
        assert chunk[..i] == chunk[..i - 1] + [chunk[i - 1]];
        recs := recs + [Table(hotelId, Some(floor.id), Some(floor.val.floorNumber),
                              (floor.val.floorNumber - 1) * perFloor + i)];
        i := i + 1;
      }
      assert chunk[..perFloor] == chunk;
      assert floors[..f + 1][..f] == floors[..f];
      f := f + 1;
    }
    assert floors[..|floors|] == floors;
  }

  /** The last nested loop over the created tables and s = 1..perTable. */
  method SeatRecords(tables: seq<Row<Table>>, perTable: nat) returns (recs: seq<Seat>)
    ensures recs == SeatsOf(tables, perTable)
  {
    recs := [];
    var t := 0;
    while t < |tables|
      invariant 0 <= t <= |tables|
      invariant recs == SeatsOf(tables[..t], perTable)
    {
      var table := tables[t];
      var chunk := TableSeats(table, perTable);
      ghost var done := recs;
      var s := 1;
      while s <= perTable
        invariant 1 <= s <= perTable + 1
        invariant recs == done + chunk[..s - 1]
      {
        assert chunk[..s] == chunk[..s - 1] + [chunk[s - 1]];
        recs := recs + [Seat(table.id, s, None, false)];
        s := s + 1;
      }
      assert chunk[..perTable] == chunk;
      assert tables[..t + 1][..t] == tables[..t];
      t := t + 1;
    }
    assert tables[..|tables|] == tables;
  }

  /** `n` groups of `per` and one more make `n + 1` groups. */
  lemma OneMoreGroup(n: int, per: int)
    ensures n * per + per == (n + 1) * per
  {
  }

  /** Dropping the last floor of a layout leaves the layout one floor shorter. */
  lemma StoredFloorsPrefix(hotelId: int, floorNext: int, count: nat)
    requires count > 0
    ensures StoredFloors(hotelId, floorNext, count)[..count - 1] == StoredFloors(hotelId, floorNext, count - 1)
    ensures StoredFloors(hotelId, floorNext, count)[count - 1] == Row(floorNext + count - 1, Floor(hotelId, count))
  {
    var longer, shorter := StoredFloors(hotelId, floorNext, count), StoredFloors(hotelId, floorNext, count - 1);
    assert forall k :: 0 <= k < count - 1 ==> longer[k] == shorter[k];
  }

  /** The nested loop pushes perFloor tables per floor. */
  lemma {:induction false} TablesOfLength(hotelId: int, floors: seq<Row<Floor>>, perFloor: nat)
    ensures |TablesOf(hotelId, floors, perFloor)| == |floors| * perFloor
    decreases |floors|
  {
    if floors != [] {
      TablesOfLength(hotelId, floors[..|floors| - 1], perFloor);
      OneMoreGroup(|floors| - 1, perFloor);
    }
  }

  /**
   * Every table the nested loop pushes lies on one of the given floors, with
   * that floor's key and number, and on floor f its number is in
   * (f - 1) * perFloor + 1 .. f * perFloor.
   */
  lemma {:induction false} TablesOnTheirFloor(hotelId: int, floors: seq<Row<Floor>>, perFloor: nat)
    ensures forall t :: t in TablesOf(hotelId, floors, perFloor) ==>
      && t.hotelId == hotelId
      && exists floor :: floor in floors && t.floorId == Some(floor.id) && t.floorNumber == Some(floor.val.floorNumber)
                         && (floor.val.floorNumber - 1) * perFloor < t.tableNumber <= floor.val.floorNumber * perFloor
    decreases |floors|
  {
    if floors != [] {
      var front, last := floors[..|floors| - 1], floors[|floors| - 1];
      TablesOnTheirFloor(hotelId, front, perFloor);
      OneMoreGroup(last.val.floorNumber - 1, perFloor);
      forall t | t in TablesOf(hotelId, floors, perFloor)
        ensures exists floor :: floor in floors && t.floorId == Some(floor.id) && t.floorNumber == Some(floor.val.floorNumber)
                                && (floor.val.floorNumber - 1) * perFloor < t.tableNumber <= floor.val.floorNumber * perFloor
      {
        if t in TablesOf(hotelId, front, perFloor) {
          var floor :| floor in front && t.floorId == Some(floor.id) && t.floorNumber == Some(floor.val.floorNumber)
                       && (floor.val.floorNumber - 1) * perFloor < t.tableNumber <= floor.val.floorNumber * perFloor;
          assert floor in floors;
        } else {
          assert t in FloorTables(hotelId, last, perFloor);
          assert last in floors;
        }
      }
    }
  }

  /**
   * Across a new hotel of `count` floors the tables are numbered 1, 2, ...,
   * F*T in the order they are stored: every number of 1..F*T exactly once.
   */
  lemma {:induction false} TableNumbersInOrder(hotelId: int, floorNext: int, count: nat, perFloor: nat)
    ensures var tables := HotelTables(hotelId, floorNext, count, perFloor);
      && |tables| == count * perFloor
      && forall j :: 0 <= j < |tables| ==> tables[j].tableNumber == j + 1
  {
    TablesOfLength(hotelId, StoredFloors(hotelId, floorNext, count), perFloor);
    if count > 0 {
      StoredFloorsPrefix(hotelId, floorNext, count);
      TableNumbersInOrder(hotelId, floorNext, count - 1, perFloor);
      var front := HotelTables(hotelId, floorNext, count - 1, perFloor);
      var chunk := FloorTables(hotelId, Row(floorNext + count - 1, Floor(hotelId, count)), perFloor);
      var tables := HotelTables(hotelId, floorNext, count, perFloor);
      assert tables == front + chunk;
      forall j | 0 <= j < |tables| ensures tables[j].tableNumber == j + 1 {
        if j >= |front| {
          assert tables[j] == chunk[j - |front|];
        }
      }
    }
  }

  /** Numbers in order never repeat, and every number 1..F*T is used. */
  lemma TableNumbersCoverLayout(hotelId: int, floorNext: int, count: nat, perFloor: nat)
    ensures var tables := HotelTables(hotelId, floorNext, count, perFloor);
      && (forall i, j :: 0 <= i < j < |tables| ==> tables[i].tableNumber != tables[j].tableNumber)
      && var numbers := set k | 0 <= k < |tables| :: tables[k].tableNumber;
         forall n :: n in numbers <==> 1 <= n <= count * perFloor
  {
    TableNumbersInOrder(hotelId, floorNext, count, perFloor);
    var tables := HotelTables(hotelId, floorNext, count, perFloor);
    var numbers := set k | 0 <= k < |tables| :: tables[k].tableNumber;
    forall n | 1 <= n <= count * perFloor ensures n in numbers {
      assert tables[n - 1].tableNumber == n;
    }
  }

  /**
   * The last nested loop gives every table seats 1..perTable and nothing
   * else: perTable seats per table, none booked and without a status.
   */
  lemma {:induction false} SeatsOfShape(tables: seq<Row<Table>>, perTable: nat)
    ensures |SeatsOf(tables, perTable)| == |tables| * perTable
    ensures forall s :: s in SeatsOf(tables, perTable) ==>
      && 1 <= s.seatNumber <= perTable && s.status == None && !s.isBooked
      && exists t :: t in tables && s.tableId == t.id
    ensures forall t, n :: t in tables && 1 <= n <= perTable ==> Seat(t.id, n, None, false) in SeatsOf(tables, perTable)
    decreases |tables|
  {
    if tables != [] {
      var front, last := tables[..|tables| - 1], tables[|tables| - 1];
      SeatsOfShape(front, perTable);
      OneMoreGroup(|front|, perTable);
      var chunk := TableSeats(last, perTable);
      assert SeatsOf(tables, perTable) == SeatsOf(front, perTable) + chunk;
      forall s | s in SeatsOf(tables, perTable)
        ensures exists t :: t in tables && s.tableId == t.id
      {
        if s in SeatsOf(front, perTable) {
          var t :| t in front && s.tableId == t.id;
          assert t in tables;
        } else {
          assert last in tables;
        }
      }
      forall t, n | t in tables && 1 <= n <= perTable
        ensures Seat(t.id, n, None, false) in SeatsOf(tables, perTable)
      {
        if t == last {
          assert chunk[n - 1] == Seat(t.id, n, None, false);
        } else {
          var k :| 0 <= k < |tables| && tables[k] == t;
          assert t in front;
        }
      }
    }
  }

  /**
   * When the tables have increasing keys, no two seats the loop pushes share
   * a table and a seat number.
   */
  lemma {:induction false} SeatKeysDistinct(tables: seq<Row<Table>>, perTable: nat, seats: seq<Seat>)
    requires IdsAscending(tables) && seats == SeatsOf(tables, perTable)
    ensures forall i, j :: 0 <= i < j < |seats| ==>
      seats[i].tableId != seats[j].tableId || seats[i].seatNumber != seats[j].seatNumber
    decreases |tables|
  {
    if tables != [] {
      var front, last := tables[..|tables| - 1], tables[|tables| - 1];
      var before, chunk := SeatsOf(front, perTable), TableSeats(last, perTable);
      SeatKeysDistinct(front, perTable, before);
      SeatsOfShape(front, perTable);
      assert seats == before + chunk;
      forall i, j | 0 <= i < j < |seats|
        ensures seats[i].tableId != seats[j].tableId || seats[i].seatNumber != seats[j].seatNumber
      {
        if i < |before| <= j {
          assert seats[i] in before;
          var t :| t in front && seats[i].tableId == t.id;
          var k :| 0 <= k < |front| && front[k] == t;
          assert seats[j].tableId == last.id;
        } else if |before| <= i {
          assert seats[i] == chunk[i - |before|] && seats[j] == chunk[j - |before|];
        } else {
          assert seats[i] == before[i] && seats[j] == before[j];
        }
      }
    }
  }

  /** Floors under a hotel key no stored floor names keep (hotel, floor number) unique. */
  lemma {:induction false} FreshFloorsKeepKeysUnique(rows: seq<Row<Floor>>, floorNext: int, hotelId: int, count: nat)
    requires FloorKeysUnique(rows)
    requires forall x :: x in rows ==> x.id < floorNext && x.val.hotelId != hotelId
    ensures FloorKeysUnique(rows + StoredFloors(hotelId, floorNext, count))
  {
    var added := StoredFloors(hotelId, floorNext, count);
    forall x, y | x in rows + added && y in rows + added && x.id != y.id && x.val.hotelId == y.val.hotelId
      ensures x.val.floorNumber != y.val.floorNumber
    {
      if x in added {
        var i :| 0 <= i < |added| && added[i] == x;
      }
      if y in added {
        var j :| 0 <= j < |added| && added[j] == y;
      }
    }
  }

  /**
   * The stored tables of a new hotel sit on floors keyed from `floorNext` on,
   * and two of them never share a table number.
   */
  lemma NewTablesOnNewFloors(tableNext: int, hotelId: int, floorNext: int, count: nat, perFloor: nat)
    ensures var added := Numbered(tableNext, HotelTables(hotelId, floorNext, count, perFloor));
      && (forall x :: x in added ==> x.val.floorId.Some? && floorNext <= x.val.floorId.value)
      && (forall x, y :: x in added && y in added && x.id != y.id ==> x.val.tableNumber != y.val.tableNumber)
  {
    var floors := StoredFloors(hotelId, floorNext, count);
    var tables := HotelTables(hotelId, floorNext, count, perFloor);
    var added := Numbered(tableNext, tables);
    TableNumbersInOrder(hotelId, floorNext, count, perFloor);
    TablesOnTheirFloor(hotelId, floors, perFloor);
    forall x | x in added ensures x.val.floorId.Some? && floorNext <= x.val.floorId.value {
      var i :| 0 <= i < |added| && added[i] == x;
      assert tables[i] in tables;
      var floor :| floor in floors && x.val.floorId == Some(floor.id);
      var k :| 0 <= k < |floors| && floors[k] == floor;
    }
    forall x, y | x in added && y in added && x.id != y.id
      ensures x.val.tableNumber != y.val.tableNumber
    {
      var i :| 0 <= i < |added| && added[i] == x;
      var j :| 0 <= j < |added| && added[j] == y;
    }
  }

  /**
   * The tables of a new hotel, stored from key `tableNext`, keep
   * (hotel, floor, table number) unique when no stored table names a floor
   * key from `floorNext` on.
   */
  lemma {:induction false} FreshTablesKeepKeysUnique(rows: seq<Row<Table>>, tableNext: int, hotelId: int,
                                                     floorNext: int, count: nat, perFloor: nat)
    requires TableKeysUnique(rows)
    requires forall x :: x in rows ==> x.id < tableNext && (x.val.floorId.Some? ==> x.val.floorId.value < floorNext)
    ensures TableKeysUnique(rows + Numbered(tableNext, HotelTables(hotelId, floorNext, count, perFloor)))
  {
    NewTablesOnNewFloors(tableNext, hotelId, floorNext, count, perFloor);
  }

  /** The stored seats of tables keyed from `tableNext` on name only such tables. */
  lemma NewSeatsOnNewTables(seatNext: int, tableNext: int, tables: seq<Table>, perTable: nat)
    ensures forall x :: x in Numbered(seatNext, SeatsOf(Numbered(tableNext, tables), perTable)) ==>
      tableNext <= x.val.tableId
  {
    var stored := Numbered(tableNext, tables);
    var seats := SeatsOf(stored, perTable);
    var added := Numbered(seatNext, seats);
    SeatsOfShape(stored, perTable);
    forall x | x in added ensures tableNext <= x.val.tableId {
      var i :| 0 <= i < |added| && added[i] == x;
      assert seats[i] in seats;
      var t :| t in stored && x.val.tableId == t.id;
      var k :| 0 <= k < |stored| && stored[k] == t;
    }
  }

  /** Two stored seats of the new tables never share a table and a seat number. */
  lemma NewSeatKeysDistinct(seatNext: int, tableNext: int, tables: seq<Table>, perTable: nat)
    ensures var added := Numbered(seatNext, SeatsOf(Numbered(tableNext, tables), perTable));
      forall x, y :: x in added && y in added && x.id != y.id && x.val.tableId == y.val.tableId
        ==> x.val.seatNumber != y.val.seatNumber
  {
    var stored := Numbered(tableNext, tables);
    var seats := SeatsOf(stored, perTable);
    var added := Numbered(seatNext, seats);
    SeatKeysDistinct(stored, perTable, seats);
    forall x, y | x in added && y in added && x.id != y.id && x.val.tableId == y.val.tableId
      ensures x.val.seatNumber != y.val.seatNumber
    {
      var i :| 0 <= i < |added| && added[i] == x;
      var j :| 0 <= j < |added| && added[j] == y;
      assert x.val == seats[i] && y.val == seats[j] && i != j;
      if i < j {
        assert seats[i].tableId != seats[j].tableId || seats[i].seatNumber != seats[j].seatNumber;
      } else {
        assert seats[j].tableId != seats[i].tableId || seats[j].seatNumber != seats[i].seatNumber;
      }
    }
  }

  /**
   * The seats of stored tables with keys from `tableNext` on keep
   * (table, seat number) unique when no stored seat names such a table.
   */
  lemma {:induction false} FreshSeatsKeepKeysUnique(rows: seq<Row<Seat>>, seatNext: int, tableNext: int,
                                                    tables: seq<Table>, perTable: nat)
    requires SeatKeysUnique(rows)
    requires forall x :: x in rows ==> x.id < seatNext && x.val.tableId < tableNext
    ensures SeatKeysUnique(rows + Numbered(seatNext, SeatsOf(Numbered(tableNext, tables), perTable)))
  {
    NewSeatsOnNewTables(seatNext, tableNext, tables, perTable);
    NewSeatKeysDistinct(seatNext, tableNext, tables, perTable);
  }

  /** The body fields of createHotelTable other than the four it checks. */
  datatype HotelPayload = HotelPayload(
    hotelName: Option<string>,
    locationId: Option<int>,
    address: Option<string>,
    location: Option<string>)

  /** The `data` createHotelTable answers with. */
  datatype Summary = Summary(
    hotelId: int,
    floorPerHotel: int,
    floorsCreated: nat,
    tablesCreated: nat,
    seatsCreated: nat)

  /**
   * The hotel record createHotelTable writes as the code stands: the payload
   * with the area and the floor count. tables_per_floor and chairs_per_table
   * were taken out of the body before the payload was spread, and are not
   * put back.
   */
  function HotelRowAsWritten(p: HotelPayload, areaId: int, floorPerHotel: int): Hotel {
    Hotel(p.hotelName, p.locationId, Some(areaId), p.address, None, None, Some(floorPerHotel), p.location)
  }

  /** The hotel record with the two checked counts stored, as the NOT NULL columns require. */
  function HotelRow(p: HotelPayload, areaId: int, floorPerHotel: int, tablesPerFloor: int, chairsPerTable: int): Hotel {
    Hotel(p.hotelName, p.locationId, Some(areaId), p.address,
          Some(tablesPerFloor), Some(chairsPerTable), Some(floorPerHotel), p.location)
  }

  /** The record as written never meets the NOT NULL columns, whatever the request. */
  lemma AsWrittenHotelBreaksNotNull(p: HotelPayload, areaId: int, floorPerHotel: int)
    ensures !HotelNotNull(HotelRowAsWritten(p, areaId, floorPerHotel))
    ensures HotelRowAsWritten(p, areaId, floorPerHotel).tablesPerFloor.None?
  {
  }

  /** The corrected record meets them exactly when the body gives hotel_name and location_id. */
  lemma HotelRowNotNull(p: HotelPayload, areaId: int, f: int, t: int, c: int)
    ensures HotelNotNull(HotelRow(p, areaId, f, t, c)) <==> p.hotelName.Some? && p.locationId.Some?
    ensures HotelRow(p, areaId, f, t, c).tablesPerFloor == Some(t)
    ensures HotelRow(p, areaId, f, t, c).chairsPerTable == Some(c)
  {
  }

  /**
   * No stored floor, table or seat refers to a hotel, floor or table key
   * that has not been handed out yet, as the foreign keys of the schema
   * would ensure.
   */
  ghost predicate ReferencesIssued(hotelNext: int, floorRows: seq<Row<Floor>>, floorNext: int,
                                   tableRows: seq<Row<Table>>, tableNext: int, seatRows: seq<Row<Seat>>)
  {
    && (forall x :: x in floorRows ==> x.val.hotelId < hotelNext)
    && (forall x :: x in tableRows && x.val.floorId.Some? ==> x.val.floorId.value < floorNext)
    && (forall x :: x in seatRows ==> x.val.tableId < tableNext)
  }

  /** The four fields of createHotelTable pass their checks and the area exists. */
  predicate Admissible(areas: seq<Row<Area>>, areaId: Option<int>, floorPerHotel: Option<int>,
                       tablesPerFloor: Option<int>, chairsPerTable: Option<int>)
  {
    && Truthy(areaId) && Positive(floorPerHotel) && Positive(tablesPerFloor) && Positive(chairsPerTable)
    && Has(areas, areaId.value)
  }

  /**
   * The 400 message of the first of createHotelTable's checks that fails, in
   * the order the handler runs them, or None when they all pass.
   */
  function Refusal(areas: seq<Row<Area>>, areaId: Option<int>, floorPerHotel: Option<int>,
                   tablesPerFloor: Option<int>, chairsPerTable: Option<int>): (m: Option<string>)
    ensures m.None? <==> Admissible(areas, areaId, floorPerHotel, tablesPerFloor, chairsPerTable)
  {
    if !Truthy(areaId) then Some("area_id is required")
    else if !Positive(floorPerHotel) then Some("floor_per_hotel must be greater than 0")
    else if !Positive(tablesPerFloor) then Some("tables_per_floor must be greater than 0")
    else if !Positive(chairsPerTable) then Some("chairs_per_table must be greater than 0")
    else if !Has(areas, areaId.value) then Some("area_id is invalid")
    else None
  }

  /**
   * `HotelTable.create` inside the transaction, then the layout. A hotel
   * record that leaves a NOT NULL column empty fails the ORM's validation:
   * the transaction is rolled back and the answer is 500 with nothing
   * stored. Otherwise the outcome is Provision's.
   */
  method CreateHotelWithLayout(hotels: Relation<Hotel>, floors: Relation<Floor>, tables: Relation<Table>,
                               seats: Relation<Seat>, hotel: Hotel, f: nat, t: nat, c: nat)
    returns (r: Reply<Summary>)
    requires hotels.Valid() && floors.Valid() && tables.Valid() && seats.Valid()
    requires FloorKeysUnique(floors.rows) && TableKeysUnique(tables.rows) && SeatKeysUnique(seats.rows)
    modifies hotels, floors, tables, seats
    ensures hotels.Valid() && floors.Valid() && tables.Valid() && seats.Valid()
    ensures FloorKeysUnique(floors.rows) && TableKeysUnique(tables.rows) && SeatKeysUnique(seats.rows)
    ensures !HotelNotNull(hotel) ==>
      r == Fail(500, "Failed to create hotel") && unchanged(hotels, floors, tables, seats)
    ensures HotelNotNull(hotel) ==>
      Provided(old(hotels.rows), old(hotels.nextId), old(floors.rows), old(floors.nextId),
               old(tables.rows), old(tables.nextId), old(seats.rows), old(seats.nextId),
               hotels.rows, floors.rows, tables.rows, seats.rows, hotel, f, t, c, r)
  {
    if !HotelNotNull(hotel) {
      return Fail(500, "Failed to create hotel");
    }
    r := Provision(hotels, floors, tables, seats, hotel, f, t, c);
  }

  /**
   * createHotelTable, with the two counts stored on the hotel. The checks
   * run in order, each answering 400 with nothing stored: a falsy area_id,
   * then non-positive floor_per_hotel, tables_per_floor and
   * chairs_per_table, then an unknown area. A body without hotel_name or
   * location_id breaks their NOT NULL columns (500, nothing stored).
   * Otherwise the answer is Provision's.
   */
  method CreateHotelTable(areas: Relation<Area>, hotels: Relation<Hotel>, floors: Relation<Floor>,
                          tables: Relation<Table>, seats: Relation<Seat>, payload: HotelPayload,
                          areaId: Option<int>, floorPerHotel: Option<int>,
                          tablesPerFloor: Option<int>, chairsPerTable: Option<int>)
    returns (r: Reply<Summary>)
    requires areas.Valid() && hotels.Valid() && floors.Valid() && tables.Valid() && seats.Valid()
    requires FloorKeysUnique(floors.rows) && TableKeysUnique(tables.rows) && SeatKeysUnique(seats.rows)
    modifies hotels, floors, tables, seats
    ensures hotels.Valid() && floors.Valid() && tables.Valid() && seats.Valid()
    ensures FloorKeysUnique(floors.rows) && TableKeysUnique(tables.rows) && SeatKeysUnique(seats.rows)
    ensures !Admissible(areas.rows, areaId, floorPerHotel, tablesPerFloor, chairsPerTable) ==>
      r.Fail? && r.code == 400 && unchanged(hotels, floors, tables, seats)
    ensures !Truthy(areaId) ==> r == Fail(400, "area_id is required")
    ensures Truthy(areaId) && !Positive(floorPerHotel) ==>
      r == Fail(400, "floor_per_hotel must be greater than 0")
    ensures Truthy(areaId) && Positive(floorPerHotel) && !Positive(tablesPerFloor) ==>
      r == Fail(400, "tables_per_floor must be greater than 0")
    ensures Truthy(areaId) && Positive(floorPerHotel) && Positive(tablesPerFloor) && !Positive(chairsPerTable) ==>
      r == Fail(400, "chairs_per_table must be greater than 0")
    ensures (&& Truthy(areaId) && Positive(floorPerHotel) && Positive(tablesPerFloor) && Positive(chairsPerTable)
             && !Has(areas.rows, areaId.value)) ==> r == Fail(400, "area_id is invalid")
    ensures (&& Admissible(areas.rows, areaId, floorPerHotel, tablesPerFloor, chairsPerTable)
             && (payload.hotelName.None? || payload.locationId.None?)) ==>
      r == Fail(500, "Failed to create hotel") && unchanged(hotels, floors, tables, seats)
    ensures (&& Admissible(areas.rows, areaId, floorPerHotel, tablesPerFloor, chairsPerTable)
             && payload.hotelName.Some? && payload.locationId.Some?) ==>
      Provided(old(hotels.rows), old(hotels.nextId), old(floors.rows), old(floors.nextId),
               old(tables.rows), old(tables.nextId), old(seats.rows), old(seats.nextId),
               hotels.rows, floors.rows, tables.rows, seats.rows,
               HotelRow(payload, areaId.value, floorPerHotel.value, tablesPerFloor.value, chairsPerTable.value),
               floorPerHotel.value, tablesPerFloor.value, chairsPerTable.value, r)
  {
    var refusal := Refusal(areas.rows, areaId, floorPerHotel, tablesPerFloor, chairsPerTable);
    if refusal.Some? {
      return Fail(400, refusal.value);
    }
    var hotel := HotelRow(payload, areaId.value, floorPerHotel.value, tablesPerFloor.value, chairsPerTable.value);
    HotelRowNotNull(payload, areaId.value, floorPerHotel.value, tablesPerFloor.value, chairsPerTable.value);
    r := CreateHotelWithLayout(hotels, floors, tables, seats, hotel,
                               floorPerHotel.value, tablesPerFloor.value, chairsPerTable.value);
  }

  /**
   * createHotelTable as the code stands: the same checks, then a hotel
   * record without tables_per_floor and chairs_per_table. Their NOT NULL
   * columns refuse it, so every request that passes the checks is answered
   * 500 and nothing is stored.
   */
  method CreateHotelTableAsWritten(areas: Relation<Area>, hotels: Relation<Hotel>, floors: Relation<Floor>,
                                   tables: Relation<Table>, seats: Relation<Seat>, payload: HotelPayload,
                                   areaId: Option<int>, floorPerHotel: Option<int>,
                                   tablesPerFloor: Option<int>, chairsPerTable: Option<int>)
    returns (r: Reply<Summary>)
    requires areas.Valid() && hotels.Valid() && floors.Valid() && tables.Valid() && seats.Valid()
    requires FloorKeysUnique(floors.rows) && TableKeysUnique(tables.rows) && SeatKeysUnique(seats.rows)
    modifies hotels, floors, tables, seats
    ensures hotels.Valid() && floors.Valid() && tables.Valid() && seats.Valid()
    ensures unchanged(hotels, floors, tables, seats)
    ensures !Admissible(areas.rows, areaId, floorPerHotel, tablesPerFloor, chairsPerTable) ==>
      r == Fail(400, Refusal(areas.rows, areaId, floorPerHotel, tablesPerFloor, chairsPerTable).value)
    ensures Admissible(areas.rows, areaId, floorPerHotel, tablesPerFloor, chairsPerTable) ==>
      r == Fail(500, "Failed to create hotel")
  {
    var refusal := Refusal(areas.rows, areaId, floorPerHotel, tablesPerFloor, chairsPerTable);
    if refusal.Some? {
      return Fail(400, refusal.value);
    }
    var hotel := HotelRowAsWritten(payload, areaId.value, floorPerHotel.value);
    AsWrittenHotelBreaksNotNull(payload, areaId.value, floorPerHotel.value);
    r := CreateHotelWithLayout(hotels, floors, tables, seats, hotel,
                               floorPerHotel.value, tablesPerFloor.value, chairsPerTable.value);
  }

  /**
   * What the transaction leaves behind, given the tables before and after:
   * either it was refused (500) and nothing changed, or it answered 201 with
   * the counts F, F*T and F*T*C and every table grew by exactly its part of
   * the layout; it is refused only when a stored row refers to a key not
   * handed out yet.
   */
  ghost predicate Provided(
    hotels0: seq<Row<Hotel>>, hotelNext: int, floors0: seq<Row<Floor>>, floorNext: int,
    tables0: seq<Row<Table>>, tableNext: int, seats0: seq<Row<Seat>>, seatNext: int,
    hotels1: seq<Row<Hotel>>, floors1: seq<Row<Floor>>, tables1: seq<Row<Table>>, seats1: seq<Row<Seat>>,
    hotel: Hotel, f: nat, t: nat, c: nat, r: Reply<Summary>)
  {
    && (r.Fail? ==> r == Fail(500, "Failed to create hotel")
                    && hotels1 == hotels0 && floors1 == floors0 && tables1 == tables0 && seats1 == seats0)
    && (ReferencesIssued(hotelNext, floors0, floorNext, tables0, tableNext, seats0) ==> r.Ok?)
    && (r.Ok? ==>
          && r == Ok(201, Summary(hotelNext, f, f, f * t, f * t * c))
          && hotels1 == hotels0 + [Row(hotelNext, hotel)]
          && floors1 == floors0 + StoredFloors(hotelNext, floorNext, f)
          && tables1 == tables0 + Numbered(tableNext, HotelTables(hotelNext, floorNext, f, t))
          && seats1 == seats0 + Numbered(seatNext, HotelSeats(hotelNext, floorNext, tableNext, f, t, c)))
  }

  /**
   * The transaction of createHotelTable once the request passed its checks:
   * the hotel row, then its floors, tables and seats, stored all together or
   * not at all.
   */
  method Provision(hotels: Relation<Hotel>, floors: Relation<Floor>, tables: Relation<Table>,
                   seats: Relation<Seat>, hotel: Hotel, f: nat, t: nat, c: nat)
    returns (r: Reply<Summary>)
    requires hotels.Valid() && floors.Valid() && tables.Valid() && seats.Valid()
    requires FloorKeysUnique(floors.rows) && TableKeysUnique(tables.rows) && SeatKeysUnique(seats.rows)
    modifies hotels, floors, tables, seats
    ensures hotels.Valid() && floors.Valid() && tables.Valid() && seats.Valid()
    ensures FloorKeysUnique(floors.rows) && TableKeysUnique(tables.rows) && SeatKeysUnique(seats.rows)
    ensures r.Fail? ==> unchanged(hotels, floors, tables, seats)
    ensures Provided(old(hotels.rows), old(hotels.nextId), old(floors.rows), old(floors.nextId),
                     old(tables.rows), old(tables.nextId), old(seats.rows), old(seats.nextId),
                     hotels.rows, floors.rows, tables.rows, seats.rows, hotel, f, t, c, r)
  {
    var hotelId := hotels.nextId;
    var floorRecs := FloorRecords(hotelId, f);
    var tableRecs := TableRecords(hotelId, Numbered(floors.nextId, floorRecs), t);
    var seatRecs := SeatRecords(Numbered(tables.nextId, tableRecs), c);
    TablesOfLength(hotelId, Numbered(floors.nextId, floorRecs), t);
    SeatsOfShape(Numbered(tables.nextId, tableRecs), c);

    if ReferencesIssued(hotels.nextId, floors.rows, floors.nextId, tables.rows, tables.nextId, seats.rows) {
      FreshFloorsKeepKeysUnique(floors.rows, floors.nextId, hotelId, f);
      FreshTablesKeepKeysUnique(tables.rows, tables.nextId, hotelId, floors.nextId, f, t);
      FreshSeatsKeepKeysUnique(seats.rows, seats.nextId, tables.nextId, tableRecs, c);
    }
    if !(&& FloorKeysUnique(floors.rows + Numbered(floors.nextId, floorRecs))
         && TableKeysUnique(tables.rows + Numbered(tables.nextId, tableRecs))
         && SeatKeysUnique(seats.rows + Numbered(seats.nextId, seatRecs))) {
      return Fail(500, "Failed to create hotel");
    }

    var id := hotels.Create(hotel);
    var createdFloors := floors.BulkCreate(floorRecs);
    var createdTables := tables.BulkCreate(tableRecs);
    var createdSeats := seats.BulkCreate(seatRecs);
    r := Ok(201, Summary(id, f, |createdFloors|, |createdTables|, |seatRecs|));
  }
}
