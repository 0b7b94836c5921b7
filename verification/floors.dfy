/**
 * The floor registry (controllers/floor.controller.js): adding a floor to a
 * hotel, listing a hotel's floors by number, and deleting a floor.
 */
module Floors {
  import opened Common
  import opened Store
  import opened Schema
  import Ordering

  /** A JSON body field: not sent, sent as null, or a number. */
  datatype Field = Undefined | Null | Given(n: int)

  /** The hotel already has a floor with this number. */
  predicate FloorTaken(rows: seq<Row<Floor>>, hotelId: int, floorNumber: int) {
    exists x :: x in rows && x.val.hotelId == hotelId && x.val.floorNumber == floorNumber
  }

  /** The first floor of the hotel with that number, as the unique index finds it. */
  function FindFloor(rows: seq<Row<Floor>>, hotelId: int, floorNumber: int): (r: Option<Row<Floor>>)
    ensures r.None? <==> !FloorTaken(rows, hotelId, floorNumber)
    ensures r.Some? ==> r.value in rows && r.value.val == Floor(hotelId, floorNumber)
  {
    if rows == [] then None
    else if rows[0].val == Floor(hotelId, floorNumber) then Some(rows[0])
    else
      var rest := FindFloor(rows[1..], hotelId, floorNumber);
      assert forall x :: x in rows ==> x == rows[0] || x in rows[1..];
      rest
  }

  /** A floor under an unused (hotel, number) pair keeps the index unique. */
  lemma FreshFloorKeepsUnique(rows: seq<Row<Floor>>, id: int, f: Floor)
    requires FloorKeysUnique(rows) && !FloorTaken(rows, f.hotelId, f.floorNumber)
    ensures FloorKeysUnique(rows + [Row(id, f)])
    ensures FloorTaken(rows + [Row(id, f)], f.hotelId, f.floorNumber)
  {
    assert Row(id, f) in rows + [Row(id, f)];
  }

  /**
   * createFloor: only an undefined floor_number is 400; an unknown hotel is
   * 404. A null floor_number breaks the NOT NULL column and a number the
   * hotel already has breaks the unique index: both are 500 with nothing
   * written. Otherwise exactly the given hotel and number are stored.
   */
  method CreateFloor(hotels: Relation<Hotel>, floors: Relation<Floor>, hotelId: int, floorNumber: Field)
    returns (r: Reply<Row<Floor>>)
    requires floors.Valid() && FloorKeysUnique(floors.rows)
    modifies floors
    ensures floors.Valid() && FloorKeysUnique(floors.rows)
    ensures floorNumber.Undefined? ==> r == Fail(400, "floor_number is required") && unchanged(floors)
    ensures !floorNumber.Undefined? && !Has(hotels.rows, hotelId) ==>
      r == Fail(404, "Hotel not found") && unchanged(floors)
    ensures (!floorNumber.Undefined? && Has(hotels.rows, hotelId)
             && (floorNumber.Null? || FloorTaken(old(floors.rows), hotelId, floorNumber.n))) ==>
      r == Fail(500, "Failed to create floor") && unchanged(floors)
    ensures (floorNumber.Given? && Has(hotels.rows, hotelId)
             && !FloorTaken(old(floors.rows), hotelId, floorNumber.n)) ==>
      && r == Ok(201, Row(old(floors.nextId), Floor(hotelId, floorNumber.n)))
      && floors.rows == old(floors.rows) + [r.data]
      && floors.nextId == old(floors.nextId) + 1
  {
    if floorNumber.Undefined? {
      return Fail(400, "floor_number is required");
    }
    if IndexOf(hotels.rows, hotelId).None? {
      return Fail(404, "Hotel not found");
    }
    if floorNumber.Null? || FindFloor(floors.rows, hotelId, floorNumber.n).Some? {
      return Fail(500, "Failed to create floor");
    }
    var floor := Floor(hotelId, floorNumber.n);
    FreshFloorKeepsUnique(floors.rows, floors.nextId, floor);
    var id := floors.Create(floor);
    r := Ok(201, Row(id, floor));
  }

  /** Floors in ascending floor number. */
  function FloorNumberLe(a: Row<Floor>, b: Row<Floor>): bool {
    a.val.floorNumber <= b.val.floorNumber
  }

  /** getFloorsByHotel: the floors of that hotel and no others, in ascending floor number. */
  function FloorsByHotel(rows: seq<Row<Floor>>, hotelId: int): (r: seq<Row<Floor>>)
    ensures Ordering.SortedBy(r, FloorNumberLe)
    ensures forall x :: x in r <==> x in rows && x.val.hotelId == hotelId
    ensures multiset(r) == multiset(Where(rows, (x: Row<Floor>) => x.val.hotelId == hotelId))
  {
    var mine := Where(rows, (x: Row<Floor>) => x.val.hotelId == hotelId);
    var r := Ordering.SortBy(mine, FloorNumberLe);
    forall x ensures x in r <==> x in rows && x.val.hotelId == hotelId {
      Ordering.SortByMembers(mine, FloorNumberLe, x);
      if x in rows && x.val.hotelId == hotelId {
        var i :| 0 <= i < |rows| && rows[i] == x;
      }
    }
    r
  }

  /**
   * With the unique index on (hotel, floor number), a hotel's floors come
   * back in strictly ascending floor number: no number twice.
   */
  lemma FloorsByHotelStrict(rows: seq<Row<Floor>>, hotelId: int)
    requires IdsAscending(rows) && FloorKeysUnique(rows)
    ensures var r := FloorsByHotel(rows, hotelId);
      forall i, j :: 0 <= i < j < |r| ==> r[i].val.floorNumber < r[j].val.floorNumber
  {
    var mine := Where(rows, (x: Row<Floor>) => x.val.hotelId == hotelId);
    var r := FloorsByHotel(rows, hotelId);
    forall i, j | 0 <= i < j < |r| ensures r[i].val.floorNumber < r[j].val.floorNumber {
      PermutedKeysDistinct(mine, r, i, j);
      assert r[i] in rows && r[j] in rows;
    }
  }

  /**
   * deleteFloor: 404 for an unknown floor; otherwise that floor is gone and
   * every other floor stays.
   */
  method DeleteFloor(floors: Relation<Floor>, id: int) returns (r: Reply<string>)
    requires floors.Valid() && FloorKeysUnique(floors.rows)
    modifies floors
    ensures floors.Valid() && FloorKeysUnique(floors.rows) && floors.nextId == old(floors.nextId)
    ensures !Has(old(floors.rows), id) ==> r == Fail(404, "Floor not found") && floors.rows == old(floors.rows)
    ensures Has(old(floors.rows), id) ==>
      && r == Ok(200, "Floor deleted successfully")
      && !Has(floors.rows, id)
      && (forall x :: x in floors.rows <==> x in old(floors.rows) && x.id != id)
  {
    if IndexOf(floors.rows, id).None? {
      return Fail(404, "Floor not found");
    }
    floors.Destroy((x: Row<Floor>) => x.id == id);
    r := Ok(200, "Floor deleted successfully");
  }
}
