/**
 * The rows of every table as the controllers write and read them, with the
 * unique indexes the schema declares.
 * Where a controller writes a field the schema does not declare
 * (`seat.status`, `table.floor_number`, `hotel.location`,
 * `hotel.floor_per_hotel`) the row keeps it, as the controller sees it.
 */
module Schema {
  import opened Common
  import opened Store

  /** A hotel (`hotel_tables`); every column may be absent when written. */
  datatype Hotel = Hotel(
    hotelName: Option<string>,
    locationId: Option<int>,
    areaId: Option<int>,
    address: Option<string>,
    tablesPerFloor: Option<int>,
    chairsPerTable: Option<int>,
    floorPerHotel: Option<int>,
    location: Option<string>)

  /**
   * The columns of `hotel_tables` declared NOT NULL hold a value: hotel_name,
   * location_id, tables_per_floor and chairs_per_table. The ORM checks this
   * before it inserts a hotel.
   */
  predicate HotelNotNull(h: Hotel) {
    h.hotelName.Some? && h.locationId.Some? && h.tablesPerFloor.Some? && h.chairsPerTable.Some?
  }

  /** A floor of a hotel (`floors`). */
  datatype Floor = Floor(hotelId: int, floorNumber: int)

  /** A dining table (`tables`); `floorId` is NULL when no floor was given. */
  datatype Table = Table(hotelId: int, floorId: Option<int>, floorNumber: Option<int>, tableNumber: int)

  /** The column of `tables` declared NOT NULL that a record may leave empty: floor_id. */
  predicate TableNotNull(t: Table) {
    t.floorId.Some?
  }

  /**
   * A seat (`seats`). `status` is the numeric code the seat controller writes
   * (absent on seats made by hotel provisioning); `isBooked` is the schema's
   * boolean, false by default, which the availability summary reads. Nothing
   * links the two.
   */
  datatype Seat = Seat(tableId: int, seatNumber: int, status: Option<int>, isBooked: bool)

  /** Unique index (table_id, seat_number): two rows never share both. */
  predicate SeatKeysUnique(rows: seq<Row<Seat>>) {
    forall x, y :: x in rows && y in rows && x.id != y.id && x.val.tableId == y.val.tableId
      ==> x.val.seatNumber != y.val.seatNumber
  }

  /**
   * Unique index (hotel_table_id, floor_id, table_number). NULLs never
   * collide in a unique index, so a row without a floor clashes with nothing.
   */
  predicate TableKeysUnique(rows: seq<Row<Table>>) {
    forall x, y :: x in rows && y in rows && x.id != y.id && x.val.floorId.Some?
      && x.val.hotelId == y.val.hotelId && x.val.floorId == y.val.floorId
      ==> x.val.tableNumber != y.val.tableNumber
  }

  /** Unique index (hotel_table_id, floor_number). */
  predicate FloorKeysUnique(rows: seq<Row<Floor>>) {
    forall x, y :: x in rows && y in rows && x.id != y.id && x.val.hotelId == y.val.hotelId
      ==> x.val.floorNumber != y.val.floorNumber
  }

  /** A location (`locations`); names are unique. */
  datatype Location = Location(name: string, description: Option<string>)

  /** Unique column `name` of `locations`. */
  predicate LocationNamesUnique(rows: seq<Row<Location>>) {
    forall x, y :: x in rows && y in rows && x.id != y.id ==> x.val.name != y.val.name
  }

  /** An area (`areas`); names are unique, the location is optional. */
  datatype Area = Area(name: string, description: Option<string>, locationId: Option<int>)

  /** Unique column `name` of `areas`. */
  predicate AreaNamesUnique(rows: seq<Row<Area>>) {
    forall x, y :: x in rows && y in rows && x.id != y.id ==> x.val.name != y.val.name
  }

  /**
   * A row of `seat_status_master` or of `dining_status`; only the dining
   * table has a colour, which defaults to "#000000".
   */
  datatype StatusEntry = StatusEntry(statusId: int, name: string, colorCode: Option<string>)

  /** Unique column `status_id` of both status tables. */
  predicate StatusIdsUnique(rows: seq<Row<StatusEntry>>) {
    forall x, y :: x in rows && y in rows && x.id != y.id ==> x.val.statusId != y.val.statusId
  }

  /**
   * A reservation as the reservation controller writes it. The date is a
   * day number and the time a minute of the day: the controller only
   * compares them for equality and orders by the date.
   */
  datatype Reservation = Reservation(
    hotelId: Option<int>,
    tableId: Option<int>,
    seatId: Option<int>,
    customerName: Option<string>,
    customerMobile: Option<string>,
    reservationDate: Option<int>,
    reservationTime: Option<int>,
    guestCount: Option<int>,
    status: Option<string>)
}
