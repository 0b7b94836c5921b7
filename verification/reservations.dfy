/**
 * Reservations (controllers/reservation.controller.js): the slot guard on
 * creation, the listing of a hotel's reservations by date, and
 * cancellation.
 */
module Reservations {
  import opened Common
  import opened Store
  import opened Schema
  import Ordering

  /** The status a reservation holds while it occupies its slot. */
  const BOOKED: string := "BOOKED"
  /** The status cancellation writes. */
  const CANCELLED: string := "CANCELLED"

  /** The body of createReservation; None is a field not given. */
  datatype ReservationRequest = ReservationRequest(
    hotelId: Option<int>,
    tableId: Option<int>,
    seatId: Option<int>,
    customerName: Option<string>,
    customerMobile: Option<string>,
    reservationDate: Option<int>,
    reservationTime: Option<int>,
    guestCount: Option<int>)

  /** The record stored for a request, with the given status. */
  function Stored(q: ReservationRequest, status: Option<string>): (r: Reservation)
    ensures r.status == status
    ensures r.tableId == q.tableId && r.reservationDate == q.reservationDate && r.reservationTime == q.reservationTime
    ensures r.hotelId == q.hotelId
  {
    Reservation(q.hotelId, q.tableId, q.seatId, q.customerName, q.customerMobile,
                q.reservationDate, q.reservationTime, q.guestCount, status)
  }

  /** The reservation holds the slot: same table, date and time, status "BOOKED". */
  predicate HoldsSlot(x: Row<Reservation>, tableId: int, date: int, time: int) {
    x.val.tableId == Some(tableId) && x.val.reservationDate == Some(date)
    && x.val.reservationTime == Some(time) && x.val.status == Some(BOOKED)
  }

  /** Some reservation holds the slot. */
  predicate SlotTaken(rows: seq<Row<Reservation>>, tableId: int, date: int, time: int) {
    exists x :: x in rows && HoldsSlot(x, tableId, date, time)
  }

  /**
   * The message the ORM throws when a `where` value is undefined, which the
   * handler passes on with 500.
   */
  function UndefinedWhere(column: string): string {
    "WHERE parameter \"" + column + "\" has invalid \"undefined\" value"
  }

  /**
   * The outcome of the slot guard: None when the insert goes ahead, or the
   * refusal. Only a truthy table_id is checked; an undefined date or time in
   * the lookup is an error (500); a booked slot is refused with 400.
   */
  function SlotGuard(rows: seq<Row<Reservation>>, q: ReservationRequest): (r: Option<Reply<Row<Reservation>>>)
    ensures !Truthy(q.tableId) ==> r.None?
    ensures r.Some? ==> r.value.Fail?
    ensures (&& Truthy(q.tableId) && q.reservationDate.Some? && q.reservationTime.Some?
             && !SlotTaken(rows, q.tableId.value, q.reservationDate.value, q.reservationTime.value)) <==> r.None? && Truthy(q.tableId)
    ensures (&& Truthy(q.tableId) && q.reservationDate.Some? && q.reservationTime.Some?
             && SlotTaken(rows, q.tableId.value, q.reservationDate.value, q.reservationTime.value)) ==>
      r == Some(Fail(400, "Table already reserved for this time"))
    ensures Truthy(q.tableId) && q.reservationDate.None? ==>
      r == Some(Fail(500, UndefinedWhere("reservation_date")))
    ensures Truthy(q.tableId) && q.reservationDate.Some? && q.reservationTime.None? ==>
      r == Some(Fail(500, UndefinedWhere("reservation_time")))
  {
    if !Truthy(q.tableId) then None
    else if q.reservationDate.None? then Some(Fail(500, UndefinedWhere("reservation_date")))
    else if q.reservationTime.None? then Some(Fail(500, UndefinedWhere("reservation_time")))
    else if SlotTaken(rows, q.tableId.value, q.reservationDate.value, q.reservationTime.value) then
      Some(Fail(400, "Table already reserved for this time"))
    else None
  }

  /**
   * createReservation as written: the record it inserts carries no status,
   * so nothing it inserts is ever "BOOKED".
   */
  method CreateReservationAsWritten(reservations: Relation<Reservation>, q: ReservationRequest)
    returns (r: Reply<Row<Reservation>>)
    requires reservations.Valid()
    modifies reservations
    ensures reservations.Valid()
    ensures SlotGuard(old(reservations.rows), q).Some? ==>
      r == SlotGuard(old(reservations.rows), q).value && unchanged(reservations)
    ensures SlotGuard(old(reservations.rows), q).None? ==>
      && r == Ok(201, Row(old(reservations.nextId), Stored(q, None)))
      && reservations.rows == old(reservations.rows) + [r.data]
      && reservations.nextId == old(reservations.nextId) + 1
  {
    var refusal := SlotGuard(reservations.rows, q);
    if refusal.Some? {
      return refusal.value;
    }
    var id := reservations.Create(Stored(q, None));
    r := Ok(201, Row(id, Stored(q, None)));
  }

  /**
   * createReservation: a truthy table_id whose slot is already booked is
   * refused with 400 (500 when the date or time is undefined); otherwise
   * exactly one reservation is inserted, holding the slot as "BOOKED".
   */
  method CreateReservation(reservations: Relation<Reservation>, q: ReservationRequest)
    returns (r: Reply<Row<Reservation>>)
    requires reservations.Valid()
    modifies reservations
    ensures reservations.Valid()
    ensures SlotGuard(old(reservations.rows), q).Some? ==>
      r == SlotGuard(old(reservations.rows), q).value && unchanged(reservations)
    ensures SlotGuard(old(reservations.rows), q).None? ==>
      && r == Ok(201, Row(old(reservations.nextId), Stored(q, Some(BOOKED))))
      && reservations.rows == old(reservations.rows) + [r.data]
      && reservations.nextId == old(reservations.nextId) + 1
  {
    var refusal := SlotGuard(reservations.rows, q);
    if refusal.Some? {
      return refusal.value;
    }
    var id := reservations.Create(Stored(q, Some(BOOKED)));
    r := Ok(201, Row(id, Stored(q, Some(BOOKED))));
  }

  /** A reservation whose status is not "BOOKED" (a cancelled one, say) never takes a slot. */
  lemma NonBookedNeverBlocks(rows: seq<Row<Reservation>>, x: Row<Reservation>, tableId: int, date: int, time: int)
    requires x.val.status != Some(BOOKED)
    ensures SlotTaken(rows + [x], tableId, date, time) <==> SlotTaken(rows, tableId, date, time)
  {
    if SlotTaken(rows + [x], tableId, date, time) {
      var y :| y in rows + [x] && HoldsSlot(y, tableId, date, time);
      assert y in rows;
    }
  }

  /**
   * As written, whatever createReservation inserts leaves every slot guard
   * as it was: the same request may be admitted again and again.
   */
  lemma AsWrittenAdmitsRepeat(rows: seq<Row<Reservation>>, id: int, q: ReservationRequest)
    requires SlotGuard(rows, q).None?
    ensures SlotGuard(rows + [Row(id, Stored(q, None))], q).None?
  {
    if Truthy(q.tableId) {
      NonBookedNeverBlocks(rows, Row(id, Stored(q, None)), q.tableId.value,
                           q.reservationDate.value, q.reservationTime.value);
    }
  }

  /**
   * Two identical requests for table 1 at the same date and time, one
   * after the other, on an empty table: as written both are admitted.
   */
  method DoubleBookingAsWritten() returns (first: Reply<Row<Reservation>>, second: Reply<Row<Reservation>>)
    ensures first.Ok? && second.Ok?
    ensures first.data.val.tableId == second.data.val.tableId == Some(1)
    ensures first.data.val.reservationDate == second.data.val.reservationDate
    ensures first.data.val.reservationTime == second.data.val.reservationTime
    ensures first.data.id != second.data.id
  {
    var reservations := new Relation<Reservation>();
    var q := ReservationRequest(Some(1), Some(1), None, Some("A"), None, Some(20000), Some(720), Some(2));
    first := CreateReservationAsWritten(reservations, q);
    AsWrittenAdmitsRepeat([], first.data.id, q);
    second := CreateReservationAsWritten(reservations, q);
  }

  /**
   * With the status written, a request admitted with a truthy table_id
   * takes its slot: the same request afterwards is refused with 400.
   */
  lemma BookedRefusesRepeat(rows: seq<Row<Reservation>>, id: int, q: ReservationRequest)
    requires SlotGuard(rows, q).None? && Truthy(q.tableId)
    ensures SlotGuard(rows + [Row(id, Stored(q, Some(BOOKED)))], q) == Some(Fail(400, "Table already reserved for this time"))
  {
    var x := Row(id, Stored(q, Some(BOOKED)));
    assert x in rows + [x];
  }

  /** The columns models/reservation.model.js declares for the reservations table. */
  const DECLARED_COLUMNS: set<string> :=
    {"id", "hotel_id", "floor_id", "user_id", "booking_date", "start_time", "end_time",
     "seat_status", "reservation_date", "updated_at"}

  /** The declared columns that are NOT NULL and have no default. */
  const REQUIRED_COLUMNS: set<string> := {"hotel_id", "floor_id", "booking_date", "start_time", "seat_status"}

  /** The columns the slot guard's lookup filters on. */
  const GUARD_COLUMNS: set<string> := {"table_id", "reservation_date", "reservation_time", "status"}

  /**
   * The declared columns createReservation's insert gives a value. The ORM
   * drops every field the model does not declare, which leaves hotel_id and
   * reservation_date.
   */
  function InsertedColumns(q: ReservationRequest): (cols: set<string>)
    ensures cols <= DECLARED_COLUMNS
    ensures "hotel_id" in cols <==> q.hotelId.Some?
    ensures "reservation_date" in cols <==> q.reservationDate.Some?
  {
    (if q.hotelId.Some? then {"hotel_id"} else {}) + (if q.reservationDate.Some? then {"reservation_date"} else {})
  }

  /** Whatever the request, the insert leaves floor_id, booking_date, start_time and seat_status empty. */
  lemma InsertMissesRequired(q: ReservationRequest)
    ensures !(REQUIRED_COLUMNS <= InsertedColumns(q))
    ensures forall c :: c in {"floor_id", "booking_date", "start_time", "seat_status"} ==>
              c in REQUIRED_COLUMNS && c !in InsertedColumns(q)
  {
    assert "floor_id" in REQUIRED_COLUMNS;
  }

  /** The lookup filters on three columns the declared table does not have. */
  lemma GuardNamesUndeclared()
    ensures GUARD_COLUMNS - DECLARED_COLUMNS == {"table_id", "reservation_time", "status"}
  {
  }

  /**
   * createReservation against the reservations table its model declares.
   * With a truthy table_id an undefined date or time is refused by the ORM,
   * and otherwise the lookup names columns the table does not have, which
   * the database refuses. Without one, the insert leaves NOT NULL columns
   * empty and the ORM refuses it. Every request is answered 500, with the
   * error's text, and nothing is stored.
   */
  function CreateReservationAgainstSchema(q: ReservationRequest, errorText: string): (r: Reply<Row<Reservation>>)
    ensures r.Fail? && r.code == 500
    ensures !Truthy(q.tableId) ==> r == Fail(500, errorText)
    ensures Truthy(q.tableId) && q.reservationDate.Some? && q.reservationTime.Some? ==> r == Fail(500, errorText)
  {
    if Truthy(q.tableId) then
      if q.reservationDate.None? then Fail(500, UndefinedWhere("reservation_date"))
      else if q.reservationTime.None? then Fail(500, UndefinedWhere("reservation_time"))
      else GuardNamesUndeclared(); Fail(500, errorText)
    else
      InsertMissesRequired(q); Fail(500, errorText)
  }

  /** Ascending reservation date; a missing date sorts last, as NULLs do in an ascending order. */
  function DateLe(a: Row<Reservation>, b: Row<Reservation>): bool {
    match (a.val.reservationDate, b.val.reservationDate)
    case (Some(x), Some(y)) => x <= y
    case (_, None) => true
    case (None, Some(_)) => false
  }

  /**
   * getReservationsByHotel: the reservations of that hotel and no others,
   * in ascending reservation date.
   */
  function ReservationsByHotel(rows: seq<Row<Reservation>>, hotelId: int): (r: seq<Row<Reservation>>)
    ensures Ordering.SortedBy(r, DateLe)
    ensures forall x :: x in r <==> x in rows && x.val.hotelId == Some(hotelId)
    ensures |r| == |Where(rows, (x: Row<Reservation>) => x.val.hotelId == Some(hotelId))|
  {
    var mine := Where(rows, (x: Row<Reservation>) => x.val.hotelId == Some(hotelId));
    var r := Ordering.SortBy(mine, DateLe);
    forall x ensures x in r <==> x in rows && x.val.hotelId == Some(hotelId) {
      Ordering.SortByMembers(mine, DateLe, x);
      if x in rows && x.val.hotelId == Some(hotelId) {
        var i :| 0 <= i < |rows| && rows[i] == x;
      }
    }
    assert |r| == |multiset(r)| == |multiset(mine)|;
    r
  }

  /** The reservations after cancelling the one with key `id`: its status, and only that, becomes "CANCELLED". */
  function CancelIn(rows: seq<Row<Reservation>>, id: int): (r: seq<Row<Reservation>>)
    ensures |r| == |rows|
    ensures forall i :: 0 <= i < |rows| ==> r[i].id == rows[i].id
    ensures forall i :: 0 <= i < |rows| && rows[i].id == id ==> r[i].val == rows[i].val.(status := Some(CANCELLED))
    ensures forall i :: 0 <= i < |rows| && rows[i].id != id ==> r[i] == rows[i]
  {
    seq(|rows|, i requires 0 <= i < |rows| =>
      if rows[i].id == id then Row(id, rows[i].val.(status := Some(CANCELLED))) else rows[i])
  }

  /** Cancelling twice leaves the same reservations as cancelling once. */
  lemma CancelIdempotent(rows: seq<Row<Reservation>>, id: int)
    ensures CancelIn(CancelIn(rows, id), id) == CancelIn(rows, id)
  {
  }

  /**
   * Cancelling frees the slot: after cancelling `id`, a slot is taken
   * exactly when a BOOKED reservation other than `id` holds it.
   */
  lemma CancelFreesSlot(rows: seq<Row<Reservation>>, id: int, tableId: int, date: int, time: int)
    ensures SlotTaken(CancelIn(rows, id), tableId, date, time) <==>
      exists x :: x in rows && x.id != id && HoldsSlot(x, tableId, date, time)
  {
    var r := CancelIn(rows, id);
    if SlotTaken(r, tableId, date, time) {
      var y :| y in r && HoldsSlot(y, tableId, date, time);
      var i :| 0 <= i < |r| && r[i] == y;
      assert rows[i].id != id && rows[i] == y;
      assert HoldsSlot(rows[i], tableId, date, time);
    }
    if exists x :: x in rows && x.id != id && HoldsSlot(x, tableId, date, time) {
      var x :| x in rows && x.id != id && HoldsSlot(x, tableId, date, time);
      var i :| 0 <= i < |rows| && rows[i] == x;
      assert r[i] == x;
    }
  }

  /**
   * cancelReservation: 404 for an unknown reservation; otherwise its status
   * becomes "CANCELLED" and nothing else changes.
   */
  method CancelReservation(reservations: Relation<Reservation>, id: int) returns (r: Reply<string>)
    requires reservations.Valid()
    modifies reservations
    ensures reservations.Valid() && reservations.nextId == old(reservations.nextId)
    ensures !Has(old(reservations.rows), id) ==>
      r == Fail(404, "Reservation not found") && reservations.rows == old(reservations.rows)
    ensures Has(old(reservations.rows), id) ==>
      && r == Ok(200, "Reservation cancelled successfully")
      && reservations.rows == CancelIn(old(reservations.rows), id)
  {
    var found := IndexOf(reservations.rows, id);
    if found.None? {
      return Fail(404, "Reservation not found");
    }
    var i := found.value;
    reservations.Save(i, reservations.rows[i].val.(status := Some(CANCELLED)));
    r := Ok(200, "Reservation cancelled successfully");
  }
}
