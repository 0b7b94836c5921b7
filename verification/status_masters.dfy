/**
 * The two status registries (controllers/seatStatusMaster.controller.js and
 * controllers/diningStatusMaster.controller.js): entries keyed by a unique
 * status_id, created under a required-field and duplicate guard and listed
 * in order. The two create handlers are the same code over different tables;
 * the dining table fills in a default colour.
 */
module StatusMasters {
  import opened Common
  import opened Store
  import opened Schema
  import Ordering

  /** The colour the dining table stores when none is written. */
  const DEFAULT_COLOR: string := "#000000"

  /** Some entry already has this status_id. */
  predicate StatusTaken(rows: seq<Row<StatusEntry>>, statusId: int) {
    exists x :: x in rows && x.val.statusId == statusId
  }

  /** `findOne({ where: { status_id } })`: the first entry with that status_id, if any. */
  function FindStatus(rows: seq<Row<StatusEntry>>, statusId: int): (r: Option<Row<StatusEntry>>)
    ensures r.None? <==> !StatusTaken(rows, statusId)
    ensures r.Some? ==> r.value in rows && r.value.val.statusId == statusId
  {
    if rows == [] then None
    else if rows[0].val.statusId == statusId then Some(rows[0])
    else
      var rest := FindStatus(rows[1..], statusId);
      assert forall x :: x in rows ==> x == rows[0] || x in rows[1..];
      rest
  }

  /** An entry under an unused status_id keeps status ids unique. */
  lemma FreshStatusKeepsUnique(rows: seq<Row<StatusEntry>>, id: int, e: StatusEntry)
    requires StatusIdsUnique(rows) && !StatusTaken(rows, e.statusId)
    ensures StatusIdsUnique(rows + [Row(id, e)])
    ensures StatusTaken(rows + [Row(id, e)], e.statusId)
  {
    assert Row(id, e) in rows + [Row(id, e)];
  }

  /**
   * The create handler both registries share: a falsy status_id (absent or
   * 0) or a falsy name (absent or empty) is 400, a status_id already used is
   * 409 (with the seat-status message in both), nothing being written;
   * otherwise exactly that status_id and name are inserted, with `color`,
   * and status ids stay unique.
   */
  method CreateStatus(entries: Relation<StatusEntry>, statusId: Option<int>, name: Option<string>,
                      color: Option<string>)
    returns (r: Reply<Row<StatusEntry>>)
    requires entries.Valid() && StatusIdsUnique(entries.rows)
    modifies entries
    ensures entries.Valid() && StatusIdsUnique(entries.rows)
    ensures !Truthy(statusId) || !Filled(name) ==>
      r == Fail(400, "status_id and name are required") && unchanged(entries)
    ensures Truthy(statusId) && Filled(name) && StatusTaken(old(entries.rows), statusId.value) ==>
      r == Fail(409, "Seat status already exists") && unchanged(entries)
    ensures Truthy(statusId) && Filled(name) && !StatusTaken(old(entries.rows), statusId.value) ==>
      && r == Ok(201, Row(old(entries.nextId), StatusEntry(statusId.value, name.value, color)))
      && entries.rows == old(entries.rows) + [r.data]
      && entries.nextId == old(entries.nextId) + 1
  {
    if !Truthy(statusId) || !Filled(name) {
      return Fail(400, "status_id and name are required");
    }
    if FindStatus(entries.rows, statusId.value).Some? {
      return Fail(409, "Seat status already exists");
    }
    var e := StatusEntry(statusId.value, name.value, color);
    FreshStatusKeepsUnique(entries.rows, entries.nextId, e);
    var id := entries.Create(e);
    r := Ok(201, Row(id, e));
  }

  /** createSeatStatus: the shared handler on the seat-status table, which has no colour. */
  method CreateSeatStatus(statuses: Relation<StatusEntry>, statusId: Option<int>, name: Option<string>)
    returns (r: Reply<Row<StatusEntry>>)
    requires statuses.Valid() && StatusIdsUnique(statuses.rows)
    modifies statuses
    ensures statuses.Valid() && StatusIdsUnique(statuses.rows)
    ensures !Truthy(statusId) || !Filled(name) ==>
      r == Fail(400, "status_id and name are required") && unchanged(statuses)
    ensures Truthy(statusId) && Filled(name) && StatusTaken(old(statuses.rows), statusId.value) ==>
      r == Fail(409, "Seat status already exists") && unchanged(statuses)
    ensures Truthy(statusId) && Filled(name) && !StatusTaken(old(statuses.rows), statusId.value) ==>
      && r == Ok(201, Row(old(statuses.nextId), StatusEntry(statusId.value, name.value, None)))
      && statuses.rows == old(statuses.rows) + [r.data]
  {
    r := CreateStatus(statuses, statusId, name, None);
  }

  /** createDiningStatus: the shared handler on the dining-status table, which colours the entry "#000000". */
  method CreateDiningStatus(dining: Relation<StatusEntry>, statusId: Option<int>, name: Option<string>)
    returns (r: Reply<Row<StatusEntry>>)
    requires dining.Valid() && StatusIdsUnique(dining.rows)
    modifies dining
    ensures dining.Valid() && StatusIdsUnique(dining.rows)
    ensures !Truthy(statusId) || !Filled(name) ==>
      r == Fail(400, "status_id and name are required") && unchanged(dining)
    ensures Truthy(statusId) && Filled(name) && StatusTaken(old(dining.rows), statusId.value) ==>
      r == Fail(409, "Seat status already exists") && unchanged(dining)
    ensures Truthy(statusId) && Filled(name) && !StatusTaken(old(dining.rows), statusId.value) ==>
      && r == Ok(201, Row(old(dining.nextId), StatusEntry(statusId.value, name.value, Some(DEFAULT_COLOR))))
      && dining.rows == old(dining.rows) + [r.data]
  {
    r := CreateStatus(dining, statusId, name, Some(DEFAULT_COLOR));
  }

  /** Entries in ascending status_id. */
  function StatusIdLe(a: Row<StatusEntry>, b: Row<StatusEntry>): bool {
    a.val.statusId <= b.val.statusId
  }

  /** getAllSeatStatuses: every entry once, in ascending status_id. */
  function SeatStatusesById(rows: seq<Row<StatusEntry>>): (r: seq<Row<StatusEntry>>)
    ensures Ordering.SortedBy(r, StatusIdLe)
    ensures multiset(r) == multiset(rows)
  {
    Ordering.SortBy(rows, StatusIdLe)
  }

  /**
   * With status ids unique, the seat statuses come back in strictly
   * ascending status_id: no status_id twice.
   */
  lemma SeatStatusesStrict(rows: seq<Row<StatusEntry>>)
    requires IdsAscending(rows) && StatusIdsUnique(rows)
    ensures var r := SeatStatusesById(rows);
      forall i, j :: 0 <= i < j < |r| ==> r[i].val.statusId < r[j].val.statusId
  {
    var r := SeatStatusesById(rows);
    forall i, j | 0 <= i < j < |r| ensures r[i].val.statusId < r[j].val.statusId {
      PermutedKeysDistinct(rows, r, i, j);
      assert r[i] in multiset(rows) && r[j] in multiset(rows);
    }
  }

  /** Entries in ascending name. */
  function StatusNameLe(a: Row<StatusEntry>, b: Row<StatusEntry>): bool {
    NameLe(a.val.name, b.val.name)
  }

  /** The name order compares any two entries and is transitive. */
  lemma StatusNameOrder()
    ensures Ordering.TotalPreorder(StatusNameLe)
  {
    forall a: Row<StatusEntry>, b: Row<StatusEntry> ensures StatusNameLe(a, b) || StatusNameLe(b, a) {
      NameLeTotal(a.val.name, b.val.name);
    }
    forall a: Row<StatusEntry>, b: Row<StatusEntry>, c: Row<StatusEntry>
      | StatusNameLe(a, b) && StatusNameLe(b, c)
      ensures StatusNameLe(a, c)
    {
      NameLeTransitive(a.val.name, b.val.name, c.val.name);
    }
  }

  /** getAllDiningStatuses: every entry once, in ascending name. */
  function DiningStatusesByName(rows: seq<Row<StatusEntry>>): (r: seq<Row<StatusEntry>>)
    ensures Ordering.SortedBy(r, StatusNameLe)
    ensures multiset(r) == multiset(rows)
  {
    StatusNameOrder();
    Ordering.SortBy(rows, StatusNameLe)
  }
}
