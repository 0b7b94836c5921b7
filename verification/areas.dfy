/**
 * The area registry (controllers/area.controller.js): creating an area
 * under a unique name, with its location given by key or resolved by name,
 * and listing areas by name.
 */
module Areas {
  import opened Common
  import opened Store
  import opened Schema
  import Locations
  import Ordering

  /** Some area already has this name. */
  predicate AreaTaken(rows: seq<Row<Area>>, name: string) {
    exists x :: x in rows && x.val.name == name
  }

  /** `findOne({ where: { name } })` on the areas: the first area with that name, if any. */
  function FindArea(rows: seq<Row<Area>>, name: string): (r: Option<Row<Area>>)
    ensures r.None? <==> !AreaTaken(rows, name)
    ensures r.Some? ==> r.value in rows && r.value.val.name == name
  {
    if rows == [] then None
    else if rows[0].val.name == name then Some(rows[0])
    else
      var rest := FindArea(rows[1..], name);
      assert forall x :: x in rows ==> x == rows[0] || x in rows[1..];
      rest
  }

  /** An area under a fresh key and an unused name keeps area names unique. */
  lemma FreshAreaKeepsUnique(rows: seq<Row<Area>>, id: int, area: Area)
    requires AreaNamesUnique(rows) && !AreaTaken(rows, area.name)
    ensures AreaNamesUnique(rows + [Row(id, area)])
    ensures AreaTaken(rows + [Row(id, area)], area.name)
  {
    assert Row(id, area) in rows + [Row(id, area)];
  }

  /**
   * createArea: a missing or empty name is 400 and a name already used 409,
   * with nothing written. Otherwise the area is inserted with the
   * location_id it was given when that is truthy; failing that, with the key
   * of the location named location_name when that is given non-empty (a
   * location created for it when there is none); failing both, with the
   * location_id as given. Area names, and location names, stay unique.
   */
  method CreateArea(areas: Relation<Area>, locations: Relation<Location>,
                    name: Option<string>, description: Option<string>,
                    locationId: Option<int>, locationName: Option<string>)
    returns (r: Reply<Row<Area>>)
    requires areas.Valid() && AreaNamesUnique(areas.rows)
    requires locations.Valid() && LocationNamesUnique(locations.rows)
    modifies areas, locations
    ensures areas.Valid() && AreaNamesUnique(areas.rows)
    ensures locations.Valid() && LocationNamesUnique(locations.rows)
    ensures !Filled(name) ==>
      r == Fail(400, "name is required") && unchanged(areas) && unchanged(locations)
    ensures Filled(name) && AreaTaken(old(areas.rows), name.value) ==>
      r == Fail(409, "Area already exists") && unchanged(areas) && unchanged(locations)
    ensures Filled(name) && !AreaTaken(old(areas.rows), name.value) ==>
      && r.Ok? && r.code == 201
      && r.data == Row(old(areas.nextId), Area(name.value, description, r.data.val.locationId))
      && areas.rows == old(areas.rows) + [r.data]
      && areas.nextId == old(areas.nextId) + 1
    ensures (Filled(name) && !AreaTaken(old(areas.rows), name.value)
             && (Truthy(locationId) || !Filled(locationName))) ==>
      && r.data.val.locationId == locationId
      && unchanged(locations)
    ensures (Filled(name) && !AreaTaken(old(areas.rows), name.value)
             && !Truthy(locationId) && Filled(locationName)) ==>
      && r.data.val.locationId.Some?
      && Locations.Named(locations.rows, locationName.value, r.data.val.locationId.value)
      && (Locations.NameTaken(old(locations.rows), locationName.value) ==> unchanged(locations))
      && (!Locations.NameTaken(old(locations.rows), locationName.value) ==>
            locations.rows == old(locations.rows) + [Row(old(locations.nextId), Location(locationName.value, None))])
  {
    if !Filled(name) {
      return Fail(400, "name is required");
    }
    if FindArea(areas.rows, name.value).Some? {
      return Fail(409, "Area already exists");
    }
    var resolved := locationId;
    if !Truthy(resolved) && Filled(locationName) {
      var id := Locations.FindOrCreateLocation(locations, locationName.value);
      resolved := Some(id);
    }
    var area := Area(name.value, description, resolved);
    FreshAreaKeepsUnique(areas.rows, areas.nextId, area);
    var id := areas.Create(area);
    r := Ok(201, Row(id, area));
  }

  /** Areas in ascending name. */
  function AreaNameLe(a: Row<Area>, b: Row<Area>): bool {
    NameLe(a.val.name, b.val.name)
  }

  /** The name order compares any two areas and is transitive. */
  lemma AreaNameOrder()
    ensures Ordering.TotalPreorder(AreaNameLe)
  {
    forall a: Row<Area>, b: Row<Area> ensures AreaNameLe(a, b) || AreaNameLe(b, a) {
      NameLeTotal(a.val.name, b.val.name);
    }
    forall a: Row<Area>, b: Row<Area>, c: Row<Area> | AreaNameLe(a, b) && AreaNameLe(b, c)
      ensures AreaNameLe(a, c)
    {
      NameLeTransitive(a.val.name, b.val.name, c.val.name);
    }
  }

  /** getAllAreas: every area once, in ascending name. */
  function AllAreas(rows: seq<Row<Area>>): (r: seq<Row<Area>>)
    ensures Ordering.SortedBy(r, AreaNameLe)
    ensures multiset(r) == multiset(rows)
  {
    AreaNameOrder();
    Ordering.SortBy(rows, AreaNameLe)
  }
}
