/**
 * The location registry (controllers/location.controller.js): creating a
 * location under a unique name, listing by name, find-or-create by name,
 * and the bulk assignment that turns each hotel's free-text location into a
 * location row and links the hotel to it.
 */
module Locations {
  import opened Common
  import opened Store
  import opened Schema
  import Ordering

  /** Some location already has this name. */
  predicate NameTaken(rows: seq<Row<Location>>, name: string) {
    exists x :: x in rows && x.val.name == name
  }

  /** The location stored under key `id` has this name. */
  predicate Named(rows: seq<Row<Location>>, name: string, id: int) {
    exists x :: x in rows && x.id == id && x.val.name == name
  }

  /** With names unique, a name names at most one key. */
  lemma NamedIsUnique(rows: seq<Row<Location>>, name: string, a: int, b: int)
    requires LocationNamesUnique(rows)
    requires Named(rows, name, a) && Named(rows, name, b)
    ensures a == b
  {
    var x :| x in rows && x.id == a && x.val.name == name;
    var y :| y in rows && y.id == b && y.val.name == name;
  }

  /** `findOne({ where: { name } })`: the first location with that name, if any. */
  function FindByName(rows: seq<Row<Location>>, name: string): (r: Option<Row<Location>>)
    ensures r.None? <==> !NameTaken(rows, name)
    ensures r.Some? ==> r.value in rows && r.value.val.name == name
  {
    if rows == [] then None
    else if rows[0].val.name == name then Some(rows[0])
    else
      var rest := FindByName(rows[1..], name);
      assert forall x :: x in rows ==> x == rows[0] || x in rows[1..];
      rest
  }

  /** A location under a fresh key and an unused name keeps names unique, and is named so. */
  lemma FreshNameKeepsUnique(rows: seq<Row<Location>>, id: int, loc: Location)
    requires LocationNamesUnique(rows) && !NameTaken(rows, loc.name)
    requires forall x :: x in rows ==> x.id < id
    ensures LocationNamesUnique(rows + [Row(id, loc)])
    ensures Named(rows + [Row(id, loc)], loc.name, id)
  {
    assert Row(id, loc) in rows + [Row(id, loc)];
  }

  /**
   * createLocation: a missing or empty name is 400, a name already used
   * 409; otherwise one location with that name and description is
   * inserted, so names stay unique.
   */
  method CreateLocation(locations: Relation<Location>, name: Option<string>, description: Option<string>)
    returns (r: Reply<Row<Location>>)
    requires locations.Valid() && LocationNamesUnique(locations.rows)
    modifies locations
    ensures locations.Valid() && LocationNamesUnique(locations.rows)
    ensures !Filled(name) ==> r == Fail(400, "name is required") && unchanged(locations)
    ensures Filled(name) && NameTaken(old(locations.rows), name.value) ==>
      r == Fail(409, "Location already exists") && unchanged(locations)
    ensures Filled(name) && !NameTaken(old(locations.rows), name.value) ==>
      && r == Ok(201, Row(old(locations.nextId), Location(name.value, description)))
      && locations.rows == old(locations.rows) + [r.data]
  {
    if !Filled(name) {
      return Fail(400, "name is required");
    }
    if FindByName(locations.rows, name.value).Some? {
      return Fail(409, "Location already exists");
    }
    FreshNameKeepsUnique(locations.rows, locations.nextId, Location(name.value, description));
    var id := locations.Create(Location(name.value, description));
    r := Ok(201, Row(id, Location(name.value, description)));
  }

  /** Locations in ascending name. */
  function LocationNameLe(a: Row<Location>, b: Row<Location>): bool {
    NameLe(a.val.name, b.val.name)
  }

  /** The name order compares any two locations and is transitive. */
  lemma LocationNameOrder()
    ensures Ordering.TotalPreorder(LocationNameLe)
  {
    forall a: Row<Location>, b: Row<Location> ensures LocationNameLe(a, b) || LocationNameLe(b, a) {
      NameLeTotal(a.val.name, b.val.name);
    }
    forall a: Row<Location>, b: Row<Location>, c: Row<Location> | LocationNameLe(a, b) && LocationNameLe(b, c)
      ensures LocationNameLe(a, c)
    {
      NameLeTransitive(a.val.name, b.val.name, c.val.name);
    }
  }

  /** getAllLocations: every location once, in ascending name. */
  function AllLocations(rows: seq<Row<Location>>): (r: seq<Row<Location>>)
    ensures Ordering.SortedBy(r, LocationNameLe)
    ensures multiset(r) == multiset(rows)
  {
    LocationNameOrder();
    Ordering.SortBy(rows, LocationNameLe)
  }

  /**
   * Find-or-create by name: the key of the location with that name,
   * inserting one (without a description) only when there is none, so a
   * name never gets a second location.
   */
  method FindOrCreateLocation(locations: Relation<Location>, name: string) returns (id: int)
    requires locations.Valid() && LocationNamesUnique(locations.rows)
    modifies locations
    ensures locations.Valid() && LocationNamesUnique(locations.rows)
    ensures Named(locations.rows, name, id)
    ensures NameTaken(old(locations.rows), name) ==> unchanged(locations)
    ensures !NameTaken(old(locations.rows), name) ==>
      && id == old(locations.nextId)
      && locations.rows == old(locations.rows) + [Row(id, Location(name, None))]
      && locations.nextId == old(locations.nextId) + 1
    ensures GrewBy(old(locations.rows), locations.rows, [name])
  {
    var found := FindByName(locations.rows, name);
    if found.Some? {
      NoGrowth(locations.rows, [name]);
      return found.value.id;
    }
    ghost var before := locations.rows;
    FreshNameKeepsUnique(before, locations.nextId, Location(name, None));
    OneNewName(before, locations.nextId, name);
    id := locations.Create(Location(name, None));
  }

  /** `(h.location || "").trim()`: the hotel's location text, trimmed; "" when it has none. */
  function LocationName(h: Row<Hotel>): string {
    if h.val.location.Some? then Trim(h.val.location.value) else ""
  }

  /** A hotel's key with its location name, as the grouping loop reads it. */
  datatype Tag = Tag(id: int, name: string)

  /** The key and location name of every hotel, in table order. */
  function Tags(hs: seq<Row<Hotel>>): (r: seq<Tag>)
    ensures |r| == |hs|
    ensures forall i :: 0 <= i < |hs| ==> r[i] == Tag(hs[i].id, LocationName(hs[i]))
  {
    seq(|hs|, i requires 0 <= i < |hs| => Tag(hs[i].id, LocationName(hs[i])))
  }

  /**
   * The hotels as the ORM loads them under models/hotelTable.model.js,
   * which declares no `location`: the attribute reads as undefined.
   */
  function Unread(hs: seq<Row<Hotel>>): (r: seq<Row<Hotel>>)
    ensures |r| == |hs|
    ensures forall i :: 0 <= i < |hs| ==> r[i] == Row(hs[i].id, hs[i].val.(location := None))
  {
    seq(|hs|, i requires 0 <= i < |hs| => Row(hs[i].id, hs[i].val.(location := None)))
  }

  /** One entry of bulkAssignLocations' map: a name and the hotels that carry it. */
  datatype Group = Group(name: string, hotelIds: seq<int>)

  /** The distinct non-empty names, in order of first appearance. */
  function Names(tags: seq<Tag>): seq<string> {
    if tags == [] then []
    else
      var front := Names(tags[..|tags| - 1]);
      var n := tags[|tags| - 1].name;
      if n == "" || n in front then front else front + [n]
  }

  /** The keys tagged with `n`, in order. */
  function IdsNamed(tags: seq<Tag>, n: string): seq<int> {
    if tags == [] then []
    else IdsNamed(tags[..|tags| - 1], n) + (if tags[|tags| - 1].name == n then [tags[|tags| - 1].id] else [])
  }

  /** What the grouping loop builds: one group per distinct name, holding exactly its keys. */
  function Grouping(tags: seq<Tag>): seq<Group> {
    var names := Names(tags);
    seq(|names|, k requires 0 <= k < |names| => Group(names[k], IdsNamed(tags, names[k])))
  }

  /** A name is listed exactly when it is not empty and some hotel carries it. */
  lemma {:induction false} NamesMembers(tags: seq<Tag>, n: string)
    ensures n in Names(tags) <==> n != "" && exists i :: 0 <= i < |tags| && tags[i].name == n
  {
    if tags != [] {
      var front := tags[..|tags| - 1];
      NamesMembers(front, n);
      if exists i :: 0 <= i < |tags| && tags[i].name == n {
        var i :| 0 <= i < |tags| && tags[i].name == n;
        if i < |front| {
          assert front[i] == tags[i];
        }
      }
    }
  }

  /** No name is listed twice. */
  lemma {:induction false} NamesDistinct(tags: seq<Tag>)
    ensures forall k, l :: 0 <= k < l < |Names(tags)| ==> Names(tags)[k] != Names(tags)[l]
  {
    if tags != [] {
      NamesDistinct(tags[..|tags| - 1]);
    }
  }

  /** A key is listed under `n` exactly when a hotel with that key carries `n`. */
  lemma {:induction false} IdsNamedMembers(tags: seq<Tag>, n: string, id: int)
    ensures id in IdsNamed(tags, n) <==> exists i :: 0 <= i < |tags| && tags[i] == Tag(id, n)
  {
    if tags != [] {
      var front := tags[..|tags| - 1];
      IdsNamedMembers(front, n, id);
      if exists i :: 0 <= i < |tags| && tags[i] == Tag(id, n) {
        var i :| 0 <= i < |tags| && tags[i] == Tag(id, n);
        if i < |front| {
          assert front[i] == tags[i];
        }
      }
    }
  }

  /** A name no hotel carries has no keys. */
  lemma {:induction false} IdsNamedNone(tags: seq<Tag>, n: string)
    requires forall i :: 0 <= i < |tags| ==> tags[i].name != n
    ensures IdsNamed(tags, n) == []
  {
    if tags != [] {
      IdsNamedNone(tags[..|tags| - 1], n);
    }
  }

  /**
   * Every later name of the list is preceded in the hotels by every earlier
   * name: the groups come in the order their names first appear.
   */
  lemma {:induction false} NamesInFirstAppearanceOrder(tags: seq<Tag>)
    ensures forall k, l, b ::
              (0 <= k < l < |Names(tags)| && 0 <= b < |tags| && tags[b].name == Names(tags)[l])
              ==> exists a :: 0 <= a < b && tags[a].name == Names(tags)[k]
  {
    if tags != [] {
      var front := tags[..|tags| - 1];
      NamesInFirstAppearanceOrder(front);
      var names := Names(tags);
      forall k, l, b | 0 <= k < l < |names| && 0 <= b < |tags| && tags[b].name == names[l]
        ensures exists a :: 0 <= a < b && tags[a].name == names[k]
      {
        var earlier := names[k];
        assert earlier in Names(front);
        NamesMembers(front, earlier);
        if b < |front| {
          assert front[b] == tags[b];
          NamesMembers(front, names[l]);
          assert l < |Names(front)|;
          var a :| 0 <= a < b && front[a].name == earlier;
          assert tags[a] == front[a];
        } else {
          var a :| 0 <= a < |front| && front[a].name == earlier;
          assert tags[a] == front[a];
        }
      }
    }
  }

  /**
   * The groups partition the hotels that have a location name: keys being
   * unique, a hotel is in a group exactly when the group's name is its
   * name; each such name has a group; no name has two.
   */
  lemma GroupsPartition(tags: seq<Tag>)
    requires forall i, j :: 0 <= i < j < |tags| ==> tags[i].id != tags[j].id
    ensures forall i, k :: 0 <= i < |tags| && 0 <= k < |Grouping(tags)| ==>
      (tags[i].id in Grouping(tags)[k].hotelIds <==> tags[i].name == Grouping(tags)[k].name)
    ensures forall i :: 0 <= i < |tags| && tags[i].name != "" ==>
      exists k :: 0 <= k < |Grouping(tags)| && Grouping(tags)[k].name == tags[i].name
    ensures forall k, l :: 0 <= k < l < |Grouping(tags)| ==> Grouping(tags)[k].name != Grouping(tags)[l].name
  {
    var gs := Grouping(tags);
    NamesDistinct(tags);
    forall i, k | 0 <= i < |tags| && 0 <= k < |gs|
      ensures tags[i].id in gs[k].hotelIds <==> tags[i].name == gs[k].name
    {
      IdsNamedMembers(tags, gs[k].name, tags[i].id);
    }
    forall i | 0 <= i < |tags| && tags[i].name != ""
      ensures exists k :: 0 <= k < |gs| && gs[k].name == tags[i].name
    {
      NamesMembers(tags, tags[i].name);
      var k :| 0 <= k < |Names(tags)| && Names(tags)[k] == tags[i].name;
      assert gs[k].name == tags[i].name;
    }
  }

  /** `map.has(name)`: where the group with that name sits, if any. */
  function GroupIndex(groups: seq<Group>, name: string): (r: Option<nat>)
    ensures r.Some? ==> r.value < |groups| && groups[r.value].name == name
    ensures r.None? ==> forall k :: 0 <= k < |groups| ==> groups[k].name != name
  {
    if groups == [] then None
    else if groups[|groups| - 1].name == name then Some(|groups| - 1)
    else GroupIndex(groups[..|groups| - 1], name)
  }

  /** One hotel more for the grouping loop: skipped, added to its group, or starting a new one. */
  lemma GroupingStep(tags: seq<Tag>, i: nat)
    requires i < |tags|
    ensures var prev := Grouping(tags[..i]);
      var n := tags[i].name;
      && (n == "" ==> Grouping(tags[..i + 1]) == prev)
      && (n != "" && GroupIndex(prev, n).Some? ==>
            var k := GroupIndex(prev, n).value;
            Grouping(tags[..i + 1]) == prev[k := Group(n, prev[k].hotelIds + [tags[i].id])])
      && (n != "" && GroupIndex(prev, n).None? ==> Grouping(tags[..i + 1]) == prev + [Group(n, [tags[i].id])])
  {
    var before := tags[..i];
    var after := tags[..i + 1];
    assert after[..i] == before;
    var n := tags[i].name;
    var prev := Grouping(before);
    var next := Grouping(after);
    forall m | m in Names(before) ensures m != "" {
      NamesMembers(before, m);
    }
    assert forall m :: m != n ==> IdsNamed(after, m) == IdsNamed(before, m);
    if n != "" && GroupIndex(prev, n).Some? {
      var k := GroupIndex(prev, n).value;
      assert Names(before)[k] == n;
      assert Names(after) == Names(before);
      NamesDistinct(before);
      forall j | 0 <= j < |next| ensures next[j] == prev[k := Group(n, prev[k].hotelIds + [tags[i].id])][j] {
      }
    } else if n != "" {
      forall k | 0 <= k < |Names(before)| ensures Names(before)[k] != n {
        assert prev[k].name == Names(before)[k];
      }
      NamesMembers(before, n);
      IdsNamedNone(before, n);
      assert Names(after) == Names(before) + [n];
      forall j | 0 <= j < |next| ensures next[j] == (prev + [Group(n, [tags[i].id])])[j] {
      }
    } else {
      assert Names(after) == Names(before);
      forall j | 0 <= j < |next| ensures next[j] == prev[j] {
        assert Names(before)[j] in Names(before);
      }
    }
  }

  /** The grouping loop: each hotel's key is pushed onto the group of its trimmed location name. */
  method GroupByLocation(hs: seq<Row<Hotel>>) returns (groups: seq<Group>)
    ensures groups == Grouping(Tags(hs))
  {
    ghost var tags := Tags(hs);
    groups := [];
    var i := 0;
    while i < |hs|
      invariant 0 <= i <= |hs|
      invariant groups == Grouping(tags[..i])
    {
      var name := LocationName(hs[i]);
      groups := AddToGroup(tags, i, groups, hs[i].id, name);
      i := i + 1;
    }
    assert tags[..i] == tags;
  }

  /** The body of the grouping loop: one hotel, with its key and location name, joins the map. */
  method AddToGroup(ghost tags: seq<Tag>, ghost i: nat, groups: seq<Group>, id: int, name: string)
    returns (r: seq<Group>)
    requires i < |tags| && tags[i] == Tag(id, name)
    requires groups == Grouping(tags[..i])
    ensures r == Grouping(tags[..i + 1])
  {
    GroupingStep(tags, i);
    r := groups;
    if name != "" {
      var at := GroupIndex(groups, name);
      if at.None? {
        r := groups + [Group(name, [id])];
      } else {
        r := groups[at.value := Group(name, groups[at.value].hotelIds + [id])];
      }
    }
  }

  /** One entry of bulkAssignLocations' answer. */
  datatype Assignment = Assignment(name: string, locationId: int, hotelsUpdated: nat)

  /**
   * A hotel after the assignment, `name` being its location name: with a
   * name it points at the location of that name and is otherwise
   * unchanged; without one it is untouched.
   */
  ghost predicate Assigned(locations: seq<Row<Location>>, name: string, before: Row<Hotel>, after: Row<Hotel>) {
    && after.id == before.id
    && (name == "" ==> after == before)
    && (name != "" ==>
          && after.val.locationId.Some?
          && Named(locations, name, after.val.locationId.value)
          && after.val == before.val.(locationId := after.val.locationId))
  }

  /** One hotel across one group's update. */
  lemma AssignOne(t: Tag, h: Row<Hotel>, before: Row<Hotel>, after: Row<Hotel>,
                  locsBefore: seq<Row<Location>>, locsAfter: seq<Row<Location>>,
                  done: seq<string>, name: string, ids: seq<int>, locationId: int)
    requires t.id == h.id && name !in done && name != ""
    requires forall x :: x in locsBefore ==> x in locsAfter
    requires Named(locsAfter, name, locationId)
    requires h.id in ids <==> t.name == name
    requires t.name !in done ==> before == h
    requires t.name in done ==> Assigned(locsBefore, t.name, h, before)
    requires after == if before.id in ids then Row(before.id, before.val.(locationId := Some(locationId))) else before
    ensures t.name !in done + [name] ==> after == h
    ensures t.name in done + [name] ==> Assigned(locsAfter, t.name, h, after)
  {
    if t.name in done && t.name != "" {
      var x :| x in locsBefore && x.id == before.val.locationId.value && x.val.name == t.name;
      assert x in locsAfter;
    }
  }

  /** Every hotel across one group's update. */
  lemma AssignStep(tags: seq<Tag>, hs: seq<Row<Hotel>>, rowsBefore: seq<Row<Hotel>>, rowsAfter: seq<Row<Hotel>>,
                   locsBefore: seq<Row<Location>>, locsAfter: seq<Row<Location>>,
                   done: seq<string>, name: string, ids: seq<int>, locationId: int)
    requires |tags| == |hs| && |rowsBefore| == |hs| && |rowsAfter| == |hs|
    requires forall i :: 0 <= i < |hs| ==> tags[i].id == hs[i].id
    requires name !in done && name != ""
    requires forall x :: x in locsBefore ==> x in locsAfter
    requires Named(locsAfter, name, locationId)
    requires forall i :: 0 <= i < |hs| ==> (hs[i].id in ids <==> tags[i].name == name)
    requires forall i :: 0 <= i < |hs| && tags[i].name !in done ==> rowsBefore[i] == hs[i]
    requires forall i :: 0 <= i < |hs| && tags[i].name in done ==> Assigned(locsBefore, tags[i].name, hs[i], rowsBefore[i])
    requires forall i :: 0 <= i < |hs| ==>
      rowsAfter[i] == (if rowsBefore[i].id in ids
                       then Row(rowsBefore[i].id, rowsBefore[i].val.(locationId := Some(locationId)))
                       else rowsBefore[i])
    ensures forall i :: 0 <= i < |hs| && tags[i].name !in done + [name] ==> rowsAfter[i] == hs[i]
    ensures forall i :: 0 <= i < |hs| && tags[i].name in done + [name] ==>
      Assigned(locsAfter, tags[i].name, hs[i], rowsAfter[i])
  {
    forall i | 0 <= i < |hs|
      ensures tags[i].name !in done + [name] ==> rowsAfter[i] == hs[i]
      ensures tags[i].name in done + [name] ==> Assigned(locsAfter, tags[i].name, hs[i], rowsAfter[i])
    {
      AssignOne(tags[i], hs[i], rowsBefore[i], rowsAfter[i], locsBefore, locsAfter, done, name, ids, locationId);
    }
  }

  /** Locations only gained rows, each new one a listed name without a description. */
  ghost predicate GrewBy(before: seq<Row<Location>>, after: seq<Row<Location>>, names: seq<string>) {
    && |before| <= |after| && after[..|before|] == before
    && forall j :: |before| <= j < |after| ==> after[j].val.name in names && after[j].val.description.None?
  }

  /** A table that did not change grew by nothing. */
  lemma NoGrowth(rows: seq<Row<Location>>, names: seq<string>)
    ensures GrewBy(rows, rows, names)
  {
    assert rows[..|rows|] == rows;
  }

  /** A table that gained one location named `name` without a description grew by that name. */
  lemma OneNewName(rows: seq<Row<Location>>, id: int, name: string)
    ensures GrewBy(rows, rows + [Row(id, Location(name, None))], [name])
  {
    assert (rows + [Row(id, Location(name, None))])[..|rows|] == rows;
  }

  /** Growth by one name's find-or-create extends a growth over a list holding that name. */
  lemma GrewFurther(a: seq<Row<Location>>, b: seq<Row<Location>>, c: seq<Row<Location>>, names: seq<string>, name: string)
    requires GrewBy(a, b, names) && GrewBy(b, c, [name]) && name in names
    ensures GrewBy(a, c, names)
    ensures forall x :: x in b ==> x in c
  {
    assert c[..|a|] == c[..|b|][..|a|];
    forall x | x in b ensures x in c {
      var j :| 0 <= j < |b| && b[j] == x;
      assert c[j] == x;
    }
  }

  /** A key named in a table keeps its name in any table holding all its rows. */
  lemma NamedKept(b: seq<Row<Location>>, c: seq<Row<Location>>, name: string, id: int)
    requires forall x :: x in b ==> x in c
    requires Named(b, name, id)
    ensures Named(c, name, id)
  {
    var x :| x in b && x.id == id && x.val.name == name;
    assert x in c;
  }

  /** A prefix one longer is the prefix and the next element. */
  lemma PrefixStep(s: seq<string>, k: nat)
    requires k < |s|
    ensures s[..k + 1] == s[..k] + [s[k]]
  {
  }

  /**
   * The body of the second loop for one group: find or create the
   * location of the name, then point the group's hotels at it.
   */
  method AssignGroup(hotels: Relation<Hotel>, locations: Relation<Location>, name: string, ids: seq<int>)
    returns (locationId: int)
    requires hotels.Valid() && locations.Valid() && LocationNamesUnique(locations.rows)
    modifies hotels, locations
    ensures hotels.Valid() && locations.Valid() && LocationNamesUnique(locations.rows)
    ensures hotels.nextId == old(hotels.nextId) && |hotels.rows| == |old(hotels.rows)|
    ensures Named(locations.rows, name, locationId)
    ensures GrewBy(old(locations.rows), locations.rows, [name])
    ensures forall i :: 0 <= i < |hotels.rows| ==>
      hotels.rows[i] == (if old(hotels.rows)[i].id in ids
                         then Row(old(hotels.rows)[i].id, old(hotels.rows)[i].val.(locationId := Some(locationId)))
                         else old(hotels.rows)[i])
  {
    locationId := FindOrCreateLocation(locations, name);
    hotels.Update((x: Row<Hotel>) => x.id in ids, (h: Hotel) => h.(locationId := Some(locationId)));
  }

  /**
   * What bulkAssignLocations' second loop keeps after the first `k` groups:
   * their hotels point at their locations, every other hotel is as it was,
   * locations only grew by listed names, and the answer has one entry per
   * group done.
   */
  ghost predicate Progress(tags: seq<Tag>, hs: seq<Row<Hotel>>, names: seq<string>, k: nat,
                           rows: seq<Row<Hotel>>, locs0: seq<Row<Location>>, locs: seq<Row<Location>>,
                           results: seq<Assignment>) {
    && k <= |names| && |tags| == |hs| && |rows| == |hs|
    && (forall i :: 0 <= i < |hs| ==> tags[i].id == hs[i].id)
    && (forall i :: 0 <= i < |hs| && tags[i].name !in names[..k] ==> rows[i] == hs[i])
    && (forall i :: 0 <= i < |hs| && tags[i].name in names[..k] ==> Assigned(locs, tags[i].name, hs[i], rows[i]))
    && GrewBy(locs0, locs, names)
    && |results| == k
    && (forall j :: 0 <= j < k ==>
          && results[j].name == names[j]
          && results[j].hotelsUpdated == |IdsNamed(tags, names[j])|
          && Named(locs, names[j], results[j].locationId))
  }

  /** Nothing done yet. */
  lemma ProgressStart(tags: seq<Tag>, hs: seq<Row<Hotel>>, names: seq<string>, locs0: seq<Row<Location>>)
    requires |tags| == |hs| && forall i :: 0 <= i < |hs| ==> tags[i].id == hs[i].id
    ensures Progress(tags, hs, names, 0, hs, locs0, locs0, [])
  {
    NoGrowth(locs0, names);
  }

  /** One group more: its location found or created, its hotels pointed at it. */
  lemma ProgressStep(tags: seq<Tag>, hs: seq<Row<Hotel>>, names: seq<string>, k: nat,
                     rows: seq<Row<Hotel>>, rows': seq<Row<Hotel>>,
                     locs0: seq<Row<Location>>, locs: seq<Row<Location>>, locs': seq<Row<Location>>,
                     results: seq<Assignment>, ids: seq<int>, locationId: int)
    requires Progress(tags, hs, names, k, rows, locs0, locs, results) && k < |names|
    requires forall l, m :: 0 <= l < m < |names| ==> names[l] != names[m]
    requires names[k] != ""
    requires ids == IdsNamed(tags, names[k])
    requires forall i :: 0 <= i < |hs| ==> (hs[i].id in ids <==> tags[i].name == names[k])
    requires Named(locs', names[k], locationId) && GrewBy(locs, locs', [names[k]])
    requires |rows'| == |rows|
    requires forall i :: 0 <= i < |rows| ==>
      rows'[i] == (if rows[i].id in ids then Row(rows[i].id, rows[i].val.(locationId := Some(locationId))) else rows[i])
    ensures Progress(tags, hs, names, k + 1, rows', locs0, locs', results + [Assignment(names[k], locationId, |ids|)])
  {
    var name := names[k];
    assert name !in names[..k];
    GrewFurther(locs0, locs, locs', names, name);
    var results' := results + [Assignment(name, locationId, |ids|)];
    forall j | 0 <= j < k ensures Named(locs', names[j], results[j].locationId) {
      NamedKept(locs, locs', names[j], results[j].locationId);
    }
    AssignStep(tags, hs, rows, rows', locs, locs', names[..k], name, ids, locationId);
    PrefixStep(names, k);
  }

  /** Hotels whose location reads undefined form no group. */
  lemma UnreadLocationsGroupNothing(hs: seq<Row<Hotel>>)
    ensures Names(Tags(Unread(hs))) == []
    ensures Grouping(Tags(Unread(hs))) == []
  {
    var tags := Tags(Unread(hs));
    var names := Names(tags);
    if names != [] {
      NamesMembers(tags, names[0]);
      assert false;
    }
  }

  /**
   * bulkAssignLocations as the code stands against models/hotelTable.model.js.
   * `sync({ alter: true })` drops the undeclared `location` column, so the
   * query selecting it fails and the answer is 500. Were the column there,
   * `h.location` would still read undefined: no hotel is grouped, the answer
   * lists nothing, and nothing changes.
   */
  method BulkAssignLocationsAsWritten(hotels: Relation<Hotel>, columnExists: bool)
    returns (r: Reply<seq<Assignment>>)
    ensures !columnExists ==> r == Fail(500, "Failed to bulk assign locations")
    ensures columnExists ==> r == Ok(200, [])
  {
    if !columnExists {
      return Fail(500, "Failed to bulk assign locations");
    }
    var groups := GroupByLocation(Unread(hotels.rows));
    UnreadLocationsGroupNothing(hotels.rows);
    r := Ok(200, []);
    assert |groups| == 0;
  }

  /**
   * bulkAssignLocations: every hotel with a location name ends up linked to
   * the location of that name, found or created once per name; hotels
   * without a name are untouched; the answer lists each distinct name once,
   * in first-appearance order, with its location and its number of hotels.
   */
  method BulkAssignLocations(hotels: Relation<Hotel>, locations: Relation<Location>)
    returns (r: Reply<seq<Assignment>>)
    requires hotels.Valid() && locations.Valid() && LocationNamesUnique(locations.rows)
    modifies hotels, locations
    ensures hotels.Valid() && locations.Valid() && LocationNamesUnique(locations.rows)
    ensures hotels.nextId == old(hotels.nextId) && |hotels.rows| == |old(hotels.rows)|
    ensures forall i :: 0 <= i < |hotels.rows| ==>
      Assigned(locations.rows, LocationName(old(hotels.rows)[i]), old(hotels.rows)[i], hotels.rows[i])
    ensures GrewBy(old(locations.rows), locations.rows, Names(Tags(old(hotels.rows))))
    ensures r.Ok? && r.code == 200 && |r.data| == |Names(Tags(old(hotels.rows)))|
    ensures forall k :: 0 <= k < |r.data| ==>
      && r.data[k].name == Names(Tags(old(hotels.rows)))[k]
      && r.data[k].hotelsUpdated == |IdsNamed(Tags(old(hotels.rows)), r.data[k].name)|
      && Named(locations.rows, r.data[k].name, r.data[k].locationId)
  {
    ghost var hs := hotels.rows;
    ghost var tags := Tags(hs);
    ghost var locs0 := locations.rows;
    ghost var names := Names(tags);
    var groups := GroupByLocation(hotels.rows);
    GroupsPartition(tags);
    NamesDistinct(tags);
    forall m | m in names ensures m != "" {
      NamesMembers(tags, m);
    }
    var results: seq<Assignment> := [];
    ProgressStart(tags, hs, names, locs0);
    var k := 0;
    while k < |groups|
      invariant 0 <= k <= |groups| && groups == Grouping(tags)
      invariant hotels.Valid() && locations.Valid() && LocationNamesUnique(locations.rows)
      invariant hotels.nextId == old(hotels.nextId)
      invariant Progress(tags, hs, names, k, hotels.rows, locs0, locations.rows, results)
    {
      var name := groups[k].name;
      var ids := groups[k].hotelIds;
      assert name == names[k] && name in names;
      ghost var locsBefore := locations.rows;
      ghost var rowsBefore := hotels.rows;
      var locationId := AssignGroup(hotels, locations, name, ids);
      ProgressStep(tags, hs, names, k, rowsBefore, hotels.rows, locs0, locsBefore, locations.rows,
                   results, ids, locationId);
      results := results + [Assignment(name, locationId, |ids|)];
      k := k + 1;
    }
    assert names[..k] == names;
    forall i | 0 <= i < |hs| ensures Assigned(locations.rows, tags[i].name, hs[i], hotels.rows[i]) {
      NamesMembers(tags, tags[i].name);
    }
    r := Ok(200, results);
  }
}
