/**
 * The hotel record's own handlers (controllers/hotelTable.controller.js):
 * the filter getAllHotelTables builds from its query string, and the 404
 * guards of get, update and delete by id.
 */
module Hotels {
  import opened Common
  import opened Store
  import opened Schema

  /** A decimal digit. */
  predicate IsDigit(c: char) {
    '0' <= c <= '9'
  }

  /** A non-empty run of decimal digits. */
  predicate AllDigits(s: string) {
    s != [] && forall i :: 0 <= i < |s| ==> IsDigit(s[i])
  }

  /** The value of a run of decimal digits, most significant first. */
  function DigitsValue(s: string): nat
    requires AllDigits(s)
    decreases |s|
  {
    var d := (s[|s| - 1] as int) - ('0' as int);
    if |s| == 1 then d else DigitsValue(s[..|s| - 1]) * 10 + d
  }

  /** The digit character for 0..9. */
  function DigitChar(d: nat): char
    requires d < 10
  {
    ('0' as int + d) as char
  }

  /** The shortest decimal rendering of `n`, as `String(n)` writes it. */
  function Decimal(n: nat): (s: string)
    ensures AllDigits(s)
    decreases n
  {
    if n < 10 then [DigitChar(n)] else Decimal(n / 10) + [DigitChar(n % 10)]
  }

  /** The rendering of any integer, with a minus sign when negative. */
  function IntString(n: int): string {
    if n < 0 then "-" + Decimal(-n) else Decimal(n)
  }

  /**
   * `Number(s)` on a query value, for the strings whose value is an
   * integer written in decimal: white space around it is ignored, an empty
   * string is 0, a sign may lead the digits; every other string reads as
   * NaN (None).
   */
  function JsNumber(s: string): Option<int> {
    var t := Trim(s);
    if t == "" then Some(0)
    else if AllDigits(t) then Some(DigitsValue(t))
    else if |t| > 1 && t[0] == '-' && AllDigits(t[1..]) then Some(0 - DigitsValue(t[1..]))
    else if |t| > 1 && t[0] == '+' && AllDigits(t[1..]) then Some(DigitsValue(t[1..]))
    else None
  }

  /** Reading back a decimal rendering gives the number rendered. */
  lemma {:induction false} DecimalRoundTrip(n: nat)
    ensures DigitsValue(Decimal(n)) == n
    decreases n
  {
    if n >= 10 {
      DecimalRoundTrip(n / 10);
      var s := Decimal(n);
      assert s[..|s| - 1] == Decimal(n / 10);
    }
  }

  /** A string with no white space at its ends is its own trim. */
  lemma TrimKeeps(s: string)
    requires s == [] || (!IsSpace(s[0]) && !IsSpace(s[|s| - 1]))
    ensures Trim(s) == s
  {
    assert TrimStart(s) == s;
  }

  /** `Number(String(n)) == n` for every integer n. */
  lemma NumberOfIntString(n: int)
    ensures JsNumber(IntString(n)) == Some(n)
  {
    var s := IntString(n);
    if n < 0 {
      DecimalRoundTrip(-n);
      assert s[1..] == Decimal(-n);
      assert !AllDigits(s) by { assert !IsDigit(s[0]); }
    } else {
      DecimalRoundTrip(n);
    }
    TrimKeeps(s);
  }

  /** The query string of getAllHotelTables; None is a parameter not given. */
  datatype HotelQuery = HotelQuery(
    search: Option<string>,
    hotelName: Option<string>,
    q: Option<string>,
    location: Option<string>,
    locationId: Option<string>)

  /**
   * The `where` of getAllHotelTables: the location_id to match, if any, and
   * the search term matched against hotel names and location names, if any.
   */
  datatype HotelFilter = HotelFilter(locationId: Option<int>, term: Option<string>)

  /** Where `a || b || ...` stops: the first parameter given non-empty, or past the end. */
  function FirstFilledIndex(xs: seq<Option<string>>): (i: nat)
    ensures i <= |xs|
    ensures i < |xs| ==> Filled(xs[i])
    ensures forall k :: 0 <= k < i ==> !Filled(xs[k])
  {
    if xs == [] || Filled(xs[0]) then 0
    else
      var i := FirstFilledIndex(xs[1..]);
      assert forall k :: 1 <= k < |xs| ==> xs[k] == xs[1..][k - 1];
      1 + i
  }

  /** `a || b || ... || ""`: the first parameter that is a non-empty string. */
  function FirstFilled(xs: seq<Option<string>>): (r: string)
    ensures r == "" <==> forall i :: 0 <= i < |xs| ==> !Filled(xs[i])
  {
    var i := FirstFilledIndex(xs);
    if i < |xs| then xs[i].value else ""
  }

  /** The search term: the first of search, hotel_name, q, location given non-empty, trimmed. */
  function SearchTerm(query: HotelQuery): string {
    Trim(FirstFilled([query.search, query.hotelName, query.q, query.location]))
  }

  /**
   * getAllHotelTables' filter, built field by field: location_id only when
   * it is given non-empty and reads as a number; a search only when the
   * term is not blank.
   */
  method HotelsWhere(query: HotelQuery) returns (w: HotelFilter)
    ensures w.locationId.Some? <==> Filled(query.locationId) && JsNumber(query.locationId.value).Some?
    ensures w.locationId.Some? ==> w.locationId == JsNumber(query.locationId.value)
    ensures w.term.Some? <==> SearchTerm(query) != ""
    ensures w.term.Some? ==> w.term.value == SearchTerm(query)
    ensures w.term.Some? ==> !IsSpace(w.term.value[0]) && !IsSpace(w.term.value[|w.term.value| - 1])
  {
    w := HotelFilter(None, None);
    if Filled(query.locationId) {
      var idNum := JsNumber(query.locationId.value);
      if idNum.Some? {
        w := w.(locationId := idNum);
      }
    }
    var term := SearchTerm(query);
    if term != "" {
      w := w.(term := Some(term));
    }
  }

  /**
   * A search that is given but blank hides every later parameter: the term
   * is empty and no text filter applies, even with a hotel_name given.
   */
  lemma BlankSearchHidesHotelName(blank: string, name: string)
    requires blank != "" && forall i :: 0 <= i < |blank| ==> IsSpace(blank[i])
    ensures SearchTerm(HotelQuery(Some(blank), Some(name), None, None, None)) == ""
  {
    var first := FirstFilled([Some(blank), Some(name), None, None]);
    assert first == blank;
    TrimBlank(blank);
  }

  /** getHotelTableById: the row with that key, or 404 when there is none. */
  function HotelById(hotels: seq<Row<Hotel>>, id: int): (r: Reply<Row<Hotel>>)
    ensures r.Fail? <==> !Has(hotels, id)
    ensures r.Fail? ==> r == Fail(404, "Hotel table not found")
    ensures r.Ok? ==> r.code == 200 && r.data.id == id && r.data in hotels
  {
    match IndexOf(hotels, id)
    case None => Fail(404, "Hotel table not found")
    case Some(i) => Ok(200, hotels[i])
  }

  /**
   * The body of updateHotelTable: each column of the hotel model, None when
   * the body does not set it.
   */
  datatype HotelPatch = HotelPatch(
    hotelName: Option<string>,
    locationId: Option<int>,
    areaId: Option<int>,
    address: Option<string>,
    tablesPerFloor: Option<int>,
    chairsPerTable: Option<int>)

  /** `instance.update(body)`: the columns the body sets take its values. */
  function Patched(h: Hotel, p: HotelPatch): (r: Hotel)
    ensures p.hotelName.None? ==> r.hotelName == h.hotelName
    ensures p.hotelName.Some? ==> r.hotelName == p.hotelName
    ensures p.locationId.None? ==> r.locationId == h.locationId
    ensures p.locationId.Some? ==> r.locationId == p.locationId
    ensures p.areaId.None? ==> r.areaId == h.areaId
    ensures p.areaId.Some? ==> r.areaId == p.areaId
    ensures p.address.None? ==> r.address == h.address
    ensures p.address.Some? ==> r.address == p.address
    ensures p.tablesPerFloor.None? ==> r.tablesPerFloor == h.tablesPerFloor
    ensures p.tablesPerFloor.Some? ==> r.tablesPerFloor == p.tablesPerFloor
    ensures p.chairsPerTable.None? ==> r.chairsPerTable == h.chairsPerTable
    ensures p.chairsPerTable.Some? ==> r.chairsPerTable == p.chairsPerTable
    ensures r.floorPerHotel == h.floorPerHotel && r.location == h.location
  {
    Hotel(
      if p.hotelName.Some? then p.hotelName else h.hotelName,
      if p.locationId.Some? then p.locationId else h.locationId,
      if p.areaId.Some? then p.areaId else h.areaId,
      if p.address.Some? then p.address else h.address,
      if p.tablesPerFloor.Some? then p.tablesPerFloor else h.tablesPerFloor,
      if p.chairsPerTable.Some? then p.chairsPerTable else h.chairsPerTable,
      h.floorPerHotel,
      h.location)
  }

  /** Applying the same update twice is the same as applying it once. */
  lemma PatchIdempotent(h: Hotel, p: HotelPatch)
    ensures Patched(Patched(h, p), p) == Patched(h, p)
  {
  }

  /** A body that sets no column leaves the hotel as it was. */
  lemma EmptyPatchIsIdentity(h: Hotel)
    ensures Patched(h, HotelPatch(None, None, None, None, None, None)) == h
  {
  }

  /** The body that sets every column either body sets, with `q`'s value where both do. */
  function Merge(p: HotelPatch, q: HotelPatch): HotelPatch {
    HotelPatch(
      if q.hotelName.Some? then q.hotelName else p.hotelName,
      if q.locationId.Some? then q.locationId else p.locationId,
      if q.areaId.Some? then q.areaId else p.areaId,
      if q.address.Some? then q.address else p.address,
      if q.tablesPerFloor.Some? then q.tablesPerFloor else p.tablesPerFloor,
      if q.chairsPerTable.Some? then q.chairsPerTable else p.chairsPerTable)
  }

  /** Two updates in a row are one update by the merged body: the later body wins where both set a column. */
  lemma PatchCompose(h: Hotel, p: HotelPatch, q: HotelPatch)
    ensures Patched(Patched(h, p), q) == Patched(h, Merge(p, q))
  {
  }

  /** The model's `min: 1` on tables_per_floor and chairs_per_table, for the columns the body sets. */
  predicate PatchValid(p: HotelPatch) {
    && (p.tablesPerFloor.Some? ==> p.tablesPerFloor.value >= 1)
    && (p.chairsPerTable.Some? ==> p.chairsPerTable.value >= 1)
  }

  /**
   * The counts of a hotel that meets `min: 1` still meet it after a valid
   * update.
   */
  lemma PatchKeepsMinimum(h: Hotel, p: HotelPatch)
    requires PatchValid(p)
    requires h.tablesPerFloor.Some? ==> h.tablesPerFloor.value >= 1
    requires h.chairsPerTable.Some? ==> h.chairsPerTable.value >= 1
    ensures Patched(h, p).tablesPerFloor.Some? ==> Patched(h, p).tablesPerFloor.value >= 1
    ensures Patched(h, p).chairsPerTable.Some? ==> Patched(h, p).chairsPerTable.value >= 1
  {
  }

  /**
   * updateHotelTable: 404 for an unknown hotel; a value below 1 for
   * tables_per_floor or chairs_per_table fails validation (500); otherwise
   * the columns the body sets change on that row and nothing else does.
   */
  method UpdateHotelTable(hotels: Relation<Hotel>, id: int, patch: HotelPatch) returns (r: Reply<Row<Hotel>>)
    requires hotels.Valid()
    modifies hotels
    ensures hotels.Valid() && hotels.nextId == old(hotels.nextId)
    ensures !Has(old(hotels.rows), id) ==> r == Fail(404, "Hotel table not found") && hotels.rows == old(hotels.rows)
    ensures Has(old(hotels.rows), id) && !PatchValid(patch) ==>
      r == Fail(500, "Failed to update hotel table") && hotels.rows == old(hotels.rows)
    ensures Has(old(hotels.rows), id) && PatchValid(patch) ==>
      var i := IndexOf(old(hotels.rows), id).value;
      && r == Ok(200, Row(id, Patched(old(hotels.rows)[i].val, patch)))
      && hotels.rows == old(hotels.rows)[i := r.data]
  {
    var found := IndexOf(hotels.rows, id);
    if found.None? {
      return Fail(404, "Hotel table not found");
    }
    if !PatchValid(patch) {
      return Fail(500, "Failed to update hotel table");
    }
    var i := found.value;
    var updated := Patched(hotels.rows[i].val, patch);
    hotels.Save(i, updated);
    r := Ok(200, Row(id, updated));
  }

  /**
   * deleteHotelTable: 404 for an unknown hotel; otherwise that row is gone
   * and every other row stays.
   */
  method DeleteHotelTable(hotels: Relation<Hotel>, id: int) returns (r: Reply<string>)
    requires hotels.Valid()
    modifies hotels
    ensures hotels.Valid() && hotels.nextId == old(hotels.nextId)
    ensures !Has(old(hotels.rows), id) ==> r == Fail(404, "Hotel table not found") && hotels.rows == old(hotels.rows)
    ensures Has(old(hotels.rows), id) ==>
      && r == Ok(200, "Hotel table deleted successfully")
      && !Has(hotels.rows, id)
      && (forall x :: x in hotels.rows ==> x in old(hotels.rows))
      && (forall x :: x in old(hotels.rows) && x.id != id ==> x in hotels.rows)
  {
    var found := IndexOf(hotels.rows, id);
    if found.None? {
      return Fail(404, "Hotel table not found");
    }
    hotels.Destroy((x: Row<Hotel>) => x.id == id);
    r := Ok(200, "Hotel table deleted successfully");
  }
}
