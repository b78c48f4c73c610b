/**
 * The pure pieces of the hospital scanner's HTTP layer
 * (code/hospital_scanner/main.py): the response metadata of the four
 * listing endpoints, the check on the names the refresh endpoints accept,
 * the per-district progress of the city-wide hospital refresh, and how the
 * refresh tasks save what the LLM returned: blank names skipped, an
 * existing hospital updated (in the city-wide refresh only with the fields
 * that changed), a new one created.
 *
 * The lookups by name that the endpoints and tasks make are parameters:
 * `lookup` maps a name to the id it finds, and a hospital store maps a
 * hospital name to its stored record.
 */
module ScannerApi {
  import opened Wrappers
  import opened Json
  import PyStr
  import Listing
  import ScanDb

  // ---------------------------------------------------------------------------
  // Name validation of refresh_province_data and refresh_district_data

  /** The name a refresh endpoint works with: 400 for an empty or all-blank name, the trimmed name otherwise. */
  function CleanName(name: string): (r: Result<string, int>)
    ensures r.Err? <==> PyStr.Blank(name)
    ensures r.Err? ==> r.error == 400
    ensures r.Ok? ==> r.value == PyStr.Strip(name) && r.value != []
  {
    PyStr.StripEmptyIffBlank(name);
    if |PyStr.Strip(name)| == 0 then Err(400) else Ok(PyStr.Strip(name))
  }

  /** An accepted name is already trimmed, so cleaning it again changes nothing. */
  lemma CleanNameIdempotent(name: string)
    requires CleanName(name).Ok?
    ensures CleanName(CleanName(name).value) == CleanName(name)
  {
    PyStr.StripIdempotent(name);
  }

  // ---------------------------------------------------------------------------
  // Listing metadata

  /** The body of a paginated response. */
  datatype Paginated<T> = Paginated(items: seq<T>, total: nat, page: int, pageSize: int,
                                    pages: int, hasNext: bool, hasPrev: bool)

  /** `(total + page_size - 1) // page_size if page_size > 0 else 1` */
  function Pages(total: nat, pageSize: int): (p: int)
    ensures pageSize <= 0 ==> p == 1
    ensures pageSize > 0 ==> p >= 0 && (total == 0 <==> p == 0)
    ensures pageSize > 0 && total > 0 ==> (p - 1) * pageSize < total <= p * pageSize
  {
    if pageSize > 0 then
      Listing.CeilPages(total, pageSize);
      Listing.FloorDiv(total + pageSize - 1, pageSize)
    else 1
  }

  /** The metadata as the endpoints build it: the requested page and page size echoed,
      `pages` from `Pages`, `has_next` when the page is before the last, `has_prev` after the first. */
  function Respond<T>(items: seq<T>, total: nat, page: int, pageSize: int): (r: Paginated<T>)
    ensures r.items == items && r.total == total && r.page == page && r.pageSize == pageSize
    ensures r.pages == Pages(total, pageSize)
    ensures r.hasPrev <==> page > 1
    ensures r.hasNext <==> page < r.pages
  {
    var pages := Pages(total, pageSize);
    Paginated(items, total, page, pageSize, pages, page < pages, page > 1)
  }

  /** With a positive page size, `has_next` says exactly that the requested page ends before the last row,
      for every requested page. On an empty table only a negative page claims a next page. */
  lemma RespondHasNext<T>(items: seq<T>, total: nat, page: int, pageSize: int)
    requires pageSize > 0
    ensures Respond(items, total, page, pageSize).hasNext <==> page * pageSize < total
    ensures Pages(total, pageSize) == 0 ==> (Respond(items, total, page, pageSize).hasNext <==> page < 0)
  {
    var p := Pages(total, pageSize);
    if page < p {
      if page >= 1 {
        ScanDb.MulMonoRight(pageSize, page, p - 1);
      } else {
        ScanDb.MulMonoRight(pageSize, page, 0);
      }
    } else if total > 0 {
      ScanDb.MulMonoRight(pageSize, p, page);
    } else {
      ScanDb.MulMonoRight(pageSize, 0, page);
    }
  }

  /** As the code is written, a page size above the database's cap hides rows: 1500 rows read with
      page_size 5000 come back as 1000 rows under `pages` 1 and no next page. */
  lemma OversizedPageHidesRows<T>(rows: seq<T>, key: T -> string)
    requires |rows| == 1500
    ensures var items := ScanDb.PageItems(rows, key, 1, 5000);
      var r := Respond(items, |rows|, 1, 5000);
      |items| == 1000 && r.pages == 1 && !r.hasNext
  {
    var pl := ScanDb.Plan(1, 5000, 1500);
    assert pl.size == 1000 && pl.offset == 0;
    assert Pages(1500, 5000) == 1 by {
      assert Listing.FloorDiv(6499, 5000) == 1;
    }
  }

  /** As the code is written, a page below 1 is echoed although the database serves page 1: five rows
      read with page 0 and page_size 20 all come back, yet `has_next` claims a further page. */
  lemma ZeroPageClaimsNext<T>(rows: seq<T>, key: T -> string)
    requires |rows| == 5
    ensures var items := ScanDb.PageItems(rows, key, 0, 20);
      var r := Respond(items, |rows|, 0, 20);
      |items| == 5 && r.pages == 1 && r.hasNext
  {
    var pl := ScanDb.Plan(0, 20, 5);
    assert pl.page == 1 && pl.size == 20 && pl.offset == 0;
    assert Pages(5, 20) == 1 by {
      assert Listing.FloorDiv(24, 20) == 1;
    }
  }

  /** The metadata the endpoints evidently mean: computed from the page and page size the database
      actually used (`ScanDb.Plan`), so that `has_next` tells whether rows remain. */
  function RespondClamped<T>(items: seq<T>, total: nat, page: int, pageSize: int): (r: Paginated<T>)
    ensures var pl := ScanDb.Plan(page, pageSize, total);
      r.items == items && r.total == total && r.page == pl.page && r.pageSize == pl.size
      && r.pages == pl.totalPages && (r.hasPrev <==> pl.page > 1) && (r.hasNext <==> pl.page < pl.totalPages)
  {
    var pl := ScanDb.Plan(page, pageSize, total);
    Paginated(items, total, pl.page, pl.size, pl.totalPages, pl.page < pl.totalPages, pl.page > 1)
  }

  /** With the clamped metadata, `has_next` holds exactly when rows lie beyond the page returned,
      whatever page and page size were requested. */
  lemma ClampedHasNext<T>(rows: seq<T>, key: T -> string, page: int, pageSize: int)
    ensures var items := ScanDb.PageItems(rows, key, page, pageSize);
      var r := RespondClamped(items, |rows|, page, pageSize);
      var pl := ScanDb.Plan(page, pageSize, |rows|);
      r.hasNext <==> pl.offset + |items| < |rows|
  {
    var pl := ScanDb.Plan(page, pageSize, |rows|);
    ScanDb.PlanBounds(page, pageSize, |rows|);
    if |rows| > 0 {
      if pl.page < pl.totalPages {
        ScanDb.MulMonoRight(pl.size, pl.page, pl.totalPages - 1);
        assert pl.offset + pl.size == pl.page * pl.size;
      } else {
        assert pl.page == pl.totalPages;
        assert pl.offset + pl.size == pl.totalPages * pl.size;
      }
    }
  }

  /** The empty page returned when a province name is not found. */
  function NoMatch<T>(page: int, pageSize: int): (r: Paginated<T>)
    ensures r.items == [] && r.total == 0 && r.pages == 0 && !r.hasNext && !r.hasPrev
    ensures r.page == page && r.pageSize == pageSize
  {
    Paginated([], 0, page, pageSize, 0, false, false)
  }

  /** `province and not province_id`: a non-empty name and no non-zero id. */
  predicate ByName(name: Option<string>, id: Option<int>) {
    ScanDb.Given(name) && !ScanDb.GivenId(id)
  }

  /** `get_provinces` */
  method ListProvinces(db: ScanDb.Database, page: int, pageSize: int) returns (r: Paginated<ScanDb.ProvinceRow>)
    requires db.Valid()
    ensures r == Respond(ScanDb.PageItems(db.provinces, ScanDb.ProvinceName, page, pageSize),
                                |db.provinces|, page, pageSize)
  {
    var items, total := db.GetProvinces(page, pageSize);
    r := Respond(items, total, page, pageSize);
  }

  /** `get_cities`: a province given by name is looked up first; an unknown name gives an empty page
      with no pages, and no database read. */
  method ListCities(db: ScanDb.Database, province: Option<string>, provinceId: Option<int>,
                    lookup: string -> Option<int>, page: int, pageSize: int)
    returns (r: Paginated<ScanDb.CityRow>)
    requires db.Valid()
    ensures ByName(province, provinceId) && lookup(province.value).None? ==> r == NoMatch(page, pageSize)
    ensures !(ByName(province, provinceId) && lookup(province.value).None?) ==>
      var id := if ByName(province, provinceId) then Some(lookup(province.value).value) else provinceId;
      var chosen := ScanDb.CitiesOf(db.cities, id);
      r == Respond(ScanDb.PageItems(chosen, ScanDb.CityName, page, pageSize), |chosen|, page, pageSize)
  {
    var id := provinceId;
    if ByName(province, provinceId) {
      var found := lookup(province.value);
      if found.None? {
        return NoMatch(page, pageSize);
      }
      id := Some(found.value);
    }
    var items, total := db.GetCities(id, page, pageSize);
    r := Respond(items, total, page, pageSize);
  }

  /** `get_districts`: a city name that is not found leaves the id as it was, so the listing is not narrowed. */
  method ListDistricts(db: ScanDb.Database, cityId: Option<int>, city: Option<string>,
                       lookup: string -> Option<int>, page: int, pageSize: int)
    returns (r: Paginated<ScanDb.DistrictRow>)
    requires db.Valid()
    ensures var id := if ByName(city, cityId) && lookup(city.value).Some? then Some(lookup(city.value).value) else cityId;
      var chosen := ScanDb.DistrictsOf(db.districts, id);
      r == Respond(ScanDb.PageItems(chosen, ScanDb.DistrictName, page, pageSize), |chosen|, page, pageSize)
  {
    var id := cityId;
    if ByName(city, cityId) {
      var found := lookup(city.value);
      if found.Some? {
        id := Some(found.value);
      }
    }
    var items, total := db.GetDistricts(id, page, pageSize);
    r := Respond(items, total, page, pageSize);
  }

  /** `get_hospitals`: as `get_districts`, one level down. */
  method ListHospitals(db: ScanDb.Database, districtId: Option<int>, district: Option<string>,
                       lookup: string -> Option<int>, page: int, pageSize: int)
    returns (r: Paginated<ScanDb.HospitalRow>)
    requires db.Valid()
    ensures var id := if ByName(district, districtId) && lookup(district.value).Some? then Some(lookup(district.value).value) else districtId;
      var chosen := ScanDb.HospitalsOf(db.hospitals, id);
      r == Respond(ScanDb.PageItems(chosen, ScanDb.HospitalName, page, pageSize), |chosen|, page, pageSize)
  {
    var id := districtId;
    if ByName(district, districtId) {
      var found := lookup(district.value);
      if found.Some? {
        id := Some(found.value);
      }
    }
    var items, total := db.GetHospitals(id, page, pageSize);
    r := Respond(items, total, page, pageSize);
  }

  // ---------------------------------------------------------------------------
  // Progress of the city-wide hospital refresh

  /** `int((i + 1) * 100 // total_districts)` for the district at index `i`. */
  function DistrictProgress(i: nat, n: nat): (p: nat)
    requires i < n
    ensures p <= 100
    ensures i == n - 1 ==> p == 100
  {
    ScanDb.MulMonoRight(100, i + 1, n);
    DivMono((i + 1) * 100, n * 100, n);
    DivSelf(n, 100);
    (i + 1) * 100 / n
  }

  lemma MulCancel(n: int, x: int, y: int)
    requires n > 0 && n * x < n * y
    ensures x < y
  {
    if x >= y {
      ScanDb.MulMonoRight(n, y, x);
    }
  }

  lemma DivMono(a: nat, b: nat, n: nat)
    requires a <= b && n > 0
    ensures a / n <= b / n
  {
    var qa := a / n;
    var qb := b / n;
    assert n * qa <= a && b < n * qb + n;
    assert n * (qb + 1) == n * qb + n;
    MulCancel(n, qa, qb + 1);
  }

  lemma DivSelf(n: nat, k: nat)
    requires n > 0
    ensures (n * k) / n == k
  {
    var q := (n * k) / n;
    assert n * q <= n * k < n * q + n;
    assert n * (q + 1) == n * q + n && n * (k + 1) == n * k + n;
    MulCancel(n, q, k + 1);
    MulCancel(n, k, q + 1);
  }

  /** The progress never goes down from one district to the next. */
  lemma ProgressMonotone(i: nat, j: nat, n: nat)
    requires i <= j < n
    ensures DistrictProgress(i, n) <= DistrictProgress(j, n)
  {
    ScanDb.MulMonoRight(100, i + 1, j + 1);
    DivMono((i + 1) * 100, (j + 1) * 100, n);
  }

  // ---------------------------------------------------------------------------
  // Saving the hospitals of a district

  /** A stored or incoming hospital record, by column name. */
  type Record = map<string, Value>

  /** The columns the refresh reads from each hospital the LLM returns. */
  const Columns: seq<string> :=
    ["level", "address", "phone", "beds_count", "staff_count", "departments", "specializations", "website"]

  /** What `.get(column, default)` falls back to, on both the incoming and the stored side. */
  function Default(column: string): Value {
    if column == "beds_count" || column == "staff_count" then Null
    else if column == "departments" || column == "specializations" then Arr([])
    else Str("")
  }

  function GetOr(m: Record, column: string): Value {
    if column in m then m[column] else Default(column)
  }

  /** The values read from one LLM item. */
  function Incoming(data: Record): (r: Record)
    ensures r.Keys == set c | c in Columns
    ensures forall c :: c in r ==> r[c] == GetOr(data, c)
  {
    map c | c in Columns :: GetOr(data, c)
  }

  /** A column changed: the incoming value is non-empty and differs from the stored one. */
  predicate Changed(incoming: Record, stored: Record, column: string) {
    Truthy(GetOr(incoming, column)) && GetOr(incoming, column) != GetOr(stored, column)
  }

  /** The `updates` dict: exactly the changed columns, with their incoming values. */
  function Updates(incoming: Record, stored: Record): (r: Record)
    ensures forall c :: c in r <==> c in Columns && Changed(incoming, stored, c)
    ensures forall c :: c in r ==> r[c] == GetOr(incoming, c)
  {
    map c | c in Columns && Changed(incoming, stored, c) :: GetOr(incoming, c)
  }

  /** The updates over the first `i` columns. */
  function UpdatesUpTo(incoming: Record, stored: Record, i: nat): Record
    requires i <= |Columns|
  {
    map c | c in Columns[..i] && Changed(incoming, stored, c) :: GetOr(incoming, c)
  }

  lemma UpdatesUpToStep(incoming: Record, stored: Record, i: nat)
    requires i < |Columns|
    ensures UpdatesUpTo(incoming, stored, i + 1) ==
      if Changed(incoming, stored, Columns[i]) then UpdatesUpTo(incoming, stored, i)[Columns[i] := GetOr(incoming, Columns[i])]
      else UpdatesUpTo(incoming, stored, i)
  {
    assert forall x :: x in Columns[..i + 1] <==> x in Columns[..i] || x == Columns[i];
  }

  /** The diff as the city-wide refresh builds it, column by column. */
  method Diff(incoming: Record, stored: Record) returns (updates: Record, needed: bool)
    ensures updates == Updates(incoming, stored)
    ensures needed <==> updates != map[]
  {
    updates := map[];
    needed := false;
    var i := 0;
    while i < |Columns|
      invariant 0 <= i <= |Columns|
      invariant updates == UpdatesUpTo(incoming, stored, i)
      invariant needed <==> updates != map[]
    {
      var c := Columns[i];
      UpdatesUpToStep(incoming, stored, i);
      var value := GetOr(incoming, c);
      if Truthy(value) && value != GetOr(stored, c) {
        updates := updates[c := value];
        assert c in updates;
        needed := true;
      }
      i := i + 1;
    }
    assert Columns[..i] == Columns;
  }

  /** No update is issued exactly when no column carries a non-empty new value. */
  lemma DiffEmptyIff(incoming: Record, stored: Record)
    ensures Updates(incoming, stored) == map[] <==> forall c :: c in Columns ==> !Changed(incoming, stored, c)
  {
    if Updates(incoming, stored) != map[] {
      var c :| c in Updates(incoming, stored);
    }
  }

  /** Once the update is applied, the same incoming data asks for nothing more. */
  lemma DiffSettles(incoming: Record, stored: Record)
    ensures Updates(incoming, stored + Updates(incoming, stored)) == map[]
  {
    var u := Updates(incoming, stored);
    forall c | c in Columns
      ensures !Changed(incoming, stored + u, c)
    {
      if c in u {
        assert GetOr(stored + u, c) == GetOr(incoming, c);
      } else {
        assert GetOr(stored + u, c) == GetOr(stored, c);
      }
    }
    DiffEmptyIff(incoming, stored + u);
  }

  /** A write the refresh issues for one hospital. */
  datatype Action = Create(name: string, record: Record) | Update(name: string, fields: Record)

  /** The store of one district's hospitals, by name, after a write. */
  function Apply(store: map<string, Record>, a: Action): map<string, Record> {
    match a
    case Create(name, record) => store[name := record]
    case Update(name, fields) => store[name := (if name in store then store[name] else map[]) + fields]
  }

  /** What one item of the LLM list leads to. */
  datatype Step = Abort | Skip | Write(action: Action)

  /** `hospital_data.get('name', '')` */
  function RawName(data: Record): Value {
    if "name" in data then data["name"] else Str("")
  }

  /** The hospital name an item is saved under, when it has one worth saving. */
  predicate Saveable(item: Value) {
    item.Obj? && RawName(item.fields).Str? && PyStr.Strip(RawName(item.fields).s) != []
  }

  /** One turn of the saving loop. An item that is not a dict makes even the error handler raise,
      which leaves the loop; a name that is not a string raises inside the guarded block and the item
      is skipped, as is a blank name. A name the store does not hold (or holds as an empty row) is
      created when `create_hospital` takes the `website` keyword both loops pass (`takesWebsite`).
      As written it does not: the call raises TypeError inside the guarded block and the item is
      skipped. Otherwise the district refresh rewrites every column and the city-wide refresh
      writes only the changed ones, or nothing. */
  function HospitalStep(item: Value, store: map<string, Record>, byDiff: bool, takesWebsite: bool): Step {
    if !item.Obj? then Abort
    else if !RawName(item.fields).Str? then Skip
    else
      var name := PyStr.Strip(RawName(item.fields).s);
      if name == [] then Skip
      else if name !in store || store[name] == map[] then
        if takesWebsite then Write(Create(name, Incoming(item.fields))) else Skip
      else if !byDiff then Write(Update(name, Incoming(item.fields)))
      else
        var u := Updates(Incoming(item.fields), store[name]);
        if u == map[] then Skip else Write(Update(name, u))
  }

  /** The writes issued so far, the store they leave, and whether an item has made the loop
      raise. Each write is committed on its own connection, so the writes issued before the
      raise stay. */
  datatype Saved = Saved(writes: seq<Action>, store: map<string, Record>, raised: bool)

  /** One turn of the loop on its state; once the loop has raised, no further item is looked at. */
  function Next(s: Saved, item: Value, byDiff: bool, takesWebsite: bool): Saved {
    if s.raised then s
    else
      match HospitalStep(item, s.store, byDiff, takesWebsite)
      case Abort => s.(raised := true)
      case Skip => s
      case Write(a) => Saved(s.writes + [a], Apply(s.store, a), false)
  }

  /** The saving loop over a list of items. */
  function Saving(items: seq<Value>, store: map<string, Record>, byDiff: bool, takesWebsite: bool): Saved
    decreases |items|
  {
    if items == [] then Saved([], store, false)
    else Next(Saving(items[..|items| - 1], store, byDiff, takesWebsite), items[|items| - 1], byDiff, takesWebsite)
  }

  /** How many of the writes are creations (`saved_count`): none exactly when no write creates. */
  function Creations(writes: seq<Action>): (n: nat)
    ensures n <= |writes|
    ensures n == 0 <==> forall k :: 0 <= k < |writes| ==> !writes[k].Create?
  {
    if writes == [] then 0
    else
      var init := writes[..|writes| - 1];
      assert forall k :: 0 <= k < |init| ==> init[k] == writes[k];
      Creations(init) + (if writes[|writes| - 1].Create? then 1 else 0)
  }

  /** The body of the saving loop for one item, the diff included. */
  method Decide(item: Value, current: map<string, Record>, byDiff: bool, takesWebsite: bool) returns (step: Step)
    ensures step == HospitalStep(item, current, byDiff, takesWebsite)
  {
    if !item.Obj? {
      return Abort;
    }
    var raw := RawName(item.fields);
    if !raw.Str? {
      return Skip;
    }
    var name := PyStr.Strip(raw.s);
    if name == [] {
      return Skip;
    }
    var incoming := Incoming(item.fields);
    if name !in current || current[name] == map[] {
      step := if takesWebsite then Write(Create(name, incoming)) else Skip;
    } else if !byDiff {
      step := Write(Update(name, incoming));
    } else {
      var updates, needed := Diff(incoming, current[name]);
      step := if needed then Write(Update(name, updates)) else Skip;
    }
  }

  /** The loop of execute_hospital_refresh_for_district (`byDiff` false) and of
      execute_city_hospitals_refresh (`byDiff` true), with its two counters. When an item
      makes the loop raise, the writes issued before it are returned with `raised` set. */
  method SaveHospitals(items: seq<Value>, store: map<string, Record>, byDiff: bool, takesWebsite: bool)
    returns (r: Saved, saved: nat, updated: nat)
    ensures r == Saving(items, store, byDiff, takesWebsite)
    ensures saved == Creations(r.writes) && saved + updated == |r.writes|
  {
    var writes: seq<Action> := [];
    var current := store;
    saved := 0;
    updated := 0;
    var i := 0;
    while i < |items|
      invariant 0 <= i <= |items|
      invariant Saving(items[..i], store, byDiff, takesWebsite) == Saved(writes, current, false)
      invariant saved == Creations(writes) && saved + updated == |writes|
    {
      var step := Decide(items[i], current, byDiff, takesWebsite);
      SavingStep(items, i, store, byDiff, takesWebsite, writes, current, step);
      if step.Abort? {
        SavingStaysFailed(items, i + 1, store, byDiff, takesWebsite);
        return Saved(writes, current, true), saved, updated;
      }
      if step.Write? {
        var a := step.action;
        CreationsSnoc(writes, a);
        writes := writes + [a];
        current := Apply(current, a);
        if a.Create? {
          saved := saved + 1;
        } else {
          updated := updated + 1;
        }
      }
      i := i + 1;
    }
    assert items[..i] == items;
    r := Saved(writes, current, false);
  }

  /** The saving loop over one more item, in terms of that item's step. */
  lemma SavingStep(items: seq<Value>, i: nat, store: map<string, Record>, byDiff: bool, takesWebsite: bool,
                   writes: seq<Action>, current: map<string, Record>, step: Step)
    requires i < |items| && Saving(items[..i], store, byDiff, takesWebsite) == Saved(writes, current, false)
    requires step == HospitalStep(items[i], current, byDiff, takesWebsite)
    ensures Saving(items[..i + 1], store, byDiff, takesWebsite) ==
      match step
      case Abort => Saved(writes, current, true)
      case Skip => Saved(writes, current, false)
      case Write(a) => Saved(writes + [a], Apply(current, a), false)
  {
    assert items[..i + 1][..i] == items[..i];
  }

  lemma CreationsSnoc(writes: seq<Action>, a: Action)
    ensures Creations(writes + [a]) == Creations(writes) + (if a.Create? then 1 else 0)
  {
    assert (writes + [a])[..|writes|] == writes;
  }

  /** Once an item has made the loop raise, the rest of the list changes nothing. */
  lemma {:induction false} SavingStaysFailed(items: seq<Value>, k: nat, store: map<string, Record>, byDiff: bool,
                                             takesWebsite: bool)
    requires k <= |items| && Saving(items[..k], store, byDiff, takesWebsite).raised
    ensures Saving(items, store, byDiff, takesWebsite) == Saving(items[..k], store, byDiff, takesWebsite)
    decreases |items|
  {
    if k < |items| {
      var init := items[..|items| - 1];
      assert init[..k] == items[..k];
      SavingStaysFailed(init, k, store, byDiff, takesWebsite);
    } else {
      assert items[..k] == items;
    }
  }

  /** A write the skip rule lets through: a non-empty, trimmed name, and in the city-wide refresh no empty update. */
  predicate GoodWrite(a: Action, byDiff: bool) {
    a.name != [] && PyStr.Strip(a.name) == a.name && (byDiff && a.Update? ==> a.fields != map[])
  }

  /** The skip rule of one item: only an item that is not a dict makes the loop raise, every
      write is good and is made under the item's trimmed name. A usable name that is not
      written is already stored when creations go through; as written no write is a creation. */
  lemma StepFacts(item: Value, store: map<string, Record>, byDiff: bool, takesWebsite: bool)
    ensures HospitalStep(item, store, byDiff, takesWebsite).Abort? <==> !item.Obj?
    ensures HospitalStep(item, store, byDiff, takesWebsite).Write? ==>
      var a := HospitalStep(item, store, byDiff, takesWebsite).action;
      Saveable(item) && GoodWrite(a, byDiff) && a.name == PyStr.Strip(RawName(item.fields).s)
    ensures takesWebsite && Saveable(item) && !HospitalStep(item, store, byDiff, takesWebsite).Write? ==>
      PyStr.Strip(RawName(item.fields).s) in store
    ensures !takesWebsite && HospitalStep(item, store, byDiff, takesWebsite).Write? ==>
      var a := HospitalStep(item, store, byDiff, takesWebsite).action;
      a.Update? && a.name in store
  {
    StepWriteGood(item, store, byDiff, takesWebsite);
    StepSkipStored(item, store, byDiff, takesWebsite);
    StepNoCreate(item, store, byDiff);
  }

  lemma StepSkipStored(item: Value, store: map<string, Record>, byDiff: bool, takesWebsite: bool)
    ensures takesWebsite && Saveable(item) && !HospitalStep(item, store, byDiff, takesWebsite).Write? ==>
      PyStr.Strip(RawName(item.fields).s) in store
  {
    if takesWebsite && Saveable(item) {
      var name := PyStr.Strip(RawName(item.fields).s);
      if name !in store {
        assert HospitalStep(item, store, byDiff, takesWebsite) == Write(Create(name, Incoming(item.fields)));
      }
    }
  }

  lemma StepNoCreate(item: Value, store: map<string, Record>, byDiff: bool)
    ensures HospitalStep(item, store, byDiff, false).Write? ==>
      var a := HospitalStep(item, store, byDiff, false).action;
      a.Update? && a.name in store
  {
  }

  lemma StepWriteGood(item: Value, store: map<string, Record>, byDiff: bool, takesWebsite: bool)
    ensures HospitalStep(item, store, byDiff, takesWebsite).Write? ==>
      var a := HospitalStep(item, store, byDiff, takesWebsite).action;
      Saveable(item) && GoodWrite(a, byDiff) && a.name == PyStr.Strip(RawName(item.fields).s)
  {
    if HospitalStep(item, store, byDiff, takesWebsite).Write? {
      PyStr.StripIdempotent(RawName(item.fields).s);
    }
  }

  lemma ApplyKeys(store: map<string, Record>, a: Action)
    ensures Apply(store, a).Keys == store.Keys + {a.name}
  {
  }

  /** One turn makes the loop raise exactly on an item that is not a dict, and it stays raised. */
  lemma NextFails(s: Saved, item: Value, byDiff: bool, takesWebsite: bool)
    ensures Next(s, item, byDiff, takesWebsite).raised <==> s.raised || !item.Obj?
  {
    StepFacts(item, s.store, byDiff, takesWebsite);
  }

  /** One turn loses no stored name; when creations go through, it stores the item's name
      when that is usable and the loop has not raised. */
  lemma NextStores(s: Saved, item: Value, byDiff: bool, takesWebsite: bool)
    ensures var t := Next(s, item, byDiff, takesWebsite);
      && s.store.Keys <= t.store.Keys
      && (takesWebsite && !t.raised && Saveable(item) ==> PyStr.Strip(RawName(item.fields).s) in t.store)
  {
    StepFacts(item, s.store, byDiff, takesWebsite);
    if !s.raised {
      match HospitalStep(item, s.store, byDiff, takesWebsite)
      case Abort =>
      case Skip =>
      case Write(a) =>
        ApplyKeys(s.store, a);
    }
  }

  /** As written, one turn adds no name to the store and no creation to the writes. */
  lemma NextKeepsNames(s: Saved, item: Value, byDiff: bool)
    ensures var t := Next(s, item, byDiff, false);
      t.store.Keys == s.store.Keys && Creations(t.writes) == Creations(s.writes)
  {
    StepNoCreate(item, s.store, byDiff);
    if !s.raised {
      match HospitalStep(item, s.store, byDiff, false)
      case Abort =>
      case Skip =>
      case Write(a) =>
        ApplyKeys(s.store, a);
        CreationsSnoc(s.writes, a);
    }
  }

  /** One turn adds at most one write, and a good one. */
  lemma NextWrites(s: Saved, item: Value, byDiff: bool, takesWebsite: bool)
    ensures var w := Next(s, item, byDiff, takesWebsite).writes;
      w == s.writes || (|w| == |s.writes| + 1 && w[..|s.writes|] == s.writes && GoodWrite(w[|s.writes|], byDiff))
  {
    StepFacts(item, s.store, byDiff, takesWebsite);
    if !s.raised {
      match HospitalStep(item, s.store, byDiff, takesWebsite)
      case Abort =>
      case Skip =>
      case Write(a) =>
        assert (s.writes + [a])[..|s.writes|] == s.writes;
    }
  }

  /** Some item of the list is not a dict. */
  predicate HasNonDict(items: seq<Value>) {
    exists i :: 0 <= i < |items| && !items[i].Obj?
  }

  lemma HasNonDictSnoc(init: seq<Value>, last: Value)
    ensures HasNonDict(init + [last]) <==> HasNonDict(init) || !last.Obj?
  {
    var items := init + [last];
    if HasNonDict(init) {
      var i :| 0 <= i < |init| && !init[i].Obj?;
      assert items[i] == init[i];
    }
    if !last.Obj? {
      assert items[|init|] == last;
    }
    if HasNonDict(items) {
      var i :| 0 <= i < |items| && !items[i].Obj?;
      if i < |init| {
        assert init[i] == items[i];
      }
    }
  }

  /** The loop raises exactly when some item is not a dict. */
  lemma {:induction false} SavingFailsIff(items: seq<Value>, store: map<string, Record>, byDiff: bool, takesWebsite: bool)
    ensures Saving(items, store, byDiff, takesWebsite).raised <==> exists i :: 0 <= i < |items| && !items[i].Obj?
    decreases |items|
  {
    if items != [] {
      var init := items[..|items| - 1];
      var last := items[|items| - 1];
      assert items == init + [last];
      SavingFailsIff(init, store, byDiff, takesWebsite);
      HasNonDictSnoc(init, last);
      NextFails(Saving(init, store, byDiff, takesWebsite), last, byDiff, takesWebsite);
    }
  }

  /** Every write passes the skip rule, and there is at most one write per item, whether or not
      the loop raised. */
  lemma {:induction false} SavingWrites(items: seq<Value>, store: map<string, Record>, byDiff: bool, takesWebsite: bool)
    ensures var w := Saving(items, store, byDiff, takesWebsite).writes;
      |w| <= |items| && forall k :: 0 <= k < |w| ==> GoodWrite(w[k], byDiff)
    decreases |items|
  {
    if items != [] {
      var init := items[..|items| - 1];
      SavingWrites(init, store, byDiff, takesWebsite);
      var s := Saving(init, store, byDiff, takesWebsite);
      NextWrites(s, items[|items| - 1], byDiff, takesWebsite);
      var w := Saving(items, store, byDiff, takesWebsite).writes;
      forall k | 0 <= k < |w|
        ensures GoodWrite(w[k], byDiff)
      {
        if k < |s.writes| {
          assert w[k] == s.writes[k] by {
            assert w[k] == w[..|s.writes|][k];
          }
          assert GoodWrite(s.writes[k], byDiff);
        } else {
          assert k == |s.writes| && w != s.writes;
        }
      }
    }
  }

  /** Every item with a usable name is a key of `m`. */
  ghost predicate NamesStored(items: seq<Value>, m: map<string, Record>) {
    forall i :: 0 <= i < |items| && Saveable(items[i]) ==> PyStr.Strip(RawName(items[i].fields).s) in m
  }

  lemma NamesStoredSnoc(init: seq<Value>, last: Value, m: map<string, Record>, m': map<string, Record>)
    requires NamesStored(init, m) && m.Keys <= m'.Keys
    requires Saveable(last) ==> PyStr.Strip(RawName(last.fields).s) in m'
    ensures NamesStored(init + [last], m')
  {
    var items := init + [last];
    forall i | 0 <= i < |items| && Saveable(items[i])
      ensures PyStr.Strip(RawName(items[i].fields).s) in m'
    {
      if i < |init| {
        assert items[i] == init[i];
      } else {
        assert items[i] == last;
      }
    }
  }

  /** The intended loop: nothing stored before is lost and, when creations go through and no
      item made the loop raise, every item with a usable name ends up stored. */
  lemma {:induction false} SavingStores(items: seq<Value>, store: map<string, Record>, byDiff: bool, takesWebsite: bool)
    ensures var s := Saving(items, store, byDiff, takesWebsite);
      store.Keys <= s.store.Keys && (takesWebsite && !s.raised ==> NamesStored(items, s.store))
    decreases |items|
  {
    if items != [] {
      var init := items[..|items| - 1];
      var last := items[|items| - 1];
      assert items == init + [last];
      SavingStores(init, store, byDiff, takesWebsite);
      var s := Saving(init, store, byDiff, takesWebsite);
      NextStores(s, last, byDiff, takesWebsite);
      if takesWebsite && !Next(s, last, byDiff, takesWebsite).raised {
        NamesStoredSnoc(init, last, s.store, Next(s, last, byDiff, takesWebsite).store);
      }
    }
  }

  /** The loop as written: since `create_hospital` rejects the `website` keyword, no item is
      created (`saved_count` stays 0) and no name the store lacked is ever stored. */
  lemma {:induction false} SavingAsWritten(items: seq<Value>, store: map<string, Record>, byDiff: bool)
    ensures var s := Saving(items, store, byDiff, false);
      s.store.Keys == store.Keys && Creations(s.writes) == 0
    decreases |items|
  {
    if items != [] {
      var init := items[..|items| - 1];
      SavingAsWritten(init, store, byDiff);
      NextKeepsNames(Saving(init, store, byDiff, false), items[|items| - 1], byDiff);
    }
  }

  /** A district whose list holds one new hospital: as written it is not stored and nothing is
      counted; with creations going through it is stored and counted once. */
  lemma NewHospitalLost(store: map<string, Record>)
    requires "A" !in store
    ensures var items := [Obj(map["name" := Str("A")])];
      && "A" !in Saving(items, store, false, false).store
      && Creations(Saving(items, store, false, false).writes) == 0
      && "A" in Saving(items, store, false, true).store
      && Creations(Saving(items, store, false, true).writes) == 1
  {
    var item := Obj(map["name" := Str("A")]);
    assert RawName(item.fields) == Str("A");
    PyStr.LStripOfNonSpace("A");
    PyStr.RStripOfNonSpace("A");
    assert PyStr.Strip("A") == "A";
    assert Saving([item], store, false, false) == Next(Saved([], store, false), item, false, false);
    assert Saving([item], store, false, true) == Next(Saved([], store, false), item, false, true);
  }

  // ---------------------------------------------------------------------------
  // Saving the districts of a city (execute_district_refresh_task)

  /** The count and the creations of the district loop, and whether a district name has been bound yet. */
  datatype DistrictsSaved = DistrictsSaved(count: nat, created: seq<string>, known: set<string>, bound: bool)

  /** One turn of the district loop. A blank name is skipped; a known name counts without a write;
      a new one is created (with no code the insert cannot clash) and counts. When reading the name
      raises, the handler logs `district_name`: before any name was bound that raises again and
      fails the task (None), afterwards the item is skipped. */
  function DistrictNext(s: DistrictsSaved, item: Value): Option<DistrictsSaved> {
    if !item.Obj? || !RawName(item.fields).Str? then
      if s.bound then Some(s) else None
    else
      var name := PyStr.Strip(RawName(item.fields).s);
      if name == [] then Some(s.(bound := true))
      else if name in s.known then Some(s.(count := s.count + 1, bound := true))
      else Some(DistrictsSaved(s.count + 1, s.created + [name], s.known + {name}, true))
  }

  /** The district loop over a prefix of the items. */
  function SavingDistricts(items: seq<Value>, known: set<string>): Option<DistrictsSaved>
    decreases |items|
  {
    if items == [] then Some(DistrictsSaved(0, [], known, false))
    else
      match SavingDistricts(items[..|items| - 1], known)
      case None => None
      case Some(s) => DistrictNext(s, items[|items| - 1])
  }

  /** The district loop of execute_district_refresh_task with its counter; `known` holds the names
      the lookup finds. */
  method SaveDistricts(items: seq<Value>, known: set<string>) returns (r: Option<DistrictsSaved>)
    ensures r == SavingDistricts(items, known)
  {
    var s := DistrictsSaved(0, [], known, false);
    var i := 0;
    while i < |items|
      invariant 0 <= i <= |items|
      invariant SavingDistricts(items[..i], known) == Some(s)
    {
      assert items[..i + 1][..i] == items[..i];
      var district := items[i];
      if !district.Obj? || !RawName(district.fields).Str? {
        if !s.bound {
          DistrictsStayFailed(items, i + 1, known);
          return None;
        }
      } else {
        var name := PyStr.Strip(RawName(district.fields).s);
        if name == [] {
          s := s.(bound := true);
        } else if name in s.known {
          s := s.(count := s.count + 1, bound := true);
        } else {
          s := DistrictsSaved(s.count + 1, s.created + [name], s.known + {name}, true);
        }
      }
      i := i + 1;
    }
    assert items[..i] == items;
    r := Some(s);
  }

  /** Once the district loop has failed, the rest of the list does not matter. */
  lemma {:induction false} DistrictsStayFailed(items: seq<Value>, k: nat, known: set<string>)
    requires k <= |items| && SavingDistricts(items[..k], known).None?
    ensures SavingDistricts(items, known).None?
    decreases |items|
  {
    if k < |items| {
      var init := items[..|items| - 1];
      assert init[..k] == items[..k];
      DistrictsStayFailed(init, k, known);
    } else {
      assert items[..k] == items;
    }
  }

  /** The items with a usable name. */
  function SaveableCount(items: seq<Value>): (n: nat)
    ensures n <= |items|
    decreases |items|
  {
    if items == [] then 0
    else SaveableCount(items[..|items| - 1]) + (if Saveable(items[|items| - 1]) then 1 else 0)
  }

  /** The loop's state stays consistent: the known names are the ones given plus the ones created,
      and every created name is new, distinct from the others and non-empty. */
  predicate Consistent(s: DistrictsSaved, known: set<string>) {
    && s.known == known + (set n | n in s.created)
    && (forall k :: 0 <= k < |s.created| ==> s.created[k] !in known && s.created[k] != [])
    && (forall k, l :: 0 <= k < l < |s.created| ==> s.created[k] != s.created[l])
  }

  /** One turn counts exactly a usable name and keeps the state consistent. */
  /** Creating a new, non-empty name keeps the state consistent. */
  lemma CreateConsistent(s: DistrictsSaved, name: string, known: set<string>)
    requires Consistent(s, known) && name !in s.known && name != []
    ensures Consistent(DistrictsSaved(s.count + 1, s.created + [name], s.known + {name}, true), known)
  {
    var created := s.created + [name];
    assert forall k :: 0 <= k < |s.created| ==> s.created[k] in s.known;
    assert forall k :: 0 <= k < |s.created| ==> created[k] == s.created[k];
    assert (set n | n in created) == (set n | n in s.created) + {name};
  }

  /** One turn counts exactly a usable name and keeps the state consistent. */
  lemma DistrictNextFacts(s: DistrictsSaved, item: Value, known: set<string>)
    requires Consistent(s, known) && DistrictNext(s, item).Some?
    ensures var t := DistrictNext(s, item).value;
      t.count == s.count + (if Saveable(item) then 1 else 0) && Consistent(t, known)
  {
    if item.Obj? && RawName(item.fields).Str? {
      var name := PyStr.Strip(RawName(item.fields).s);
      if name != [] && name !in s.known {
        CreateConsistent(s, name, known);
      }
    }
  }

  /** `saved_districts_count` counts every district with a usable name, known or new; the districts
      created are new, distinct and named. */
  lemma {:induction false} DistrictsCounted(items: seq<Value>, known: set<string>)
    requires SavingDistricts(items, known).Some?
    ensures var s := SavingDistricts(items, known).value;
      s.count == SaveableCount(items) && Consistent(s, known)
    decreases |items|
  {
    if items != [] {
      var init := items[..|items| - 1];
      assert SavingDistricts(init, known).Some?;
      DistrictsCounted(init, known);
      DistrictNextFacts(SavingDistricts(init, known).value, items[|items| - 1], known);
    }
  }
}
