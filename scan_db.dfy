/**
 * The hospital scanner's database layer: the `tasks` table with its
 * return-code conventions, the four location tables with their UNIQUE
 * constraints and AUTOINCREMENT ids, and the clamped paging of the listing
 * queries.
 *
 * Tables are values held by a `Database` object: the task table is an
 * insertion-ordered dict keyed by task id (insertion order is rowid order),
 * each location table a sequence of rows in rowid order with the
 * AUTOINCREMENT counter beside it. Timestamps are integers passed in by the
 * caller; a stored result is the parsed JSON value (`json.dumps` followed by
 * `json.loads` is taken to give back the same value).
 */
module ScanDb {
  import opened Wrappers
  import Json
  import PyDict
  import Listing

  datatype TaskRow = TaskRow(
    taskId: string,
    hospitalName: string,
    query: Option<string>,
    status: string,
    createdAt: int,
    updatedAt: int,
    result: Option<Json.Value>,
    errorMessage: Option<string>)

  /** A `hospital_info` row: the task it belongs to and the hospital record saved for it. */
  datatype InfoRow = InfoRow(id: int, taskId: string, info: Json.Value, createdAt: int)

  /** The columns the INSERT of `save_hospital_info` names. */
  const InfoInsertColumns: set<string> :=
    {"task_id", "hospital_name", "level", "address", "phone", "departments",
     "beds_count", "staff_count", "specializations", "created_at"}

  /** `hospital_info` as `_init_tables_sync` creates it; the constructor runs it first. */
  const SyncInfoColumns: set<string> :=
    {"id", "task_id", "hospital_name", "hospital_level", "address", "phone", "website",
     "beds_count", "departments_info", "staff_structure", "created_at"}

  /** `hospital_info` as `init_db` declares it. Its `CREATE TABLE IF NOT EXISTS` comes
      after the constructor's, so this declaration never takes effect. */
  const InitInfoColumns: set<string> :=
    {"id", "task_id", "hospital_name", "level", "address", "phone", "departments",
     "beds_count", "staff_count", "specializations", "created_at"}

  /** An INSERT succeeds only when the table has every column it names. */
  predicate InsertFits(columns: set<string>) {
    InfoInsertColumns <= columns
  }

  /** As written, the table the constructor creates lacks `level`, so every
      `save_hospital_info` fails with "no such column" and returns False. */
  lemma SyncSchemaRejectsInfo()
    ensures "level" in InfoInsertColumns && "level" !in SyncInfoColumns
    ensures !InsertFits(SyncInfoColumns)
  {
  }

  /** The schema `init_db` declares, which the INSERT was written for, takes every column. */
  lemma InitSchemaTakesInfo()
    ensures InsertFits(InitInfoColumns)
  {
  }

  /** The location tables and their counters, which the task operations leave alone. */
  datatype Locations = Locations(provinces: seq<ProvinceRow>, cities: seq<CityRow>, districts: seq<DistrictRow>,
                                 hospitals: seq<HospitalRow>, counters: (int, int, int, int))

  datatype ProvinceRow = ProvinceRow(id: int, name: string, code: Option<string>)
  datatype CityRow = CityRow(id: int, name: string, code: Option<string>, provinceId: Option<int>)
  datatype DistrictRow = DistrictRow(id: int, name: string, code: Option<string>, cityId: Option<int>)
  datatype HospitalRow = HospitalRow(
    id: int,
    name: string,
    districtId: Option<int>,
    level: Option<string>,
    address: Option<string>,
    phone: Option<string>,
    bedsCount: Option<int>,
    staffCount: Option<int>,
    departments: seq<string>,
    specializations: seq<string>)

  function CreatedAt(r: TaskRow): int { r.createdAt }
  function ProvinceName(r: ProvinceRow): string { r.name }
  function CityName(r: CityRow): string { r.name }
  function DistrictName(r: DistrictRow): string { r.name }
  function HospitalName(r: HospitalRow): string { r.name }

  /** Python truthiness of an optional string: None and "" are false. */
  predicate Given(s: Option<string>) { s.Some? && s.value != [] }

  /** Python truthiness of an optional id: None and 0 are false. */
  predicate GivenId(id: Option<int>) { id.Some? && id.value != 0 }

  /** `x or []` on an optional list. */
  function OrEmpty(xs: Option<seq<string>>): seq<string> {
    if xs.Some? then xs.value else []
  }

  // ---------------------------------------------------------------------
  // Paging

  /** Where a listing query reads: the clamped page and page size, the number
      of pages and the row offset. */
  datatype PagePlan = PagePlan(page: int, size: int, totalPages: int, offset: int)

  const DefaultPageSize: int := 20
  const MaxPageSize: int := 1000

  /** The paging arithmetic of `get_provinces` and its siblings. */
  function Plan(page: int, pageSize: int, total: nat): PagePlan
  {
    var p := if page < 1 then 1 else page;
    var s := if pageSize < 1 then DefaultPageSize else if pageSize > MaxPageSize then MaxPageSize else pageSize;
    var tp := if total > 0 then (total + s - 1) / s else 1;
    var p' := if p > tp && total > 0 then tp else p;
    PagePlan(p', s, tp, (p' - 1) * s)
  }

  /** The clamped plan: page at least 1, size within 1..1000, the number of
      pages the ceiling of total / size (1 for an empty table), the page
      pulled back to the last one, and an offset that is never negative and,
      for a non-empty table, falls inside it. */
  lemma PlanBounds(page: int, pageSize: int, total: nat)
    ensures var pl := Plan(page, pageSize, total);
      && pl.page >= 1 && 1 <= pl.size <= MaxPageSize
      && (1 <= pageSize <= MaxPageSize ==> pl.size == pageSize)
      && (total == 0 ==> pl.totalPages == 1)
      && (total > 0 ==> (pl.totalPages - 1) * pl.size < total <= pl.totalPages * pl.size)
      && (total > 0 ==> pl.page <= pl.totalPages)
      && pl.offset >= 0
      && (total > 0 ==> pl.offset < total)
  {
    var pl := Plan(page, pageSize, total);
    var s := pl.size;
    MulMonoRight(s, 0, pl.page - 1);
    if total > 0 {
      CeilDiv(total, s);
      MulMonoRight(s, pl.page - 1, pl.totalPages - 1);
    }
  }

  /** `(total + s - 1) // s` is the ceiling of total / s. */
  lemma CeilDiv(total: int, s: int)
    requires total > 0 && s > 0
    ensures (total + s - 1) / s >= 1
    ensures ((total + s - 1) / s - 1) * s < total <= (total + s - 1) / s * s
  {
    var x := total + s - 1;
    var tp := x / s;
    var m := x % s;
    assert x == s * tp + m && 0 <= m < s;
    assert (tp - 1) * s == s * tp - s;
    assert tp * s == s * tp;
  }

  lemma MulMonoRight(s: int, a: int, b: int)
    requires s >= 0 && a <= b
    ensures a * s <= b * s
  {
  }

  /** One page of a table in name order, as the listing queries read it. */
  function PageItems<T>(rows: seq<T>, key: T -> string, page: int, pageSize: int): seq<T>
  {
    var pl := Plan(page, pageSize, |rows|);
    Listing.Window(Listing.SortByName(rows, key), pl.offset, pl.size)
  }

  /** A page holds at most page-size rows of the table, in name order, and a
      non-empty table never yields an empty page. */
  lemma PageItemsFacts<T>(rows: seq<T>, key: T -> string, page: int, pageSize: int)
    ensures var items := PageItems(rows, key, page, pageSize);
      && |items| <= Plan(page, pageSize, |rows|).size
      && (|rows| > 0 ==> |items| > 0)
      && Listing.SortedByName(items, key)
      && forall x :: x in items ==> x in rows
  {
    var pl := Plan(page, pageSize, |rows|);
    var sorted := Listing.SortByName(rows, key);
    Listing.SortByNameSorted(rows, key);
    PlanBounds(page, pageSize, |rows|);
    Listing.WindowOfSorted(sorted, key, pl.offset, pl.size);
    Listing.SameMembers(sorted, rows);
  }

  function CitiesOf(rows: seq<CityRow>, provinceId: Option<int>): (r: seq<CityRow>)
    ensures forall c :: c in r <==> c in rows && (!GivenId(provinceId) || c.provinceId == provinceId)
  {
    if !GivenId(provinceId) then rows else Filter(rows, (c: CityRow) => c.provinceId == provinceId)
  }

  function DistrictsOf(rows: seq<DistrictRow>, cityId: Option<int>): (r: seq<DistrictRow>)
    ensures forall d :: d in r <==> d in rows && (!GivenId(cityId) || d.cityId == cityId)
  {
    if !GivenId(cityId) then rows else Filter(rows, (d: DistrictRow) => d.cityId == cityId)
  }

  function HospitalsOf(rows: seq<HospitalRow>, districtId: Option<int>): (r: seq<HospitalRow>)
    ensures forall h :: h in r <==> h in rows && (!GivenId(districtId) || h.districtId == districtId)
  {
    if !GivenId(districtId) then rows else Filter(rows, (h: HospitalRow) => h.districtId == districtId)
  }

  /** `WHERE` on a table: the matching rows in rowid order. */
  function Filter<T(!new)>(rows: seq<T>, keep: T -> bool): (r: seq<T>)
    ensures |r| <= |rows|
    ensures forall x :: x in r <==> x in rows && keep(x)
  {
    if rows == [] then []
    else
      var rest := Filter(rows[1..], keep);
      assert forall x :: x in rows <==> x == rows[0] || x in rows[1..];
      if keep(rows[0]) then [rows[0]] + rest else rest
  }

  // ---------------------------------------------------------------------
  // Uniqueness

  /** SQLite's UNIQUE on a nullable column: NULLs never clash. */
  predicate CodeTaken<T>(rows: seq<T>, code: T -> Option<string>, c: Option<string>)
  {
    c.Some? && exists i :: 0 <= i < |rows| && code(rows[i]) == c
  }

  function ProvinceCode(r: ProvinceRow): Option<string> { r.code }
  function CityCode(r: CityRow): Option<string> { r.code }
  function DistrictCode(r: DistrictRow): Option<string> { r.code }

  /** Ids strictly increase in rowid order and stay at or below the counter. */
  ghost predicate IdsBelow<T>(rows: seq<T>, id: T -> int, counter: int)
  {
    (forall i :: 0 <= i < |rows| ==> 0 < id(rows[i]) <= counter)
    && (forall i, j :: 0 <= i < j < |rows| ==> id(rows[i]) < id(rows[j]))
  }

  ghost predicate CodesUnique<T>(rows: seq<T>, code: T -> Option<string>)
  {
    forall i, j :: 0 <= i < j < |rows| && code(rows[i]).Some? ==> code(rows[i]) != code(rows[j])
  }

  ghost predicate NamesUnique(rows: seq<ProvinceRow>)
  {
    forall i, j :: 0 <= i < j < |rows| ==> rows[i].name != rows[j].name
  }

  /** Appending a row whose id is above the counter keeps the ids increasing. */
  lemma AppendFresh<T>(rows: seq<T>, id: T -> int, counter: int, x: T)
    requires IdsBelow(rows, id, counter) && id(x) == counter + 1 && counter >= 0
    ensures IdsBelow(rows + [x], id, counter + 1)
  {
  }

  lemma AppendCode<T>(rows: seq<T>, code: T -> Option<string>, x: T)
    requires CodesUnique(rows, code) && !CodeTaken(rows, code, code(x))
    ensures CodesUnique(rows + [x], code)
  {
    assert forall i :: 0 <= i < |rows| && code(x).Some? ==> code(rows[i]) != code(x);
  }

  class Database {
    var tasks: PyDict.Dict<TaskRow>
    var provinces: seq<ProvinceRow>
    var cities: seq<CityRow>
    var districts: seq<DistrictRow>
    var hospitals: seq<HospitalRow>
    /** The AUTOINCREMENT counters (`sqlite_sequence`). */
    var provinceSeq: int
    var citySeq: int
    var districtSeq: int
    var hospitalSeq: int
    /** The columns `hospital_info` was created with, and its rows in rowid order. */
    const infoColumns: set<string>
    var hospitalInfo: seq<InfoRow>
    var infoSeq: int

    function Places(): Locations
      reads this
    {
      Locations(provinces, cities, districts, hospitals, (provinceSeq, citySeq, districtSeq, hospitalSeq))
    }

    ghost predicate Valid()
      reads this
    {
      && PyDict.Valid(tasks)
      && (forall id :: id in tasks.entries ==> tasks.entries[id].taskId == id)
      && provinceSeq >= 0 && citySeq >= 0 && districtSeq >= 0 && hospitalSeq >= 0
      && IdsBelow(provinces, (r: ProvinceRow) => r.id, provinceSeq)
      && IdsBelow(cities, (r: CityRow) => r.id, citySeq)
      && IdsBelow(districts, (r: DistrictRow) => r.id, districtSeq)
      && IdsBelow(hospitals, (r: HospitalRow) => r.id, hospitalSeq)
      && NamesUnique(provinces)
      && CodesUnique(provinces, ProvinceCode)
      && CodesUnique(cities, CityCode)
      && CodesUnique(districts, DistrictCode)
    }

    constructor ()
      ensures Valid()
      ensures tasks.entries == map[] && provinces == [] && cities == [] && districts == [] && hospitals == []
      ensures infoColumns == SyncInfoColumns && hospitalInfo == []
    {
      infoColumns := SyncInfoColumns;
      hospitalInfo, infoSeq := [], 0;
      tasks := PyDict.Empty();
      provinces, cities, districts, hospitals := [], [], [], [];
      provinceSeq, citySeq, districtSeq, hospitalSeq := 0, 0, 0, 0;
    }

    // -- tasks -----------------------------------------------------------

    /** `create_task`: inserts a pending row; a task id already present
        violates the primary key and the call returns False. */
    method CreateTask(taskId: string, hospitalName: string, query: Option<string>, status: string, now: int)
      returns (ok: bool)
      requires Valid()
      modifies this
      ensures Valid()
      ensures ok <==> taskId !in old(tasks.entries)
      ensures !ok ==> tasks == old(tasks)
      ensures ok ==> tasks == PyDict.Put(old(tasks), taskId,
                TaskRow(taskId, hospitalName, query, status, now, now, None, None))
      ensures Places() == old(Places()) && hospitalInfo == old(hospitalInfo) && infoSeq == old(infoSeq)
    {
      if taskId in tasks.entries {
        return false;
      }
      tasks := PyDict.Put(tasks, taskId, TaskRow(taskId, hospitalName, query, status, now, now, None, None));
      ok := true;
    }

    /** `update_task_status`: sets the status and the update time, and the
        error message only when a non-empty one is given; returns whether a
        row was updated. */
    method UpdateTaskStatus(taskId: string, status: string, errorMessage: Option<string>, now: int)
      returns (ok: bool)
      requires Valid()
      modifies this
      ensures Valid()
      ensures ok <==> taskId in old(tasks.entries)
      ensures tasks.keys == old(tasks.keys)
      ensures tasks.entries == if taskId in old(tasks.entries)
                               then old(tasks.entries)[taskId := WithStatus(old(tasks.entries[taskId]), status, errorMessage, now)]
                               else old(tasks.entries)
      ensures Places() == old(Places()) && hospitalInfo == old(hospitalInfo) && infoSeq == old(infoSeq)
    {
      if taskId !in tasks.entries {
        return false;
      }
      var row := tasks.entries[taskId];
      row := row.(status := status, updatedAt := now);
      if Given(errorMessage) {
        row := row.(errorMessage := errorMessage);
      }
      tasks := PyDict.Dict(tasks.keys, tasks.entries[taskId := row]);
      ok := true;
    }

    /** `save_task_result`: stores the result on the row, if there is one,
        and returns True either way. */
    method SaveTaskResult(taskId: string, result: Json.Value, now: int) returns (ok: bool)
      requires Valid()
      modifies this
      ensures Valid() && ok
      ensures tasks.keys == old(tasks.keys)
      ensures tasks.entries == if taskId in old(tasks.entries)
                               then old(tasks.entries)[taskId := old(tasks.entries[taskId]).(result := Some(result), updatedAt := now)]
                               else old(tasks.entries)
      ensures Places() == old(Places()) && hospitalInfo == old(hospitalInfo) && infoSeq == old(infoSeq)
    {
      if taskId in tasks.entries {
        var row := tasks.entries[taskId];
        tasks := PyDict.Dict(tasks.keys, tasks.entries[taskId := row.(result := Some(result), updatedAt := now)]);
      }
      ok := true;
    }

    /** `save_hospital_info`: appends the hospital record under the next id and
        returns True, or returns False and changes nothing when the INSERT
        names a column the table does not have. */
    method SaveHospitalInfo(taskId: string, info: Json.Value, now: int) returns (ok: bool)
      requires Valid()
      modifies this
      ensures Valid()
      ensures ok <==> InsertFits(infoColumns)
      ensures ok ==> hospitalInfo == old(hospitalInfo) + [InfoRow(old(infoSeq) + 1, taskId, info, now)]
                     && infoSeq == old(infoSeq) + 1
      ensures !ok ==> hospitalInfo == old(hospitalInfo) && infoSeq == old(infoSeq)
      ensures tasks == old(tasks) && Places() == old(Places())
    {
      if !InsertFits(infoColumns) {
        return false;
      }
      infoSeq := infoSeq + 1;
      hospitalInfo := hospitalInfo + [InfoRow(infoSeq, taskId, info, now)];
      ok := true;
    }

    /** `get_task`: the row, or None. */
    function GetTask(taskId: string): (r: Option<TaskRow>)
      reads this
      ensures r.Some? <==> taskId in tasks.entries
      ensures r.Some? ==> r.value == tasks.entries[taskId]
    {
      if taskId in tasks.entries then Some(tasks.entries[taskId]) else None
    }

    /** `get_task_result`: the stored result; None for a missing row, a row
        without a result, or a stored JSON `null`. */
    function GetTaskResult(taskId: string): (r: Option<Json.Value>)
      reads this
      ensures r.Some? <==> taskId in tasks.entries && tasks.entries[taskId].result.Some?
                           && tasks.entries[taskId].result.value != Json.Null
      ensures r.Some? ==> Some(r.value) == tasks.entries[taskId].result
    {
      match GetTask(taskId)
      case None => None
      case Some(row) =>
        if row.result.None? || row.result.value == Json.Null then None else row.result
    }

    /** `list_tasks`: at most `limit` rows (all of them for a negative
        limit), newest first. */
    function ListTasks(limit: int): (r: seq<TaskRow>)
      reads this
      requires Valid()
      ensures limit >= 0 ==> |r| <= limit
      ensures |r| <= |tasks.keys|
      ensures Listing.NewestFirst(r, CreatedAt)
      ensures forall x :: x in r ==> x.taskId in tasks.entries && tasks.entries[x.taskId] == x
      ensures |r| == if limit < 0 || limit >= |tasks.keys| then |tasks.keys| else limit
      ensures limit < 0 || limit >= |tasks.keys| ==> forall k :: k in tasks.entries ==> tasks.entries[k] in r
      ensures forall k, i :: k in tasks.entries && tasks.entries[k] !in r && 0 <= i < |r| ==>
                CreatedAt(tasks.entries[k]) <= CreatedAt(r[i])
    {
      TaskWindow(tasks, limit);
      Listing.Window(Listing.SortNewestFirst(PyDict.Values(tasks), CreatedAt), 0, limit)
    }

    // -- locations -------------------------------------------------------

    /** `create_province`: the new row's id, or 0 when the name, or a given
        code, is already taken. */
    method CreateProvince(name: string, code: Option<string>) returns (id: int)
      requires Valid()
      modifies this
      ensures Valid()
      ensures id == 0 <==> (exists i :: 0 <= i < |old(provinces)| && old(provinces)[i].name == name)
                           || CodeTaken(old(provinces), ProvinceCode, code)
      ensures id == 0 ==> provinces == old(provinces) && provinceSeq == old(provinceSeq)
      ensures id != 0 ==> id == old(provinceSeq) + 1 && provinceSeq == id
                          && provinces == old(provinces) + [ProvinceRow(id, name, code)]
      ensures id != 0 ==> forall i :: 0 <= i < |old(provinces)| ==> old(provinces)[i].id < id
      ensures tasks == old(tasks) && cities == old(cities) && districts == old(districts) && hospitals == old(hospitals)
      ensures hospitalInfo == old(hospitalInfo) && infoSeq == old(infoSeq)
    {
      if (exists i :: 0 <= i < |provinces| && provinces[i].name == name) || CodeTaken(provinces, ProvinceCode, code) {
        return 0;
      }
      id := provinceSeq + 1;
      var row := ProvinceRow(id, name, code);
      AppendFresh(provinces, (r: ProvinceRow) => r.id, provinceSeq, row);
      AppendCode(provinces, ProvinceCode, row);
      provinces := provinces + [row];
      provinceSeq := id;
    }

    /** `create_city`: the new row's id, or 0 when a given code is already
        taken. The parent id is not checked: the connection does not turn
        foreign keys on. */
    method CreateCity(name: string, provinceId: Option<int>, code: Option<string>) returns (id: int)
      requires Valid()
      modifies this
      ensures Valid()
      ensures id == 0 <==> CodeTaken(old(cities), CityCode, code)
      ensures id == 0 ==> cities == old(cities) && citySeq == old(citySeq)
      ensures id != 0 ==> id == old(citySeq) + 1 && citySeq == id
                          && cities == old(cities) + [CityRow(id, name, code, provinceId)]
      ensures id != 0 ==> forall i :: 0 <= i < |old(cities)| ==> old(cities)[i].id < id
      ensures tasks == old(tasks) && provinces == old(provinces) && districts == old(districts) && hospitals == old(hospitals)
      ensures hospitalInfo == old(hospitalInfo) && infoSeq == old(infoSeq)
    {
      if CodeTaken(cities, CityCode, code) {
        return 0;
      }
      id := citySeq + 1;
      var row := CityRow(id, name, code, provinceId);
      AppendFresh(cities, (r: CityRow) => r.id, citySeq, row);
      AppendCode(cities, CityCode, row);
      cities := cities + [row];
      citySeq := id;
    }

    /** `create_district`: as `create_city`, one level down. */
    method CreateDistrict(name: string, cityId: Option<int>, code: Option<string>) returns (id: int)
      requires Valid()
      modifies this
      ensures Valid()
      ensures id == 0 <==> CodeTaken(old(districts), DistrictCode, code)
      ensures id == 0 ==> districts == old(districts) && districtSeq == old(districtSeq)
      ensures id != 0 ==> id == old(districtSeq) + 1 && districtSeq == id
                          && districts == old(districts) + [DistrictRow(id, name, code, cityId)]
      ensures id != 0 ==> forall i :: 0 <= i < |old(districts)| ==> old(districts)[i].id < id
      ensures tasks == old(tasks) && provinces == old(provinces) && cities == old(cities) && hospitals == old(hospitals)
      ensures hospitalInfo == old(hospitalInfo) && infoSeq == old(infoSeq)
    {
      if CodeTaken(districts, DistrictCode, code) {
        return 0;
      }
      id := districtSeq + 1;
      var row := DistrictRow(id, name, code, cityId);
      AppendFresh(districts, (r: DistrictRow) => r.id, districtSeq, row);
      AppendCode(districts, DistrictCode, row);
      districts := districts + [row];
      districtSeq := id;
    }

    /** `create_hospital`: the table has no UNIQUE column, so every call adds
        a row; missing department and specialization lists are stored empty. */
    method CreateHospital(name: string, districtId: Option<int>, level: Option<string>, address: Option<string>,
                          phone: Option<string>, bedsCount: Option<int>, staffCount: Option<int>,
                          departments: Option<seq<string>>, specializations: Option<seq<string>>)
      returns (id: int)
      requires Valid()
      modifies this
      ensures Valid()
      ensures id == old(hospitalSeq) + 1 && id > 0 && hospitalSeq == id
      ensures hospitals == old(hospitals) + [HospitalRow(id, name, districtId, level, address, phone, bedsCount,
                                                         staffCount, OrEmpty(departments), OrEmpty(specializations))]
      ensures forall i :: 0 <= i < |old(hospitals)| ==> old(hospitals)[i].id < id
      ensures tasks == old(tasks) && provinces == old(provinces) && cities == old(cities) && districts == old(districts)
      ensures hospitalInfo == old(hospitalInfo) && infoSeq == old(infoSeq)
    {
      id := hospitalSeq + 1;
      var row := HospitalRow(id, name, districtId, level, address, phone, bedsCount, staffCount,
                             OrEmpty(departments), OrEmpty(specializations));
      AppendFresh(hospitals, (r: HospitalRow) => r.id, hospitalSeq, row);
      hospitals := hospitals + [row];
      hospitalSeq := id;
    }

    // -- paged listings --------------------------------------------------

    /** `get_provinces`: one page of provinces in name order, and the count. */
    method GetProvinces(page: int, pageSize: int) returns (items: seq<ProvinceRow>, total: nat)
      requires Valid()
      ensures total == |provinces|
      ensures items == PageItems(provinces, ProvinceName, page, pageSize)
      ensures |items| <= Plan(page, pageSize, total).size && (total > 0 ==> |items| > 0)
      ensures Listing.SortedByName(items, ProvinceName)
      ensures forall x :: x in items ==> x in provinces
    {
      total := |provinces|;
      var pl := PageOf(page, pageSize, total);
      items := Listing.Window(Listing.SortByName(provinces, ProvinceName), pl.offset, pl.size);
      PageItemsFacts(provinces, ProvinceName, page, pageSize);
    }

    /** `get_cities`: one page of cities in name order, restricted to the
        province when a non-zero id is given, and the count. */
    method GetCities(provinceId: Option<int>, page: int, pageSize: int) returns (items: seq<CityRow>, total: nat)
      requires Valid()
      ensures total == |CitiesOf(cities, provinceId)|
      ensures items == PageItems(CitiesOf(cities, provinceId), CityName, page, pageSize)
      ensures |items| <= Plan(page, pageSize, total).size && (total > 0 ==> |items| > 0)
      ensures Listing.SortedByName(items, CityName)
      ensures forall x :: x in items ==> x in cities && (!GivenId(provinceId) || x.provinceId == provinceId)
    {
      var chosen := CitiesOf(cities, provinceId);
      total := |chosen|;
      var pl := PageOf(page, pageSize, total);
      items := Listing.Window(Listing.SortByName(chosen, CityName), pl.offset, pl.size);
      PageItemsFacts(chosen, CityName, page, pageSize);
    }

    /** `get_districts`: as `get_cities`, one level down. */
    method GetDistricts(cityId: Option<int>, page: int, pageSize: int) returns (items: seq<DistrictRow>, total: nat)
      requires Valid()
      ensures total == |DistrictsOf(districts, cityId)|
      ensures items == PageItems(DistrictsOf(districts, cityId), DistrictName, page, pageSize)
      ensures |items| <= Plan(page, pageSize, total).size && (total > 0 ==> |items| > 0)
      ensures Listing.SortedByName(items, DistrictName)
      ensures forall x :: x in items ==> x in districts && (!GivenId(cityId) || x.cityId == cityId)
    {
      var chosen := DistrictsOf(districts, cityId);
      total := |chosen|;
      var pl := PageOf(page, pageSize, total);
      items := Listing.Window(Listing.SortByName(chosen, DistrictName), pl.offset, pl.size);
      PageItemsFacts(chosen, DistrictName, page, pageSize);
    }

    /** `get_hospitals`: as `get_cities`, for the hospitals of a district. */
    method GetHospitals(districtId: Option<int>, page: int, pageSize: int) returns (items: seq<HospitalRow>, total: nat)
      requires Valid()
      ensures total == |HospitalsOf(hospitals, districtId)|
      ensures items == PageItems(HospitalsOf(hospitals, districtId), HospitalName, page, pageSize)
      ensures |items| <= Plan(page, pageSize, total).size && (total > 0 ==> |items| > 0)
      ensures Listing.SortedByName(items, HospitalName)
      ensures forall x :: x in items ==> x in hospitals && (!GivenId(districtId) || x.districtId == districtId)
    {
      var chosen := HospitalsOf(hospitals, districtId);
      total := |chosen|;
      var pl := PageOf(page, pageSize, total);
      items := Listing.Window(Listing.SortByName(chosen, HospitalName), pl.offset, pl.size);
      PageItemsFacts(chosen, HospitalName, page, pageSize);
    }

    /** The paging prologue shared by the listing queries: `page` and
        `page_size` are reassigned step by step, then the offset computed. */
    method PageOf(page: int, pageSize: int, total: nat) returns (pl: PagePlan)
      ensures pl == Plan(page, pageSize, total)
      ensures pl.page >= 1 && 1 <= pl.size <= MaxPageSize && pl.offset >= 0
      ensures total > 0 ==> pl.offset < total
    {
      var p := page;
      var s := pageSize;
      if p < 1 {
        p := 1;
      }
      if s < 1 {
        s := DefaultPageSize;
      }
      if s > MaxPageSize {
        s := MaxPageSize;
      }
      var totalPages := if total > 0 then (total + s - 1) / s else 1;
      if p > totalPages && total > 0 {
        p := totalPages;
      }
      pl := PagePlan(p, s, totalPages, (p - 1) * s);
      PlanBounds(page, pageSize, total);
    }
  }

  /** Every value of the task table is stored under its own id. */
  lemma ValuesKeyed(d: PyDict.Dict<TaskRow>)
    requires PyDict.Valid(d) && forall id :: id in d.entries ==> d.entries[id].taskId == id
    ensures forall x :: x in PyDict.Values(d) ==> x.taskId in d.entries && d.entries[x.taskId] == x
  {
    var vs := PyDict.Values(d);
    forall x | x in vs ensures x.taskId in d.entries && d.entries[x.taskId] == x {
      var i :| 0 <= i < |vs| && vs[i] == x;
      assert d.keys[i] in d.entries;
    }
  }

  /** The first rows of the newest-first order: sorted, and drawn from the table. */
  lemma NewestWindow(all: seq<TaskRow>, limit: int)
    ensures var r := Listing.Window(Listing.SortNewestFirst(all, CreatedAt), 0, limit);
      Listing.NewestFirst(r, CreatedAt) && forall x :: x in r ==> x in all
  {
    var sorted := Listing.SortNewestFirst(all, CreatedAt);
    Listing.SortNewestFirstSorted(all, CreatedAt);
    var r := Listing.Window(sorted, 0, limit);
    forall x | x in r ensures x in all {
      var i :| 0 <= i < |r| && r[i] == x;
      assert r[i] == sorted[i];
      assert x in multiset(sorted);
    }
  }

  /** What `list_tasks` promises of the newest-first window over a task table. */
  lemma TaskWindow(d: PyDict.Dict<TaskRow>, limit: int)
    requires PyDict.Valid(d) && forall id :: id in d.entries ==> d.entries[id].taskId == id
    ensures var r := Listing.Window(Listing.SortNewestFirst(PyDict.Values(d), CreatedAt), 0, limit);
      && (limit >= 0 ==> |r| <= limit)
      && |r| <= |d.keys|
      && Listing.NewestFirst(r, CreatedAt)
      && (forall x :: x in r ==> x.taskId in d.entries && d.entries[x.taskId] == x)
      && |r| == (if limit < 0 || limit >= |d.keys| then |d.keys| else limit)
      && (limit < 0 || limit >= |d.keys| ==> forall k :: k in d.entries ==> d.entries[k] in r)
      && forall k, i :: k in d.entries && d.entries[k] !in r && 0 <= i < |r| ==>
           CreatedAt(d.entries[k]) <= CreatedAt(r[i])
  {
    var all := PyDict.Values(d);
    var r := Listing.Window(Listing.SortNewestFirst(all, CreatedAt), 0, limit);
    NewestWindow(all, limit);
    NewestWindowRest(all, limit);
    ValuesKeyed(d);
    PyDict.ValuesCover(d);
    if limit < 0 || limit >= |d.keys| {
      forall k | k in d.entries ensures d.entries[k] in r {
        assert d.entries[k] in multiset(all);
      }
    }
  }

  /** The rows the newest-first window leaves out are no newer than any it returns, and
      without a binding limit it returns every row. */
  lemma NewestWindowRest(all: seq<TaskRow>, limit: int)
    ensures var r := Listing.Window(Listing.SortNewestFirst(all, CreatedAt), 0, limit);
      && |r| == (if limit < 0 || limit >= |all| then |all| else limit)
      && (limit < 0 || limit >= |all| ==> multiset(r) == multiset(all))
      && forall x, i :: x in all && x !in r && 0 <= i < |r| ==> CreatedAt(x) <= CreatedAt(r[i])
  {
    var sorted := Listing.SortNewestFirst(all, CreatedAt);
    Listing.SortNewestFirstSorted(all, CreatedAt);
    var r := Listing.Window(sorted, 0, limit);
    if limit < 0 || limit >= |all| {
      assert r == sorted;
    }
    forall x, i | x in all && x !in r && 0 <= i < |r| ensures CreatedAt(x) <= CreatedAt(r[i]) {
      assert x in multiset(sorted);
      var j :| 0 <= j < |sorted| && sorted[j] == x;
      if j < |r| {
        assert r[j] == x;
      }
      assert r[i] == sorted[i];
    }
  }

  /** The row `update_task_status` leaves: the status and update time set, the
      error message replaced only by a non-empty one. */
  function WithStatus(row: TaskRow, status: string, errorMessage: Option<string>, now: int): (r: TaskRow)
    ensures r.status == status && r.updatedAt == now
    ensures r.errorMessage == if Given(errorMessage) then errorMessage else row.errorMessage
    ensures r.(status := row.status, updatedAt := row.updatedAt, errorMessage := row.errorMessage) == row
  {
    var r := row.(status := status, updatedAt := now);
    if Given(errorMessage) then r.(errorMessage := errorMessage) else r
  }
}
