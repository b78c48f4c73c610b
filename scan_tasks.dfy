/**
 * The hospital scanner's task registry: an in-memory dict of task records
 * keyed by task id, mirrored into the database's `tasks` table.
 *
 * Statuses are kept as the strings the enum's values spell; the enum itself
 * is `ScanStatus`. Creation times are integer seconds; the uuid of a new
 * task and the clock are parameters. Whether pydantic accepts a dict as a
 * `ScanResult` is a parameter too (`accepts`).
 */
module ScanTasks {
  import opened Wrappers
  import Json
  import PyDict
  import Listing
  import ScanDb

  datatype ScanStatus = Pending | Running | Completed | Failed | Cancelled

  /** The enum's `.value`. */
  function StatusText(s: ScanStatus): string
  {
    match s
    case Pending => "pending"
    case Running => "running"
    case Completed => "completed"
    case Failed => "failed"
    case Cancelled => "cancelled"
  }

  /** `TaskStatus(text)`: None where the enum raises ValueError. */
  function ParseStatus(text: string): (r: Option<ScanStatus>)
    ensures r.Some? ==> StatusText(r.value) == text
  {
    if text == "pending" then Some(Pending)
    else if text == "running" then Some(Running)
    else if text == "completed" then Some(Completed)
    else if text == "failed" then Some(Failed)
    else if text == "cancelled" then Some(Cancelled)
    else None
  }

  /** Every status reads back as itself. */
  lemma ParseStatusText(s: ScanStatus)
    ensures ParseStatus(StatusText(s)) == Some(s)
  {
  }

  /** A record's `result`: the dict a save put there, or the JSON text of a
      row merged from the database. */
  datatype Payload = Dict(value: Json.Value) | Text(value: Json.Value)

  datatype Record = Record(
    taskId: string,
    hospitalName: string,
    query: Option<string>,
    status: string,
    createdAt: int,
    updatedAt: int,
    result: Option<Payload>,
    errorMessage: Option<string>)

  function CreatedAt(r: Record): int { r.createdAt }

  /** `bool(task_data["result"])`: JSON text is never empty. */
  predicate PayloadTruthy(p: Option<Payload>)
  {
    match p
    case None => false
    case Some(Dict(v)) => Json.Truthy(v)
    case Some(Text(_)) => true
  }

  /** `ScanResult(**value)` succeeds: the value is a dict pydantic accepts. */
  predicate Builds(accepts: Json.Value -> bool, v: Json.Value)
  {
    v.Obj? && accepts(v)
  }

  /** A database row as `list_tasks` puts it in memory: the result column is
      still JSON text. */
  function FromRow(row: ScanDb.TaskRow): (r: Record)
    ensures r.taskId == row.taskId && r.status == row.status && r.createdAt == row.createdAt
    ensures r.result.Some? <==> row.result.Some?
    ensures r.result.Some? ==> r.result.value == Text(row.result.value)
  {
    Record(row.taskId, row.hospitalName, row.query, row.status, row.createdAt, row.updatedAt,
           if row.result.Some? then Some(Text(row.result.value)) else None, row.errorMessage)
  }

  /** The registry after `list_tasks` merged `rows` in order: a row with a
      non-empty id not yet present is added; nothing present is replaced. */
  function Merge(d: PyDict.Dict<Record>, rows: seq<ScanDb.TaskRow>): (r: PyDict.Dict<Record>)
    requires PyDict.Valid(d)
    ensures PyDict.Valid(r)
    decreases |rows|
  {
    if rows == [] then d
    else
      var before := Merge(d, rows[..|rows| - 1]);
      var row := rows[|rows| - 1];
      if row.taskId != [] && row.taskId !in before.entries then PyDict.Put(before, row.taskId, FromRow(row))
      else before
  }

  /** One more row: it is added when its id is non-empty and missing. */
  lemma MergeStep(d: PyDict.Dict<Record>, rows: seq<ScanDb.TaskRow>)
    requires PyDict.Valid(d) && rows != []
    ensures var before := Merge(d, rows[..|rows| - 1]);
      var row := rows[|rows| - 1];
      if row.taskId != [] && row.taskId !in before.entries then
        Merge(d, rows).entries == before.entries[row.taskId := FromRow(row)]
        && Merge(d, rows).keys == before.keys + [row.taskId]
      else Merge(d, rows) == before
  {
  }

  /** Merging never replaces or drops a record, and only appends keys. */
  lemma {:induction false} MergeKeepsOld(d: PyDict.Dict<Record>, rows: seq<ScanDb.TaskRow>)
    requires PyDict.Valid(d)
    ensures forall id :: id in d.entries ==> id in Merge(d, rows).entries && Merge(d, rows).entries[id] == d.entries[id]
    ensures |d.keys| <= |Merge(d, rows).keys| && Merge(d, rows).keys[..|d.keys|] == d.keys
    decreases |rows|
  {
    if rows != [] {
      var init := rows[..|rows| - 1];
      MergeKeepsOld(d, init);
      MergeStep(d, rows);
      var before := Merge(d, init);
      var row := rows[|rows| - 1];
      if row.taskId != [] && row.taskId !in before.entries {
        assert (before.keys + [row.taskId])[..|d.keys|] == before.keys[..|d.keys|];
      }
    }
  }

  /** The merged ids are the old ones and the rows' non-empty ids. */
  lemma {:induction false} MergeDomain(d: PyDict.Dict<Record>, rows: seq<ScanDb.TaskRow>)
    requires PyDict.Valid(d)
    ensures forall id :: id in Merge(d, rows).entries <==>
              id in d.entries || exists i :: 0 <= i < |rows| && rows[i].taskId == id && id != []
    decreases |rows|
  {
    if rows != [] {
      var init := rows[..|rows| - 1];
      MergeDomain(d, init);
      MergeStep(d, rows);
      assert forall i :: 0 <= i < |init| ==> init[i] == rows[i];
    }
  }

  /** A new record is the in-memory form of a row carrying its id. */
  lemma {:induction false} MergeOrigin(d: PyDict.Dict<Record>, rows: seq<ScanDb.TaskRow>)
    requires PyDict.Valid(d)
    ensures forall id :: id in Merge(d, rows).entries && id !in d.entries ==>
              exists i :: 0 <= i < |rows| && Merge(d, rows).entries[id] == FromRow(rows[i]) && rows[i].taskId == id
    decreases |rows|
  {
    if rows != [] {
      var init := rows[..|rows| - 1];
      MergeOrigin(d, init);
      MergeStep(d, rows);
      assert forall i :: 0 <= i < |init| ==> init[i] == rows[i];
    }
  }

  /** Merging never replaces or drops a record, and adds exactly the rows with
      a non-empty id that were missing. */
  lemma MergeKeeps(d: PyDict.Dict<Record>, rows: seq<ScanDb.TaskRow>)
    requires PyDict.Valid(d)
    ensures forall id :: id in d.entries ==> id in Merge(d, rows).entries && Merge(d, rows).entries[id] == d.entries[id]
    ensures forall id :: id in Merge(d, rows).entries <==>
              id in d.entries || exists i :: 0 <= i < |rows| && rows[i].taskId == id && id != []
    ensures forall id :: id in Merge(d, rows).entries && id !in d.entries ==>
              exists i :: 0 <= i < |rows| && Merge(d, rows).entries[id] == FromRow(rows[i]) && rows[i].taskId == id
    ensures |d.keys| <= |Merge(d, rows).keys| && Merge(d, rows).keys[..|d.keys|] == d.keys
  {
    MergeKeepsOld(d, rows);
    MergeDomain(d, rows);
    MergeOrigin(d, rows);
  }

  /** Ids of records created before `cutoff` whose status is completed or failed. */
  predicate Removable(r: Record, cutoff: int)
  {
    r.createdAt < cutoff && (r.status == StatusText(Completed) || r.status == StatusText(Failed))
  }

  function RemovableKeys(keys: seq<string>, entries: map<string, Record>, cutoff: int): seq<string>
  {
    if keys == [] then []
    else
      var rest := RemovableKeys(keys[..|keys| - 1], entries, cutoff);
      var k := keys[|keys| - 1];
      if k in entries && Removable(entries[k], cutoff) then rest + [k] else rest
  }

  lemma {:induction false} RemovableKeysMembers(keys: seq<string>, entries: map<string, Record>, cutoff: int)
    requires PyDict.Distinct(keys)
    ensures forall id :: id in RemovableKeys(keys, entries, cutoff) <==>
              id in keys && id in entries && Removable(entries[id], cutoff)
    ensures PyDict.Distinct(RemovableKeys(keys, entries, cutoff))
  {
    if keys != [] {
      var init := keys[..|keys| - 1];
      assert PyDict.Distinct(init);
      RemovableKeysMembers(init, entries, cutoff);
      assert keys == init + [keys[|keys| - 1]];
    }
  }

  /** The records `cleanup_completed_tasks` keeps. */
  function Survivors(entries: map<string, Record>, cutoff: int): map<string, Record>
  {
    map id | id in entries && !Removable(entries[id], cutoff) :: entries[id]
  }

  /** The ids it removes. */
  function Doomed(entries: map<string, Record>, cutoff: int): set<string>
  {
    set id | id in entries && Removable(entries[id], cutoff)
  }

  /** Cleanup never touches a pending, running or cancelled task. */
  lemma SurvivorsKeepUnfinished(entries: map<string, Record>, cutoff: int, id: string)
    requires id in entries
    requires entries[id].status !in {StatusText(Completed), StatusText(Failed)}
    ensures id in Survivors(entries, cutoff) && Survivors(entries, cutoff)[id] == entries[id]
  {
  }

  function SetOf(s: seq<string>): set<string> { set x | x in s }

  /** The second loop of `cleanup_completed_tasks`: `del` each listed id,
      counting the deletions. */
  method DeleteAll(d: PyDict.Dict<Record>, ids: seq<string>) returns (r: PyDict.Dict<Record>, removed: nat)
    requires PyDict.Valid(d)
    ensures PyDict.Valid(r)
    ensures r.entries == d.entries - SetOf(ids)
    ensures removed == |ids|
  {
    r := d;
    var j := 0;
    removed := 0;
    while j < |ids|
      invariant 0 <= j <= |ids| && removed == j
      invariant PyDict.Valid(r)
      invariant r.entries == d.entries - SetOf(ids[..j])
    {
      assert SetOf(ids[..j + 1]) == SetOf(ids[..j]) + {ids[j]} by {
        assert ids[..j + 1] == ids[..j] + [ids[j]];
      }
      r := PyDict.Del(r, ids[j]);
      removed := removed + 1;
      j := j + 1;
    }
    assert ids[..j] == ids;
  }

  lemma RemovedExactly(before: map<string, Record>, ids: seq<string>, cutoff: int)
    requires forall id :: id in ids <==> id in before && Removable(before[id], cutoff)
    ensures before - SetOf(ids) == Survivors(before, cutoff)
    ensures SetOf(ids) == Doomed(before, cutoff)
  {
  }

  /** How many records carry status text `st`. */
  function CountStatus(rs: seq<Record>, st: string): nat
  {
    if rs == [] then 0
    else CountStatus(rs[..|rs| - 1], st) + (if rs[|rs| - 1].status == st then 1 else 0)
  }

  /** The four counters never add up to more than the number of records. */
  lemma {:induction false} CountsBounded(rs: seq<Record>)
    ensures CountStatus(rs, "pending") + CountStatus(rs, "running")
            + CountStatus(rs, "completed") + CountStatus(rs, "failed") <= |rs|
  {
    if rs != [] {
      CountsBounded(rs[..|rs| - 1]);
    }
  }

  /** `result.hospital_info`, read from the result's dict: None when absent or null. */
  function HospitalInfoOf(result: Json.Value): (r: Option<Json.Value>)
    ensures r.Some? <==> Json.Has(result, "hospital_info") && result.fields["hospital_info"] != Json.Null
    ensures r.Some? ==> r.value == result.fields["hospital_info"]
  {
    var v := Json.GetOrNull(result, "hospital_info");
    if v == Json.Null then None else Some(v)
  }

  /** The `hospital_info` rows one save of `info` adds: one row under the next
      id when there is a record and the table takes the INSERT, none otherwise. */
  function InfoSaved(db: ScanDb.Database, taskId: string, info: Option<Json.Value>, counter: int, now: int)
    : (r: seq<ScanDb.InfoRow>)
    reads db
    ensures |r| <= 1
    ensures r != [] <==> info.Some? && ScanDb.InsertFits(db.infoColumns)
    ensures r != [] ==> r[0].id == counter + 1 && r[0].taskId == taskId && r[0].info == info.value
  {
    if info.Some? && ScanDb.InsertFits(db.infoColumns) then [ScanDb.InfoRow(counter + 1, taskId, info.value, now)] else []
  }

  /** What `get_statistics` returns. */
  datatype Statistics = Statistics(
    total: nat, pending: nat, running: nat, completed: nat, failed: nat, recent: seq<Record>)

  const RecentLimit: nat := 10

  class TaskManager {
    var tasks: PyDict.Dict<Record>
    const db: ScanDb.Database

    ghost predicate Valid()
      reads this, db
    {
      PyDict.Valid(tasks) && db.Valid()
    }

    constructor (db: ScanDb.Database)
      requires db.Valid()
      ensures Valid() && this.db == db && tasks.entries == map[]
    {
      this.db := db;
      tasks := PyDict.Empty();
    }

    /** `create_task`: registers a pending record under the fresh id, then
        inserts the row; the record stays even when the insert returns False. */
    method CreateTask(taskId: string, hospitalName: string, query: Option<string>, now: int)
      returns (id: string)
      requires Valid()
      modifies this, db
      ensures Valid() && id == taskId
      ensures tasks == PyDict.Put(old(tasks), taskId,
                Record(taskId, hospitalName, query, StatusText(Pending), now, now, None, None))
      ensures taskId !in old(db.tasks.entries) ==>
                db.tasks.entries == old(db.tasks.entries)[taskId := ScanDb.TaskRow(taskId, hospitalName, query, StatusText(Pending), now, now, None, None)]
      ensures taskId in old(db.tasks.entries) ==> db.tasks == old(db.tasks)
      ensures db.Places() == old(db.Places()) && db.hospitalInfo == old(db.hospitalInfo)
    {
      tasks := PyDict.Put(tasks, taskId, Record(taskId, hospitalName, query, StatusText(Pending), now, now, None, None));
      var _ := db.CreateTask(taskId, hospitalName, query, StatusText(Pending), now);
      id := taskId;
    }

    /** `update_task_status`: on a known id, sets exactly the given status (no
        transition check), the update time, and the error message only when a
        non-empty one is given, then updates the row. An unknown id changes
        nothing and the database is not called. */
    method UpdateTaskStatus(taskId: string, status: ScanStatus, errorMessage: Option<string>, now: int)
      requires Valid()
      modifies this, db
      ensures Valid()
      ensures tasks.keys == old(tasks.keys)
      ensures taskId !in old(tasks.entries) ==> tasks == old(tasks) && db.tasks == old(db.tasks)
      ensures taskId in old(tasks.entries) ==>
                var t := old(tasks.entries[taskId]);
                tasks.entries == old(tasks.entries)[taskId := t.(status := StatusText(status), updatedAt := now,
                  errorMessage := if ScanDb.Given(errorMessage) then errorMessage else t.errorMessage)]
      ensures taskId in old(tasks.entries) && taskId in old(db.tasks.entries) ==>
                db.tasks.entries == old(db.tasks.entries)[taskId :=
                  ScanDb.WithStatus(old(db.tasks.entries[taskId]), StatusText(status), errorMessage, now)]
      ensures taskId !in old(db.tasks.entries) ==> db.tasks == old(db.tasks)
      ensures db.tasks.keys == old(db.tasks.keys)
      ensures db.Places() == old(db.Places()) && db.hospitalInfo == old(db.hospitalInfo)
    {
      if taskId !in tasks.entries {
        return;
      }
      var t := tasks.entries[taskId];
      t := t.(status := StatusText(status), updatedAt := now);
      if ScanDb.Given(errorMessage) {
        t := t.(errorMessage := errorMessage);
      }
      tasks := PyDict.Dict(tasks.keys, tasks.entries[taskId := t]);
      var _ := db.UpdateTaskStatus(taskId, StatusText(status), errorMessage, now);
    }

    /** `save_task_result`: on a known id, stores the result dict on the record
        and on the row, then saves the result's hospital record, when it has
        one, to `hospital_info`; an unknown id changes nothing. */
    method SaveTaskResult(taskId: string, result: Json.Value, now: int)
      requires Valid()
      modifies this, db
      ensures Valid()
      ensures tasks.keys == old(tasks.keys) && db.tasks.keys == old(db.tasks.keys)
      ensures db.Places() == old(db.Places())
      ensures taskId !in old(tasks.entries) ==>
                tasks == old(tasks) && db.tasks == old(db.tasks) && db.hospitalInfo == old(db.hospitalInfo)
      ensures taskId in old(tasks.entries) ==>
                tasks.entries == old(tasks.entries)[taskId := old(tasks.entries[taskId]).(result := Some(Dict(result)), updatedAt := now)]
      ensures taskId in old(tasks.entries) ==>
                db.tasks.entries == if taskId in old(db.tasks.entries)
                                    then old(db.tasks.entries)[taskId := old(db.tasks.entries[taskId]).(result := Some(result), updatedAt := now)]
                                    else old(db.tasks.entries)
      ensures taskId in old(tasks.entries) ==>
                db.hospitalInfo == old(db.hospitalInfo) + InfoSaved(db, taskId, HospitalInfoOf(result), old(db.infoSeq), now)
    {
      if taskId !in tasks.entries {
        return;
      }
      var t := tasks.entries[taskId];
      tasks := PyDict.Dict(tasks.keys, tasks.entries[taskId := t.(result := Some(Dict(result)), updatedAt := now)]);
      var _ := db.SaveTaskResult(taskId, result, now);
      var info := HospitalInfoOf(result);
      if info.Some? {
        var _ := db.SaveHospitalInfo(taskId, info.value, now);
      }
    }

    /** `get_task_result`: the record's result when it builds a `ScanResult`,
        else the row's stored result when that does, else None. */
    function GetTaskResult(taskId: string, accepts: Json.Value -> bool): (r: Option<Json.Value>)
      reads this, db
      ensures r.Some? ==> Builds(accepts, r.value) && Json.Truthy(r.value)
      ensures taskId in tasks.entries && tasks.entries[taskId].result.Some?
              && tasks.entries[taskId].result.value.Dict? && Json.Truthy(tasks.entries[taskId].result.value.value)
              && Builds(accepts, tasks.entries[taskId].result.value.value)
              ==> r == Some(tasks.entries[taskId].result.value.value)
      ensures r.Some? && !(taskId in tasks.entries && tasks.entries[taskId].result == Some(Dict(r.value)))
              ==> db.GetTaskResult(taskId) == Some(r.value)
      ensures r.None? && db.GetTaskResult(taskId).Some? ==>
                !Json.Truthy(db.GetTaskResult(taskId).value) || !Builds(accepts, db.GetTaskResult(taskId).value)
    {
      var memory :=
        if taskId in tasks.entries && PayloadTruthy(tasks.entries[taskId].result)
           && tasks.entries[taskId].result.value.Dict? && Builds(accepts, tasks.entries[taskId].result.value.value)
        then Some(tasks.entries[taskId].result.value.value)
        else None;
      if memory.Some? then memory
      else
        var stored := db.GetTaskResult(taskId);
        if stored.Some? && Json.Truthy(stored.value) && Builds(accepts, stored.value) then stored else None
    }

    /** `get_task_status`: the record's status when it is a valid value, else
        the row's, else None. */
    function GetTaskStatus(taskId: string): (r: Option<ScanStatus>)
      reads this, db
      ensures r.Some? ==>
                (taskId in tasks.entries && tasks.entries[taskId].status == StatusText(r.value))
                || (taskId in db.tasks.entries && db.tasks.entries[taskId].status == StatusText(r.value))
      ensures taskId in tasks.entries && ParseStatus(tasks.entries[taskId].status).Some? ==>
                r == ParseStatus(tasks.entries[taskId].status)
      ensures r.None? <==>
                (taskId !in tasks.entries || ParseStatus(tasks.entries[taskId].status).None?)
                && (taskId !in db.tasks.entries || ParseStatus(db.tasks.entries[taskId].status).None?)
    {
      var memory := if taskId in tasks.entries then ParseStatus(tasks.entries[taskId].status) else None;
      if memory.Some? then memory
      else
        match db.GetTask(taskId)
        case None => None
        case Some(row) => ParseStatus(row.status)
    }

    /** `list_tasks`: the rows the database lists, merged into the registry. */
    method ListTasks(limit: int) returns (rows: seq<ScanDb.TaskRow>)
      requires Valid()
      modifies this
      ensures Valid()
      ensures rows == db.ListTasks(limit)
      ensures tasks == Merge(old(tasks), rows)
    {
      rows := db.ListTasks(limit);
      MergeRows(rows);
    }

    /** The loop of `list_tasks` that copies missing rows into the registry. */
    method MergeRows(rows: seq<ScanDb.TaskRow>)
      requires PyDict.Valid(tasks)
      modifies this
      ensures tasks == Merge(old(tasks), rows)
    {
      var i := 0;
      ghost var start := tasks;
      while i < |rows|
        invariant 0 <= i <= |rows|
        invariant PyDict.Valid(tasks)
        invariant tasks == Merge(start, rows[..i])
      {
        assert rows[..i + 1][..i] == rows[..i];
        var id := rows[i].taskId;
        if id != [] && id !in tasks.entries {
          tasks := PyDict.Put(tasks, id, FromRow(rows[i]));
        }
        i := i + 1;
      }
      assert rows[..i] == rows;
    }

    /** `delete_task`: removes a known id and says so; an unknown id changes
        nothing. The row stays in the database. */
    method DeleteTask(taskId: string) returns (ok: bool)
      requires Valid()
      modifies this
      ensures Valid()
      ensures ok <==> taskId in old(tasks.entries)
      ensures tasks.entries == old(tasks.entries) - {taskId}
      ensures !ok ==> tasks == old(tasks)
    {
      if taskId in tasks.entries {
        tasks := PyDict.Del(tasks, taskId);
        return true;
      }
      ok := false;
    }

    /** `cleanup_completed_tasks`: deletes the completed and failed tasks
        created before `now - hours * 3600`, and returns how many. */
    method CleanupCompletedTasks(hours: int, now: int) returns (removed: nat)
      requires Valid()
      modifies this
      ensures Valid()
      ensures tasks.entries == Survivors(old(tasks.entries), now - hours * 3600)
      ensures removed == |Doomed(old(tasks.entries), now - hours * 3600)|
    {
      var cutoff := now - hours * 3600;
      var toRemove := CollectRemovable(cutoff);
      RemovedExactly(tasks.entries, toRemove, cutoff);
      PyDict.DistinctSeqCard(toRemove);
      assert SetOf(toRemove) == set k | k in toRemove;
      tasks, removed := DeleteAll(tasks, toRemove);
    }

    /** The first loop of `cleanup_completed_tasks`. */
    method CollectRemovable(cutoff: int) returns (ids: seq<string>)
      requires Valid()
      ensures PyDict.Distinct(ids)
      ensures forall id :: id in ids <==> id in tasks.entries && Removable(tasks.entries[id], cutoff)
    {
      ids := [];
      var i := 0;
      while i < |tasks.keys|
        invariant 0 <= i <= |tasks.keys|
        invariant ids == RemovableKeys(tasks.keys[..i], tasks.entries, cutoff)
      {
        assert tasks.keys[..i + 1][..i] == tasks.keys[..i];
        var id := tasks.keys[i];
        if Removable(tasks.entries[id], cutoff) {
          ids := ids + [id];
        }
        i := i + 1;
      }
      assert tasks.keys[..i] == tasks.keys;
      RemovableKeysMembers(tasks.keys, tasks.entries, cutoff);
    }

    /** `get_statistics`: the number of records, one counter per status
        (cancelled and unknown statuses are not counted), and the ten newest
        records. */
    method GetStatistics() returns (st: Statistics)
      requires Valid()
      ensures st.total == |tasks.entries|
      ensures var vs := PyDict.Values(tasks);
        && st.pending == CountStatus(vs, "pending") && st.running == CountStatus(vs, "running")
        && st.completed == CountStatus(vs, "completed") && st.failed == CountStatus(vs, "failed")
      ensures st.pending + st.running + st.completed + st.failed <= st.total
      ensures |st.recent| <= RecentLimit
      ensures st.recent == Listing.Window(Listing.SortNewestFirst(PyDict.Values(tasks), CreatedAt), 0, RecentLimit)
      ensures Listing.NewestFirst(st.recent, CreatedAt)
    {
      var vs := PyDict.Values(tasks);
      var pending, running, completed, failed := 0, 0, 0, 0;
      var i := 0;
      while i < |vs|
        invariant 0 <= i <= |vs|
        invariant pending == CountStatus(vs[..i], "pending") && running == CountStatus(vs[..i], "running")
        invariant completed == CountStatus(vs[..i], "completed") && failed == CountStatus(vs[..i], "failed")
      {
        assert vs[..i + 1][..i] == vs[..i];
        var status := vs[i].status;
        if status == "pending" {
          pending := pending + 1;
        } else if status == "running" {
          running := running + 1;
        } else if status == "completed" {
          completed := completed + 1;
        } else if status == "failed" {
          failed := failed + 1;
        }
        i := i + 1;
      }
      assert vs[..i] == vs;
      CountsBounded(vs);
      PyDict.DistinctKeysCount(tasks);
      var recent := Listing.Window(Listing.SortNewestFirst(vs, CreatedAt), 0, RecentLimit);
      RecentSorted(vs);
      st := Statistics(|tasks.entries|, pending, running, completed, failed, recent);
    }
  }

  lemma RecentSorted(vs: seq<Record>)
    ensures Listing.NewestFirst(Listing.Window(Listing.SortNewestFirst(vs, CreatedAt), 0, RecentLimit), CreatedAt)
  {
    var sorted := Listing.SortNewestFirst(vs, CreatedAt);
    Listing.SortNewestFirstSorted(vs, CreatedAt);
    var w := Listing.Window(sorted, 0, RecentLimit);
    assert forall i :: 0 <= i < |w| ==> w[i] == sorted[i];
  }
}
