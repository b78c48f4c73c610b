# HBackScan hierarchy refresh, modelled in Dafny

HBackScan is a service that keeps a province → city → district → hospital
hierarchy up to date. It asks an LLM for the children of each level, stores
them in SQLite and exposes paged listings and background refresh tasks. The
repository has two generations of the core, and this project models both:

- `tasks.py`, `db.py` and `llm_client.py` at the repository root. These are
  the task manager with its strictly top-down refresh walk, the hierarchical
  store with upsert, batch and paged listing, and the DashScope client.
- `code/hospital_scanner/`. This holds:
  - a second task registry (`tasks.py`);
  - the scanner database with its page clamping and task rows (`db.py`);
  - the scanner LLM client with fence stripping, JSON slicing and field
    validation (`llm_client.py`);
  - the pure pieces of the HTTP service (`main.py`): pagination metadata,
    name validation, the hospital save loops, the "which fields changed"
    diff and the district progress.

Modules, one per source file plus shared helpers:

| module | file | models |
|---|---|---|
| `RefreshTasks` | refresh_tasks.dfy | `tasks.py`: `TaskStatus`, `ProgressTracker`, `TaskManager` and the refresh walk |
| `ScanTasks` | scan_tasks.dfy | `code/hospital_scanner/tasks.py`: the second `TaskManager` |
| `GeoDb` | geo_db.dfy | `db.py`: the hierarchical tables, upsert, CRUD, batches, paging, task rows |
| `ScanDb` | scan_db.dfy | `code/hospital_scanner/db.py`: task rows, location rows, clamped paging |
| `DashScope` | dashscope.dfy | `llm_client.py`: key validation, retry control, response parsing, prompt dispatch |
| `LlmReplies` | llm_replies.dfy | `code/hospital_scanner/llm_client.py`: reply shape, fences, slicing, validation |
| `ScannerApi` | scanner_api.dfy | `code/hospital_scanner/main.py`: pagination metadata, names, save loops, diff, progress |
| `Wrappers`, `Json`, `PyStr`, `PyDict`, `Listing` | wrappers.dfy, json.dfy, pystr.dfy, pydict.dfy, listing.dfy | Option/Result, parsed JSON values, `str.strip`/`find`/`rfind`/slicing, insertion-ordered dicts, `ORDER BY` sorting and `LIMIT` windows |

Several things are modelled by state or by parameters:

- **Objects that the source mutates are classes.** These are
  `RefreshTasks.ProgressTracker`, `RefreshTasks.TaskManager`,
  `ScanTasks.TaskManager`, `GeoDb.Database` and `ScanDb.Database`. Their
  dicts and tables are fields that their methods reassign. Each loop in the
  source is a `while` loop, proved against a specification function.
- **External services are parameters.** This covers:
  - the LLM service and the HTTP server, as functions from attempt number
    to outcome;
  - `json.loads` and `float()`, as partial functions;
  - the clock and generated ids, as plain values.
- **Sleeps are recorded as numbers.**
- **Progress a tracker passes on is recorded.** Each `ProgressTracker`
  keeps the percentages it has handed to its callbacks in a ghost sequence.
  The refresh methods state that sequence against the full report sequence.
- **SQLite tables are sequences of rows in insertion (rowid) order**, with an
  AUTOINCREMENT counter per table. `UNIQUE` and `FOREIGN KEY` constraints
  become explicit error results.

## Model

| member | source | states |
|---|---|---|
| RefreshTasks.ProgressTracker.constructor | tasks.py:40-45 | a new tracker has the given total, zero completed and current steps, an empty step name, no callbacks and nothing reported yet |
| RefreshTasks.ProgressTracker.AddCallback | tasks.py:61-63 | the callback is appended at the end of the list and nothing else changes |
| RefreshTasks.ProgressTracker.GetProgress | tasks.py:65-68 | the reported percentage is the current step as a percentage of the total (at most 100), and the step name is the current one |
| RefreshTasks.ProgressTracker.UpdateProgress | tasks.py:47-59 | records the step and its name, and passes on exactly one percentage, that of the step. The registry afterwards is what every registered callback, called once and in order with the percentage, makes of it. A raising callback is skipped. No task is added or removed |
| RefreshTasks.SingleCallback | tasks.py:53-57 | with the task's own progress updater as the only callback, an update sets exactly that task's progress and step |
| RefreshTasks.PercentBounds | tasks.py:51 | the percentage is at most 100, not negative for a non-negative step, and exactly 100 once the step reaches the total |
| RefreshTasks.PercentOfHundred | tasks.py:51 | with 100 total steps the percentage is the step itself |
| RefreshTasks.TaskManager.constructor | tasks.py:137-151 | the registry starts empty |
| RefreshTasks.TaskManager.CreateRefreshTask | tasks.py:153-181 | the id is "task_" followed by the timestamp. The record is PENDING with progress 0, no step, no start, completion or error, and no data. Every other record is untouched |
| RefreshTasks.TaskManager.StartTask | tasks.py:183-206 | returns true exactly when the id is known and PENDING, and then sets RUNNING and started_at. Otherwise it changes nothing |
| RefreshTasks.TaskManager.UpdateTaskProgress | tasks.py:382-386 | sets progress and step of a known task with no monotonic guard, and has no effect on an unknown id |
| RefreshTasks.TaskManager.CompleteTask | tasks.py:388-399 | on a known id it sets status, completed_at and error, even over a terminal status, and forces progress to 100 only for SUCCEEDED. An unknown id is a no-op |
| RefreshTasks.TaskManager.GetTaskStatus | tasks.py:401-403 | the record exactly when the id is known |
| RefreshTasks.TaskManager.ListTasks | tasks.py:405-410 | newest first by created_at, and a permutation of the records with the requested status (all records without a filter) |
| RefreshTasks.WithStatusMembers | tasks.py:407-409 | the status filter keeps exactly the records with that status |
| RefreshTasks.TaskManager.GetActiveTasks | tasks.py:412-418 | exactly the ids whose status is PENDING or RUNNING |
| RefreshTasks.ActiveKeysMembers | tasks.py:414-417 | the active-id filter keeps exactly the PENDING or RUNNING ids |
| RefreshTasks.TaskManager.CancelTask | tasks.py:420-433 | returns true exactly when the id is known and PENDING or RUNNING. It then sets FAILED, completed_at and the user-cancelled error. Otherwise nothing changes |
| RefreshTasks.TaskManager.CleanupOldTasks | tasks.py:435-448 | deletes exactly the tasks created before now minus the given hours, whatever their status, and returns their number. Newer tasks are unchanged |
| RefreshTasks.TaskManager.CollectOlder | tasks.py:440-442 | the collected ids are distinct and are exactly the tasks created before the cutoff |
| RefreshTasks.OlderKeysMembers | tasks.py:440-442 | the collecting loop's result holds exactly the older ids, each once |
| RefreshTasks.RemovedOlder | tasks.py:444-446 | deleting the collected ids leaves exactly the tasks at or after the cutoff |
| RefreshTasks.TaskManager.SafeCallWithRetry | tasks.py:368-380 | returns the first success. After each failed attempt except the last it waits 2^attempt. When every attempt fails it re-raises the last error, whatever the kind of exception |
| RefreshTasks.Retry | tasks.py:368-380 | there is no attempt exactly when the retry count is 0 |
| RefreshTasks.RetryFirstSuccess | tasks.py:370-373 | when attempt k is the first to succeed, its value is returned |
| RefreshTasks.RetryRaisedMeansAllFailed | tasks.py:374-380 | a raised retry means every attempt failed, and the error raised is the last attempt's |
| RefreshTasks.RetryAllFailed | tasks.py:374-380 | if every attempt fails, the retry raises |
| RefreshTasks.FetchErr | tasks.py:368-380 | a fetch through the retry wrapper fails exactly when all three attempts fail, and carries the last attempt's error |
| RefreshTasks.TaskManager.SaveDistrictData | tasks.py:324-366 | appends the saved district record to the task's data. A missing database module or a raising save is swallowed and appends nothing |
| RefreshTasks.AppendDataNothing | tasks.py:328-330 | appending no records leaves the registry as it was |
| RefreshTasks.AppendDataTwice | tasks.py:352-362 | appending records in two calls equals appending them in one |
| RefreshTasks.TaskManager.ProcessDistrict | tasks.py:310-322 | its failure and the records it appends are those of the district walk: fetch the hospitals with retry, then save |
| RefreshTasks.TaskManager.ProcessCity | tasks.py:295-308 | its failure and records are those of the city walk: fetch the districts, then process each until one fails |
| RefreshTasks.TaskManager.ProcessProvince | tasks.py:278-293 | its failure and records are those of the province walk: fetch the cities, then process each until one fails |
| RefreshTasks.DistrictsWalkStops | tasks.py:307-308 | once a district fails, the remaining districts of the city are not walked |
| RefreshTasks.CitiesWalkStops | tasks.py:292-293 | once a city fails, the remaining cities of the province are not walked |
| RefreshTasks.FullLoopStops | tasks.py:248-252 | once a province fails, the full refresh walks no further province |
| RefreshTasks.DistrictsWalkSaved | tasks.py:307-308 | every record the district loop appends was saved under this province and city, for a district of the list |
| RefreshTasks.CitiesWalkSaved | tasks.py:292-293 | every record the city loop appends was saved under this province, for a city of the list |
| RefreshTasks.ProvinceWalkSaved | tasks.py:278-293 | every record a province walk appends was saved, under that province |
| RefreshTasks.FullLoopSaved | tasks.py:248-252 | every record of the full loop was saved, for one of the provinces already walked |
| RefreshTasks.FullRefreshSaved | tasks.py:230-255 | every record of a full refresh was saved, for a province the service listed |
| RefreshTasks.DistrictsWalkStoreFree | tasks.py:364-366 | save errors are swallowed, so whether a district loop fails does not depend on the database |
| RefreshTasks.CitiesWalkStoreFree | tasks.py:364-366 | whether a city loop fails does not depend on the database |
| RefreshTasks.ProvinceWalkStoreFree | tasks.py:364-366 | whether a province walk fails does not depend on the database |
| RefreshTasks.FullLoopStoreFree | tasks.py:364-366 | the full loop's error, progress and step do not depend on the database |
| RefreshTasks.FullRefreshStoreFree | tasks.py:364-366 | a full refresh's error, progress and step do not depend on the database |
| RefreshTasks.FullLoopFails | tasks.py:225-228 | a fetch failure in any province, after retries, becomes the error of the whole full refresh |
| RefreshTasks.ProvinceProgressBounds | tasks.py:249 | the progress reported for province idx of n lies in 10..89 |
| RefreshTasks.ProvinceProgressMono | tasks.py:249 | the province progress does not decrease along the loop |
| RefreshTasks.FullReports | tasks.py:235-254 | a full refresh over n provinces reports n+2 values: 5, then the progress of each province in order, then 100 |
| RefreshTasks.FullReportsRise | tasks.py:235-254 | the full report sequence, and every prefix of it (what a run that stops early reports), never goes down and stays within 5..100 |
| RefreshTasks.TaskManager.Report | tasks.py:250 | a tracker update whose only callback is the task's progress updater sets exactly that task's progress and step, and passes on exactly that percentage |
| RefreshTasks.TaskManager.ExecuteFullRefresh | tasks.py:230-255 | the task ends with the full walk's progress, step and appended data. The error is the first fetch failure, or "no provinces" when the list is empty. The percentages passed on are a prefix of the full report sequence, all of it on success, and only 5 when the province list is not obtained; they never go down |
| RefreshTasks.TaskManager.RefreshAll | tasks.py:246-254 | the province loop then the final 100 unless a province failed: the task ends as the full loop specifies, and the percentages passed on are a prefix of the per-province progress followed by 100, all of it on success |
| RefreshTasks.TaskManager.RefreshProvinces | tasks.py:246-252 | the province loop leaves the task as the full loop specifies after the last province, and passes on the per-province progress in order, all of it when no province fails |
| RefreshTasks.TaskManager.RefreshProvince | tasks.py:249-252 | one turn of the province loop passes on that province's progress and walks one province, as the full loop specifies |
| RefreshTasks.TaskManager.ExecuteProvinceRefresh | tasks.py:257-276 | a target missing from the province list is an error. Otherwise the task ends with the target's walk. The percentages passed on are a prefix of 5, 10, 100, and all three exactly when the run succeeds |
| RefreshTasks.TaskManager.RefreshTarget | tasks.py:271-276 | reports 10, walks the target province and reports 100 unless the walk failed. The task ends as the target's run specifies, and the percentages passed on are 10, 100 on success and 10 alone otherwise |
| RefreshTasks.TaskManager.ExecuteRefreshTask | tasks.py:208-228 | a known task is completed with the outcome of its full or province run. An unknown type fails it. An unknown id changes nothing |
| RefreshTasks.ExecutedTerminal | tasks.py:208-228 | an executed task is SUCCEEDED or FAILED, never anything else. It has a completion time, and an error exactly when it failed. Progress is 100 on success. Id, creation time and earlier data are kept |
| ScanTasks.ParseStatus | code/hospital_scanner/schemas.py:19-25 | a parsed status prints back as the text it was parsed from |
| ScanTasks.ParseStatusText | code/hospital_scanner/schemas.py:19-25 | every status parses back from its text |
| ScanTasks.TaskManager.constructor | code/hospital_scanner/tasks.py:23-25 | the registry starts empty over the given database |
| ScanTasks.TaskManager.CreateTask | code/hospital_scanner/tasks.py:27-56 | the record is kept in memory as "pending" with no result or error, even when the database insert fails on a duplicate id. The database's location tables and hospital records are untouched |
| ScanTasks.TaskManager.UpdateTaskStatus | code/hospital_scanner/tasks.py:58-89 | on a known id it sets exactly the given status with no transition check and refreshes updated_at. It replaces error_message only with a non-empty message, in memory and on the database row. An id known in memory but not in the database leaves the database's tasks as they were. An unknown id changes nothing and reaches no database. No location table or hospital record changes |
| ScanTasks.TaskManager.SaveTaskResult | code/hospital_scanner/tasks.py:91-108 | a known task gets the result and a new updated_at, in memory and on its database row (a task missing from the database changes no row). When the result carries hospital information it is saved as a hospital_info row when the table takes the INSERT. An unknown id changes nothing. No location table changes |
| ScanTasks.HospitalInfoOf | code/hospital_scanner/tasks.py:102-104 | the hospital information is present exactly when the result holds a non-null hospital_info, and is that value |
| ScanTasks.InfoSaved | code/hospital_scanner/tasks.py:102-104 | one save adds a row exactly when there is hospital information and the table takes the INSERT, under the next id and the task's id |
| ScanTasks.TaskManager.GetTaskResult | code/hospital_scanner/tasks.py:110-131 | memory first, then the database. A result is returned only when it is non-empty and builds a result record |
| ScanTasks.TaskManager.GetTaskStatus | code/hospital_scanner/tasks.py:133-154 | memory first, then the database. A status text outside the enum yields None |
| ScanTasks.TaskManager.ListTasks | code/hospital_scanner/tasks.py:156-168 | returns the database rows and merges them into memory |
| ScanTasks.TaskManager.MergeRows | code/hospital_scanner/tasks.py:163-166 | the merge loop's result is the merge of the rows |
| ScanTasks.Merge | code/hospital_scanner/tasks.py:163-166 | the merged registry is still a well-formed dict |
| ScanTasks.MergeKeeps | code/hospital_scanner/tasks.py:163-166 | existing records are never overwritten. New ids are exactly the rows' non-empty ids, added in order after the existing keys |
| ScanTasks.FromRow | code/hospital_scanner/tasks.py:163-166 | a record built from a row keeps its id, status, creation time and result |
| ScanTasks.TaskManager.DeleteTask | code/hospital_scanner/tasks.py:170-182 | returns true exactly for a known id and removes it. An unknown id leaves the registry unchanged |
| ScanTasks.TaskManager.CleanupCompletedTasks | code/hospital_scanner/tasks.py:184-207 | removes exactly the tasks created before the cutoff whose status is completed or failed, and returns their number |
| ScanTasks.DeleteAll | code/hospital_scanner/tasks.py:201-203 | deleting the listed ids one by one leaves a well-formed dict without exactly those ids, and counts one per id |
| ScanTasks.TaskManager.CollectRemovable | code/hospital_scanner/tasks.py:195-200 | collects each removable id exactly once |
| ScanTasks.RemovableKeysMembers | code/hospital_scanner/tasks.py:195-200 | the collecting loop's result holds exactly the removable ids, each once |
| ScanTasks.RemovedExactly | code/hospital_scanner/tasks.py:202-204 | deleting the collected ids leaves exactly the surviving tasks |
| ScanTasks.SurvivorsKeepUnfinished | code/hospital_scanner/tasks.py:195-200 | a pending, running or cancelled task is never removed |
| ScanTasks.TaskManager.GetStatistics | code/hospital_scanner/tasks.py:209-241 | total is the registry size. Each counter counts the tasks with exactly that status, and their sum is at most the total. At most 10 recent tasks, newest first |
| ScanTasks.CountsBounded | code/hospital_scanner/tasks.py:220-230 | the four status counters add up to at most the number of tasks |
| ScanTasks.RecentSorted | code/hospital_scanner/tasks.py:233-237 | the recent window is ordered newest first |
| ScanDb.Database.constructor | code/hospital_scanner/db.py:30-189 | all tables start empty, and hospital_info has the columns the constructor's CREATE TABLE gives it |
| ScanDb.Database.CreateTask | code/hospital_scanner/db.py:191-209 | returns true and inserts the row with the given status exactly when the id is new. A duplicate id returns false and changes nothing |
| ScanDb.Database.UpdateTaskStatus | code/hospital_scanner/db.py:211-236 | returns false for an unknown id. Otherwise it sets status and updated_at, and replaces error_message only with a non-empty message |
| ScanDb.WithStatus | code/hospital_scanner/db.py:218-232 | the updated row differs from the old one only in status, updated_at and, for a non-empty message, error_message |
| ScanDb.Database.SaveTaskResult | code/hospital_scanner/db.py:238-259 | stores the result on a known row and returns true. An UPDATE of an unknown id changes nothing and still returns true |
| ScanDb.Database.GetTask | code/hospital_scanner/db.py:261-278 | the row exactly when the id is known |
| ScanDb.Database.GetTaskResult | code/hospital_scanner/db.py:280-290 | returns what SaveTaskResult stored, and None for a missing task or a task with no result |
| ScanDb.Database.ListTasks | code/hospital_scanner/db.py:292-311 | newest first, each a stored row. The count is the limit, or every task when the limit is negative or not binding, in which case every task is returned. A task left out is no newer than any returned |
| ScanDb.TaskWindow | code/hospital_scanner/db.py:292-311 | the newest-first window over the task table: its count, its order, that every row is stored, that nothing is left out without a binding limit, and that what is left out is no newer |
| ScanDb.NewestWindowRest | code/hospital_scanner/db.py:298-305 | a newest-first window of a list has the limited count, is the whole list without a binding limit, and leaves out only rows no newer than those it keeps |
| ScanDb.Database.SaveHospitalInfo | code/hospital_scanner/db.py:313-344 | returns true exactly when the table has every column the INSERT names, and then appends the record under the next id. Otherwise it returns false and changes nothing. Tasks and location tables are untouched |
| ScanDb.SyncSchemaRejectsInfo | code/hospital_scanner/db.py:50-66 | as written, the hospital_info table the constructor creates lacks the level column the INSERT names, so the INSERT never fits |
| ScanDb.InitSchemaTakesInfo | code/hospital_scanner/db.py:95-110 | the hospital_info table init_db declares has every column the INSERT names |
| ScanDb.NewestWindow | code/hospital_scanner/db.py:292-311 | the newest-first window is ordered and holds only stored rows |
| ScanDb.Database.CreateProvince | code/hospital_scanner/db.py:347-366 | returns 0 and changes nothing on a duplicate name or code. Otherwise it appends a row with the next id, above every existing id |
| ScanDb.Database.CreateCity | code/hospital_scanner/db.py:410-429 | returns 0 on a duplicate code. Otherwise it appends a row with the next id |
| ScanDb.Database.CreateDistrict | code/hospital_scanner/db.py:490-509 | returns 0 on a duplicate code. Otherwise it appends a row with the next id |
| ScanDb.Database.CreateHospital | code/hospital_scanner/db.py:570-599 | always appends a row with the next id, with missing lists stored as empty lists |
| ScanDb.PlanBounds | code/hospital_scanner/db.py:372-392 | page is at least 1 and size is in 1..1000 (a size already in range is kept). total_pages is 1 for no rows, otherwise the ceiling. The page is at most total_pages, and the offset is at least 0 and, when there are rows, below the total |
| ScanDb.Database.PageOf | code/hospital_scanner/db.py:372-392 | the clamping steps compute the paging plan, with the same bounds |
| ScanDb.PageItemsFacts | code/hospital_scanner/db.py:392-398 | a page holds at most page_size rows, in name order, all from the table, and is non-empty when the table is |
| ScanDb.Database.GetProvinces | code/hospital_scanner/db.py:368-407 | the clamped page of provinces in name order, with the table size as total |
| ScanDb.Database.GetCities | code/hospital_scanner/db.py:431-488 | the clamped page of the cities of the given province (all cities for none or 0), in name order, with the filtered count as total |
| ScanDb.Database.GetDistricts | code/hospital_scanner/db.py:511-568 | the clamped page of the districts of the given city, in name order |
| ScanDb.Database.GetHospitals | code/hospital_scanner/db.py:601-657 | the clamped page of the hospitals of the given district, in name order |
| ScanDb.CitiesOf | code/hospital_scanner/db.py:445-462 | exactly the cities of the given province, or all of them when no id (or 0) is given |
| ScanDb.DistrictsOf | code/hospital_scanner/db.py:525-542 | exactly the districts of the given city, or all of them |
| ScanDb.HospitalsOf | code/hospital_scanner/db.py:615-632 | exactly the hospitals of the given district, or all of them |
| Listing.SortByNameSorted | code/hospital_scanner/db.py:395 | the name-ordered listing is sorted by name |
| GeoDb.FirstWhere | db.py:442-452 | the index of the first matching row, or none exactly when no row matches |
| GeoDb.Where | db.py:263-304 | exactly the matching rows |
| GeoDb.KeyId | db.py:70 | an id is found exactly when a row has that parent and name |
| GeoDb.KeyIdAt | db.py:70 | in a well-formed table, looking up a row's own key finds that row |
| GeoDb.ProvincesSwap | db.py:67-86 | a new province table keeps the schema's invariants when it is well formed, all at the top level, and still holds every city's province |
| GeoDb.CitiesSwap | db.py:77-99 | a new city table keeps the invariants when it is well formed, its provinces exist and it still holds every district's city |
| GeoDb.DistrictsSwap | db.py:90-112 | a new district table keeps the invariants when it is well formed, its cities exist and it still holds every hospital's district |
| GeoDb.HospitalsSwap | db.py:103-113 | a new hospital table keeps the invariants when it is well formed and its districts exist |
| GeoDb.UpsertOk | db.py:131-154 | an upsert keeps the table well formed, adds at most one row, and keeps every existing id and parent |
| GeoDb.UpsertFinds | db.py:137-148 | after an upsert, the key maps to the returned id |
| GeoDb.UpsertId | db.py:137-148 | an existing key returns its id and adds no row. A new key gets a fresh AUTOINCREMENT id |
| GeoDb.UpsertTwice | db.py:137-148 | upserting the same key twice returns the same id and adds nothing the second time |
| GeoDb.UpsertCoalesces | db.py:141 | on conflict each optional attribute keeps its stored value when the new one is None, and takes the new one otherwise |
| GeoDb.Database.UpsertProvince | db.py:131-154 | the province table after the call is the upsert of the key, and the id is the upsert's id |
| GeoDb.Database.UpsertCity | db.py:156-180 | fails exactly for a new key under a missing province. Otherwise it upserts under the (province, name) key |
| GeoDb.Database.UpsertDistrict | db.py:182-206 | fails exactly for a new key under a missing city. Otherwise it upserts under the (city, name) key |
| GeoDb.Database.UpsertHospital | db.py:208-234 | fails exactly for a new key under a missing district. Otherwise it upserts, coalescing website and confidence |
| GeoDb.Insert | db.py:427-435 | fails exactly when the key exists. Otherwise it appends a row with the next id |
| GeoDb.Database.CreateProvince | db.py:427-435 | fails exactly on a duplicate name. Otherwise it appends a row with the next id |
| GeoDb.Database.CreateCity | db.py:478-486 | fails exactly on a duplicate (province, name) or a missing province. Otherwise it appends a row |
| GeoDb.Database.CreateDistrict | db.py:529-537 | fails exactly on a duplicate (city, name) or a missing city. Otherwise it appends a row |
| GeoDb.Database.CreateHospital | db.py:580-588 | fails exactly on a duplicate (district, name) or a missing district. Otherwise it appends a row |
| GeoDb.Database.GetProvince | db.py:437-452 | looks up by id, else by name, else by code: the result is the first row the first given selector matches. None when no selector is given or nothing matches |
| GeoDb.Database.GetCity | db.py:488-503 | looks up by id, else by (province, name), else by code: the result is the first row the first given selector matches. None when no selector is given |
| GeoDb.Database.GetDistrict | db.py:539-554 | looks up by id, else by (city, name), else by code: the result is the first row the first given selector matches. None when no selector is given |
| GeoDb.Database.GetHospital | db.py:590-603 | looks up by id, else by (district, name): the result is the first row the first given selector matches. None when neither is given |
| GeoDb.ChildSelect | db.py:488-503 | the selector precedence shared by city and district lookups: the result is the fetch by id, else by (parent, name), else by code |
| GeoDb.Fetch | db.py:442-452 | the first matching row, or none exactly when no row matches |
| GeoDb.Patched | db.py:454-468 | an update never changes a row's id or parent |
| GeoDb.UpdateOk | db.py:454-468 | an update keeps the table well formed with the same ids and parents. It reports a change exactly when fields are given and the id exists, and with no fields it changes nothing |
| GeoDb.Database.UpdateProvince | db.py:454-468 | true exactly when fields are given, allowed for the level, and the id exists. The table is the update's result |
| GeoDb.Database.UpdateCity | db.py:505-519 | true exactly when fields are given, allowed, and the id exists |
| GeoDb.Database.UpdateDistrict | db.py:556-570 | true exactly when fields are given, allowed, and the id exists |
| GeoDb.Database.UpdateHospital | db.py:605-619 | true exactly when fields are given, allowed, and the id exists |
| GeoDb.RemoveAt | db.py:470-475 | removing one row keeps the others in order |
| GeoDb.RemoveAtOk | db.py:470-475 | a removal keeps the table well formed, removes exactly that id and keeps the others |
| GeoDb.DeleteOk | db.py:470-475 | a successful delete reports whether the id existed and removes it. Children still find their parent |
| GeoDb.Database.DeleteProvince | db.py:470-475 | the table is the delete's result; a province that still has cities is a foreign-key error |
| GeoDb.Database.DeleteCity | db.py:521-527 | the table is the delete's result; a city that still has districts is an error |
| GeoDb.Database.DeleteDistrict | db.py:572-578 | the table is the delete's result; a district that still has hospitals is an error |
| GeoDb.Database.DeleteHospital | db.py:621-627 | reports whether the id existed, and afterwards no row has it |
| GeoDb.BatchStepOk | db.py:960-975 | one batch step keeps the batch invariant: every returned id is the id of its item's key after the call |
| GeoDb.BatchOk | db.py:954-1056 | after a batch, the i-th returned id is the id of the i-th item's key: fresh for a first occurrence, the existing id for a repeat |
| GeoDb.BatchFailure | db.py:954-1056 | a batch raises only KeyError, when some item lacks the name key (or, below provinces, the parent key), or IntegrityError, only for cities, districts or hospitals and only when some item names a missing parent |
| GeoDb.BatchRaisesAt | db.py:964-1038 | an item without a subscripted key makes the whole batch raise |
| GeoDb.RunBatch | db.py:954-975 | the batch loop computes the batch |
| GeoDb.BatchStopsAtError | db.py:954-1056 | after an error no further item is inserted |
| GeoDb.BatchGrows | db.py:954-1056 | a committed batch leaves the table well formed, keeps its old rows as a prefix, and puts each new row under an existing parent (parent 0 for provinces) |
| GeoDb.ProvinceBatchRaises | db.py:954-975 | a province batch raises exactly when some item has no name key, and then with KeyError; it has no parent to miss |
| GeoDb.Database.BatchCreateProvinces | db.py:954-975 | ids and table are the batch's, or the batch's error with the table unchanged (rollback) |
| GeoDb.Database.BatchCreateCities | db.py:977-1000 | ids and table are the batch's, or an error with the table unchanged |
| GeoDb.Database.BatchCreateDistricts | db.py:1002-1025 | ids and table are the batch's, or an error with the table unchanged |
| GeoDb.Database.BatchCreateHospitals | db.py:1027-1056 | ids and table are the batch's, or an error with the table unchanged |
| GeoDb.PagedOrder | db.py:245-261 | a page holds at most page_size rows, in name order, all from the table |
| GeoDb.PagedStart | db.py:245-261 | the page starts at row (page-1)*page_size of the name order |
| GeoDb.PagedCount | db.py:245-261 | total is the row count, and total_pages is the ceiling of total/page_size (0 for no rows) |
| GeoDb.PagedNegativeSize | db.py:245-261 | a negative page_size is an unlimited SQLite LIMIT and returns every row |
| GeoDb.PagedMembers | db.py:245-261 | every paged row comes from the table |
| GeoDb.NoPage | db.py:269-279 | an unknown parent gives an empty page with total 0 and total_pages 0 |
| GeoDb.Database.GetAllProvinces | db.py:236-261 | a page_size of 0 is the division-by-zero error. Otherwise the total is the table size, and the page is Paged over the provinces (see PagedOrder, PagedStart, PagedCount) |
| GeoDb.Database.GetCitiesByProvince | db.py:263-304 | a province not found by name or code gives the empty page. Otherwise it pages the cities of the first match |
| GeoDb.Database.GetDistrictsByCity | db.py:306-347 | a city not found gives the empty page. Otherwise it pages its districts |
| GeoDb.Database.GetHospitalsByDistrict | db.py:349-390 | a district not found gives the empty page. Otherwise it pages its hospitals |
| GeoDb.Database.GetChildrenById | db.py:672-758 | a page_size of 0 is an error. Otherwise the page is Paged over the rows of that level under the given parent, so every row returned has that parent |
| GeoDb.Database.CreateTask | db.py:629-637 | fails exactly on a duplicate id. Otherwise it stores the row |
| GeoDb.Database.GetTask | db.py:639-645 | the row exactly when the id is known |
| GeoDb.PatchedTask | db.py:647-661 | an update never changes a task's id |
| GeoDb.Database.UpdateTask | db.py:647-661 | true exactly when fields are given and the id exists, and then the row is patched. Otherwise nothing changes |
| GeoDb.Database.DeleteTask | db.py:663-670 | true exactly when the id existed, and the row is gone |
| DashScope.NewClient | llm_client.py:39-41 | raises exactly when neither the argument nor the environment gives a non-empty key. The argument wins over the environment |
| DashScope.Delay | llm_client.py:53 | the wait after a network error on attempt k is 1 s for k = 0 and 2 s after that |
| DashScope.MakeRequestWithRetry | llm_client.py:74-136 | the loop's result, request count and waits are those of the retry specification |
| DashScope.AttemptsSent | llm_client.py:93 | the loop makes at most max_retries + 1 requests, and at least one |
| DashScope.RequestSent | llm_client.py:93 | with max_retries at least 0, between 1 and max_retries + 1 requests. A negative value makes none |
| DashScope.FirstSuccess | llm_client.py:108-112 | the first 200 response is returned at once, after exactly that many requests |
| DashScope.ClientErrorStops | llm_client.py:118-119 | a 4xx response raises on that attempt, and no further request is made |
| DashScope.AllAttemptsFail | llm_client.py:135-136 | when every attempt fails, the last recorded error is raised after max_retries + 1 requests |
| DashScope.RequestSleeps | llm_client.py:123-132 | the waits are exactly the delays after network errors that are not on the final attempt |
| DashScope.NoNetworkNoDelays | llm_client.py:113-121 | attempts that get a response never wait |
| DashScope.StatusErrorsNoWait | llm_client.py:113-121 | a run of 5xx responses retries with no wait at all |
| DashScope.Field | llm_client.py:151-152 | a present key gives its value, and a missing one the given error |
| DashScope.Decode | llm_client.py:158-170 | JSON text is parsed. Otherwise the first-'{'-to-last-'}' slice is parsed, but only when both braces are present. Otherwise the error stands |
| DashScope.BracedAround | llm_client.py:160-166 | the slice of text around one braced body is exactly that body with its braces |
| DashScope.ItemsOf | llm_client.py:151-178 | raises when output.text is missing. Returned items are the 'items' list of the decoded text |
| DashScope.Named | llm_client.py:181-219 | keeps exactly the dict items that have a 'name': every kept item has one and every item that has one is kept, in input order (see NamedConcat) |
| DashScope.ValidatedPlaces | llm_client.py:181-211 | province, city and district items become {name, code}, one per named item, in order |
| DashScope.ValidatedClinics | llm_client.py:212-217 | hospital items become {name, website defaulting to '', confidence}. The parse fails exactly when some confidence is not a number |
| DashScope.ValidatedOther | llm_client.py:181-219 | any other level keeps no item |
| DashScope.ParseResponse | llm_client.py:138-226 | the result is the validated items of the decoded response, or the first error |
| DashScope.ParsedAtMostItems | llm_client.py:181-219 | never more items out than in |
| DashScope.BuildPrompt | llm_client.py:228-277 | raises exactly for a level other than province, city, district or hospital. City, district and hospital prompts embed the input name |
| LlmReplies.NewClient | code/hospital_scanner/llm_client.py:21-32 | raises exactly when the environment holds no non-empty key |
| LlmReplies.MakeRequest | code/hospital_scanner/llm_client.py:34-168 | only a 200 response with a body gives a result, and it is the reply text. A non-200 status is an error (401, 429 and 500 named). A transport failure is an error |
| LlmReplies.ReplyText | code/hospital_scanner/llm_client.py:110-155 | a reply is a string, list or dict |
| LlmReplies.OutputChoicesFirst | code/hospital_scanner/llm_client.py:110-121 | output.choices[0].message.content comes first |
| LlmReplies.OutputTextNext | code/hospital_scanner/llm_client.py:125-132 | without output.choices, output.text is taken |
| LlmReplies.RootChoicesLast | code/hospital_scanner/llm_client.py:134-143 | without output, choices[0].message.content is taken |
| LlmReplies.NeitherShape | code/hospital_scanner/llm_client.py:147-155 | with neither shape the reply is an error |
| LlmReplies.StripFences | code/hospital_scanner/llm_client.py:233-241 | the step-by-step cleanup yields the specified cleaned text |
| LlmReplies.UnfencedTrimmed | code/hospital_scanner/llm_client.py:233-241 | the cleaned text is trimmed |
| LlmReplies.UnfencedPlain | code/hospital_scanner/llm_client.py:233-241 | text with no fences is only trimmed |
| LlmReplies.UnfencedFenced | code/hospital_scanner/llm_client.py:233-241 | a "```json … ```" fenced body comes back trimmed and without its fences |
| LlmReplies.Candidate | code/hospital_scanner/llm_client.py:243-250 | as written: the "no JSON" error fires exactly when the opening delimiter is missing |
| LlmReplies.CandidateMissingClose | code/hospital_scanner/llm_client.py:244-248 | as written, a missing closing delimiter gives an empty slice, not the error |
| LlmReplies.CandidateChecked | code/hospital_scanner/llm_client.py:243-250 | the error fires exactly when either delimiter is missing or they are out of order. A candidate starts with the opening and ends with the closing delimiter |
| LlmReplies.CandidateAgrees | code/hospital_scanner/llm_client.py:243-250 | wherever the checked slice succeeds, it agrees with the code as written |
| LlmReplies.CandidateAround | code/hospital_scanner/llm_client.py:243-250 | the candidate of text around one delimited body is exactly that body with its delimiters |
| LlmReplies.Cleaned | code/hospital_scanner/llm_client.py:222-241 | an empty or non-string reply is an error. Otherwise the reply is the cleaned text |
| LlmReplies.Decoded | code/hospital_scanner/llm_client.py:243-257 | a decoded value is the parse of the delimited candidate of the cleaned reply |
| LlmReplies.DecodedAsWritten | code/hospital_scanner/llm_client.py:243-257 | as written: a decoded value is the parse of the code's candidate of the cleaned reply |
| LlmReplies.DecodedSameOutcome | code/hospital_scanner/llm_client.py:243-257 | since an empty string is not JSON, the code's guard and the checked slice accept the same replies and decode them to the same value; only the error tag differs |
| LlmReplies.MissingFields | code/hospital_scanner/llm_client.py:263-273 | the loop's list is the missing-field list |
| LlmReplies.MissingIff | code/hospital_scanner/llm_client.py:263-273 | nothing is missing exactly when every required field is present and filled. Each entry names a required field, marked absent exactly when the key is missing |
| LlmReplies.FirstBad | code/hospital_scanner/llm_client.py:458-471 | the index of the first invalid entry, or none exactly when all are valid |
| LlmReplies.AnalysisAccepted | code/hospital_scanner/llm_client.py:260-277 | accepted exactly when the result is a dict whose hospital_name, level and departments are present and non-empty, and departments is a list |
| LlmReplies.CitiesAccepted | code/hospital_scanner/llm_client.py:452-471 | accepted exactly when cities, count and province are present and not None, and cities is a list of strings |
| LlmReplies.DistrictsAccepted | code/hospital_scanner/llm_client.py:582-606 | accepted exactly when items, count and city are present and not None, and every item is a dict with a non-empty name |
| LlmReplies.HospitalsAccepted | code/hospital_scanner/llm_client.py:719-727 | accepted exactly when the result is a list of dicts with non-empty names. A rejection names the first bad index |
| LlmReplies.ShortNameNoRequest | code/hospital_scanner/llm_client.py:176-177 | a name shorter than 2 characters after trimming is rejected whatever the server would answer. The same holds at 374-375, 503-504 and 638-639 |
| LlmReplies.HospitalsOfOk | code/hospital_scanner/llm_client.py:633-752 | an accepted hospital list came from a valid name and a 200 response, and holds only named dicts |
| ScannerApi.CleanName | code/hospital_scanner/main.py:407-411 | an empty or whitespace-only name is rejected with 400. An accepted name is trimmed and non-empty |
| ScannerApi.CleanNameIdempotent | code/hospital_scanner/main.py:491-495 | cleaning an accepted name again changes nothing |
| ScannerApi.Pages | code/hospital_scanner/main.py:711 | the page count is 1 when page_size ≤ 0. Otherwise it is the ceiling of total/page_size, which is 0 exactly for no rows |
| ScannerApi.Respond | code/hospital_scanner/main.py:711-720 | as written: the response echoes the requested page and size. has_prev holds exactly when page > 1, and has_next exactly when page < pages |
| ScannerApi.RespondHasNext | code/hospital_scanner/main.py:719-720 | as written, for any requested page and a positive page size, has_next holds exactly when page·page_size < total. With no pages, only a negative page claims a next one |
| ScannerApi.OversizedPageHidesRows | code/hospital_scanner/main.py:709-720 | as written, 1500 rows asked for with page_size 5000 come back as 1000 rows, one page and no next page |
| ScannerApi.ZeroPageClaimsNext | code/hospital_scanner/main.py:709-720 | as written, five rows asked for with page 0 and page_size 20 all come back, one page, yet has_next is true |
| ScannerApi.RespondClamped | code/hospital_scanner/main.py:711-720 | corrected: page, size and pages are those the database used |
| ScannerApi.ClampedHasNext | code/hospital_scanner/main.py:719-720 | corrected: has_next holds exactly when rows remain after the returned page |
| ScannerApi.NoMatch | code/hospital_scanner/main.py:747-755 | an unknown province gives an empty page with total 0, pages 0 and neither next nor prev |
| ScannerApi.ListProvinces | code/hospital_scanner/main.py:704-725 | the clamped page of provinces, with the metadata as written: requested page and size echoed, pages and has_next from them |
| ScannerApi.ListCities | code/hospital_scanner/main.py:727-775 | a name lookup is made only when a name and no province id are given. A failed lookup gives the empty page. Otherwise it pages the cities of the resolved id, with the metadata as written |
| ScannerApi.ListDistricts | code/hospital_scanner/main.py:777-807 | a failed city lookup keeps the given id. Otherwise it pages the districts of the resolved id, with the metadata as written |
| ScannerApi.ListHospitals | code/hospital_scanner/main.py:809-839 | a failed district lookup keeps the given id. Otherwise it pages the hospitals of the resolved id, with the metadata as written |
| ScannerApi.DistrictProgress | code/hospital_scanner/main.py:2008-2010 | the per-district progress is at most 100, and 100 at the last district |
| ScannerApi.ProgressMonotone | code/hospital_scanner/main.py:2008-2010 | the per-district progress does not decrease along the loop |
| ScannerApi.Incoming | code/hospital_scanner/main.py:2056-2064 | the incoming record has exactly the eight columns, each the item's value or its default |
| ScannerApi.Updates | code/hospital_scanner/main.py:2075-2108 | the update set holds exactly the columns whose incoming value is non-empty and differs from the stored one, with the incoming value |
| ScannerApi.Diff | code/hospital_scanner/main.py:2075-2115 | the field-by-field loop builds the update set, and an update is needed exactly when it is non-empty |
| ScannerApi.DiffEmptyIff | code/hospital_scanner/main.py:2110-2115 | no update is issued exactly when no column changed |
| ScannerApi.DiffSettles | code/hospital_scanner/main.py:2110-2111 | after applying the update, a second diff of the same item finds nothing to change |
| ScannerApi.Creations | code/hospital_scanner/main.py:1802 | saved_count counts the creations among the writes: at most the number of writes, and 0 exactly when no write creates a hospital. The same counter is at 2131 |
| ScannerApi.Decide | code/hospital_scanner/main.py:2056-2132 | one turn of the loop decides to leave the loop, skip the item or write, as the step function says, with the diff computed field by field |
| ScannerApi.SaveHospitals | code/hospital_scanner/main.py:1750-1807 | the save loop's result is the specified one, including the writes committed before an item made the loop raise. saved counts the creations, and saved + updated is the number of writes. The same holds for the city-wide loop at 2053-2136 |
| ScannerApi.SavingStaysFailed | code/hospital_scanner/main.py:1805-1807 | once an item has made the loop raise, the rest of the list changes nothing |
| ScannerApi.StepFacts | code/hospital_scanner/main.py:1765-1807 | only an item that is not a dict makes the loop raise. A write uses the item's trimmed, non-empty name. When creations go through, a usable name that is not written is already stored. As written, every write is an update of a stored name |
| ScannerApi.NextFails | code/hospital_scanner/main.py:1805-1807 | one turn makes the loop raise exactly for an item that is not a dict, and once raised it stays so |
| ScannerApi.NextStores | code/hospital_scanner/main.py:1769-1803 | one turn never drops a stored hospital. When creations go through and the loop has not raised, it stores the item's name when that is usable |
| ScannerApi.NextWrites | code/hospital_scanner/main.py:2066-2132 | one turn adds at most one write, and a good one |
| ScannerApi.SavingFailsIff | code/hospital_scanner/main.py:1750-1807 | the loop raises exactly when some item is not a dict |
| ScannerApi.SavingWrites | code/hospital_scanner/main.py:2066-2068 | at most one write per item, whether or not the loop raised. Every write is under a trimmed non-empty name, so blank names are never created or updated. A city-wide update is never empty |
| ScannerApi.SavingStores | code/hospital_scanner/main.py:1750-1807 | corrected: no stored hospital is lost and, when creations go through and no item made the loop raise, every item with a usable name ends up stored |
| ScannerApi.NextKeepsNames | code/hospital_scanner/main.py:1790-1807 | as written, one turn adds no name to the store and no creation to the count |
| ScannerApi.SavingAsWritten | code/hospital_scanner/main.py:1790-1807 | as written, the loop stores no name the store lacked, and saved_count stays 0. The same holds at 2119-2136 |
| ScannerApi.NewHospitalLost | code/hospital_scanner/main.py:1790-1807 | as written, one new hospital `{"name": "A"}` is not stored and not counted. With creations going through, it is stored and counted once |
| ScannerApi.SaveDistricts | code/hospital_scanner/main.py:1582-1611 | the district save loop's result is the specified one |
| ScannerApi.DistrictsStayFailed | code/hospital_scanner/main.py:1607-1610 | once the error handler itself raises, the loop has failed for good |
| ScannerApi.SaveableCount | code/hospital_scanner/main.py:1586-1588 | the number of usable names is at most the number of items |
| ScannerApi.DistrictsCounted | code/hospital_scanner/main.py:1583-1600 | the saved count is the number of items with a usable name. Created districts are new, distinct and non-empty, and the known set grows by exactly them |

## Left out

- **HTTP layer.** FastAPI routes, background tasks, middleware, logging and
  response models are left out. So is the wording of prompts, log lines and
  error messages. Errors are datatype tags.
- **Network.** The network calls in both LLM clients are left out. A
  response is an input: a status and a parsed body, or a network failure.
  The request-format switch keyed on "dashscope" in the base URL of
  `code/hospital_scanner/llm_client.py` is left out.
- **SQL.** Connection handling, DDL and SQL text are left out. JSON
  serialisation through the database is taken as identity. `json.loads` is
  an abstract partial function, and a non-JSON 200 body in `llm_client.py`
  is not modelled.
- **Concurrency.** `asyncio.create_task`, the semaphore held at three levels
  of the walk and the registry lock of `code/hospital_scanner/tasks.py` are
  left out. Everything runs sequentially. `StartTask` only changes state,
  and the executor is the separate method `ExecuteRefreshTask`.
- **Sleeps.** They are recorded as delay values and never waited on.
- **Clock and identifiers.** Timestamps and generated ids are parameters.
  The timestamp-based task id can collide, so no uniqueness is claimed.
- **Missing database functions.** `code/hospital_scanner/main.py` calls
  `get_province_by_name`, `get_city_by_name`, `get_district_by_name`,
  `get_hospital_by_name_and_district` and `update_hospital`.
  `code/hospital_scanner/db.py` does not define them. The listing methods
  take the name lookup as a function parameter. The save loops take the
  stored districts and hospitals as a set and a map keyed by name. As
  written, the missing lookup makes every hospital with a usable name raise
  AttributeError inside the guarded block, so the item is skipped. The model
  uses the lookup as if it existed.
- **Missing imports.** `code/hospital_scanner/main.py:24` imports
  `clear_all_data` and `clear_all_tasks` from `db`, which defines only
  `Database`, `get_db` and `init_db`. `code/hospital_scanner/main.py:55`
  imports `execute_province_cities_districts_refresh_task` and
  `execute_all_provinces_cascade_refresh` from `tasks`, which no file
  defines. As written the module does not load. The ScannerApi members model
  the function bodies as if it did.
- **City-wide district failures.** In `execute_city_hospitals_refresh`, an
  item that makes a district's save loop raise is caught at
  `code/hospital_scanner/main.py:2149`. The district is counted as failed
  and the loop goes on to the next district. The model stops at the save
  loop's `raised` flag. The district counters and the task status are not
  modelled.
- **Broken paths in `code/hospital_scanner/main.py`.** The following are not
  modelled:
  - the task endpoints at 654-668, which call methods that do not exist;
  - the `create_task` call with unknown keywords at 1923;
  - the district-loop counters of the city-wide refresh, which reach
    `asyncio` at 2147 without a module-level import.
- **Surrounding steps of the refresh endpoints.** In
  `execute_district_refresh_task`, `execute_hospital_refresh_for_district`
  and `execute_city_hospitals_refresh`, only the save loops, the diff and
  the progress formula are modelled. The LLM calls and task-status updates
  around them are not.
- **Floating point.** LLM confidence values are kept opaque and converted
  by a parameter standing for `float()`.
- RefreshTasks.ProgressTracker.UpdateProgress: the percentage uses exact
  integer division. Python computes `int(step / total * 100)` in floating
  point, which can come out one lower (29 of 100 gives 28).
- RefreshTasks.ProvinceProgressBounds: `10 + int(idx / n * 80)` is modelled
  with exact integer division, so float rounding below the exact value is
  not captured.
- GeoDb.UpsertId: the model draws AUTOINCREMENT ids without gaps. A new
  key gets the counter plus one, and a conflict leaves the counter alone.
  SQLite promises only an id larger than every id used before, and may skip
  ids after an insert that hit a conflict. Of the stated ids, only that a new
  id is fresh is the source's promise.
- GeoDb.UpsertTwice: the unchanged counter after the second upsert belongs
  to the gapless model of AUTOINCREMENT, not to SQLite.
- GeoDb.BatchOk: fresh ids in a batch are consecutive in the model. With
  `INSERT OR IGNORE`, SQLite may leave gaps after an ignored row.
- ScannerApi.Updates: values are compared structurally. Python's
  cross-type equality (`1 == 1.0 == True`) is not modelled.
- ScanTasks.TaskManager.GetTaskResult: building the pydantic result record
  is a predicate parameter. Its field rules are not modelled.

## Findings

| source | as written | input that shows it | evidently intended | confidence | as-written member | corrected member |
|---|---|---|---|---|---|---|
| code/hospital_scanner/llm_client.py:244-248 | the "no JSON found" guard tests `json_end == -1`, but `rfind(...) + 1` is never -1, so only a missing opening delimiter is caught | the reply `{"a": 1` has no closing brace and yields the empty slice `""` instead of the guard's error | report "no JSON found" when either delimiter is missing (or they are out of order) | not executed | LlmReplies.CandidateMissingClose | LlmReplies.CandidateChecked |
| code/hospital_scanner/main.py:711-720 | pages, has_next and the echoed page_size use the requested page_size, while `get_provinces` clamps it to 1000 (the same at 761-770, 793-802 and 825-834) | 1500 provinces with page=1 and page_size=5000 return 1000 rows with pages 1 and has_next false, so rows 1001-1500 are never announced | metadata from the page and page size the database used | not executed | ScannerApi.OversizedPageHidesRows | ScannerApi.ClampedHasNext |
| code/hospital_scanner/main.py:719-720 | the page is echoed and compared with `pages` as requested, while `get_provinces` serves page 1 for any page below 1 (the same at 770, 802 and 834) | 5 provinces with page=0 and page_size=20 return all 5 rows with pages 1 and has_next true | metadata from the page the database served, so no next page is claimed when no rows remain | not executed | ScannerApi.ZeroPageClaimsNext | ScannerApi.ClampedHasNext |
| code/hospital_scanner/db.py:53-66 | the constructor creates `hospital_info` with `hospital_level`, `website`, `departments_info` and `staff_structure`, and `init_db` at 95-110 re-declares it with `level`, `departments`, `staff_count` and `specializations` under `CREATE TABLE IF NOT EXISTS`, which is then a no-op | any `save_hospital_info` on a fresh database: the INSERT at 320-324 names `level`, which the table lacks, so it fails with "no such column" and returns False | one schema, the one the INSERT and `init_db` were written for | not executed | ScanDb.SyncSchemaRejectsInfo | ScanDb.InitSchemaTakesInfo |
| code/hospital_scanner/main.py:1790-1801 | both save loops call `create_hospital` with a `website` keyword (also at 2119-2130), which `create_hospital` at db.py:569-572 does not take. The call raises TypeError, the handler at 1805 (and 2134) skips the item, and `saved_count += 1` is never reached | a district list holding one new hospital `{"name": "A"}`: it is not stored, and the loop reports 0 new hospitals | the new hospital is created and counted | not executed | ScannerApi.SavingAsWritten | ScannerApi.SavingStores |
