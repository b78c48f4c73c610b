/**
 * The hierarchy-refresh task manager: an in-memory registry of refresh tasks,
 * their lifecycle (pending, running, succeeded, failed), the progress tracker
 * that reports percentages to registered callbacks, the retry wrapper around
 * every call to the LLM service, and the strictly top-down walk
 * province -> city -> district -> hospitals that records what it saved.
 *
 * The LLM service is a parameter: a function from a request and the attempt
 * number to either a list of names or the message of the exception it raised.
 * The database save is a parameter too: whether the database module is loaded
 * and which district saves raise. Clock readings are integer microseconds.
 */
module RefreshTasks {
  import opened Wrappers
  import PyDict
  import Listing

  datatype TaskStatus = Pending | Running | Succeeded | Failed

  predicate IsActive(s: TaskStatus) { s == Pending || s == Running }

  /** What the LLM service is asked for. */
  datatype Request = Provinces | Cities(province: string) | Districts(city: string) | Hospitals(district: string)

  /** The service's answer to attempt `k` of a request. */
  type Service = (Request, nat) -> Result<seq<string>, string>

  /** Whether the database module is loaded, and which district saves raise. */
  datatype Store = Store(available: bool, raises: (string, string, string) -> bool)

  /** The exceptions that end a task; their wording is not modelled. */
  datatype TaskError =
    | ServiceError(message: string)
    | NoProvinces
    | UnknownProvince(target: Option<string>)
    | UnknownTaskType(kind: string)
    | UserCancelled

  /** The step names the progress tracker reports; their wording is not modelled. */
  datatype Step =
    | NoStep
    | FetchingProvinces
    | VerifyingProvince(target: Option<string>)
    | ProcessingProvince(name: string)
    | FullRefreshDone
    | ProvinceRefreshDone(name: string)

  /** One entry of `result["data"]`: a saved district and its hospitals. */
  datatype DistrictRecord = DistrictRecord(
    province: string, city: string, district: string, hospitals: seq<string>, hospitalCount: nat)

  datatype Task = Task(
    id: string,
    kind: string,
    target: Option<string>,
    status: TaskStatus,
    progress: int,
    currentStep: Step,
    createdAt: int,
    startedAt: Option<int>,
    completedAt: Option<int>,
    error: Option<TaskError>,
    data: seq<DistrictRecord>)

  const MicrosPerHour: int := 3_600_000_000

  /** Attempts made by `_safe_call_with_retry` before it gives up. */
  const MaxRetries: nat := 3

  // ---------------------------------------------------------------------
  // Retry

  function Pow2(n: nat): nat { if n == 0 then 1 else 2 * Pow2(n - 1) }

  /** What `_safe_call_with_retry` ends with: a value, the last exception, or
      (with no attempt allowed) Python's implicit `None`. */
  datatype Retried = Returned(value: seq<string>) | Raised(error: string) | NoAttempt

  /** Attempts `k` up to `m - 1`: the first value, or the error of attempt `m - 1`. */
  function RetryFrom(op: nat -> Result<seq<string>, string>, k: nat, m: nat): (r: Retried)
    requires k < m
    ensures !r.NoAttempt?
    decreases m - k
  {
    match op(k)
    case Ok(v) => Returned(v)
    case Err(e) => if k + 1 == m then Raised(e) else RetryFrom(op, k + 1, m)
  }

  function Retry(op: nat -> Result<seq<string>, string>, m: nat): (r: Retried)
    ensures r.NoAttempt? <==> m == 0
  {
    if m == 0 then NoAttempt else RetryFrom(op, 0, m)
  }

  /** A retried call succeeds as soon as one allowed attempt does, with the
      value of the first attempt that does. */
  lemma {:induction false} RetryFirstSuccess(op: nat -> Result<seq<string>, string>, m: nat, k: nat)
    requires k < m && op(k).Ok?
    requires forall j :: 0 <= j < k ==> op(j).Err?
    ensures Retry(op, m) == Returned(op(k).value)
  {
    var i := k;
    while i > 0
      invariant 0 <= i <= k
      invariant RetryFrom(op, i, m) == Returned(op(k).value)
    {
      i := i - 1;
    }
  }

  /** A retried call raises only when every allowed attempt raised, and then
      with the error of the last one. */
  lemma {:induction false} RetryRaisedMeansAllFailed(op: nat -> Result<seq<string>, string>, m: nat, k: nat)
    requires k < m
    requires RetryFrom(op, k, m).Raised?
    ensures forall j :: k <= j < m ==> op(j).Err?
    ensures op(m - 1) == Err(RetryFrom(op, k, m).error)
    decreases m - k
  {
    match op(k)
    case Ok(_) =>
    case Err(_) =>
      if k + 1 < m {
        assert RetryFrom(op, k, m) == RetryFrom(op, k + 1, m);
        RetryRaisedMeansAllFailed(op, m, k + 1);
      }
  }

  /** One request to the service, as the operation the retry wrapper repeats. */
  function Attempt(llm: Service, req: Request): nat -> Result<seq<string>, string>
  {
    (k: nat) => llm(req, k)
  }

  /** `_safe_call_with_retry` on the service with the default three attempts. */
  function Fetch(llm: Service, req: Request): Result<seq<string>, string>
  {
    var out := Retry(Attempt(llm, req), MaxRetries);
    if out.Returned? then Ok(out.value) else Err(out.error)
  }

  // ---------------------------------------------------------------------
  // The walk, as a specification

  /** The records a walk saved, and the exception that stopped it, if any. */
  datatype Walk = Walk(visits: seq<DistrictRecord>, failure: Option<string>)

  /** `_save_district_data`: one record when the save goes through, none when
      the database module is missing or the save raises (and is swallowed). */
  function Saved(store: Store, p: string, c: string, d: string, hs: seq<string>): seq<DistrictRecord>
  {
    if store.available && !store.raises(p, c, d) then [DistrictRecord(p, c, d, hs, |hs|)] else []
  }

  function DistrictWalk(llm: Service, store: Store, p: string, c: string, d: string): Walk
  {
    match Fetch(llm, Hospitals(d))
    case Err(e) => Walk([], Some(e))
    case Ok(hs) => Walk(Saved(store, p, c, d, hs), None)
  }

  /** The districts of one city in order, stopping at the first failure. */
  function DistrictsWalk(llm: Service, store: Store, p: string, c: string, ds: seq<string>): Walk
    decreases |ds|
  {
    if ds == [] then Walk([], None)
    else
      var w := DistrictsWalk(llm, store, p, c, ds[..|ds| - 1]);
      if w.failure.Some? then w
      else
        var last := DistrictWalk(llm, store, p, c, ds[|ds| - 1]);
        Walk(w.visits + last.visits, last.failure)
  }

  function CityWalk(llm: Service, store: Store, p: string, c: string): Walk
  {
    match Fetch(llm, Districts(c))
    case Err(e) => Walk([], Some(e))
    case Ok(ds) => DistrictsWalk(llm, store, p, c, ds)
  }

  function CitiesWalk(llm: Service, store: Store, p: string, cs: seq<string>): Walk
    decreases |cs|
  {
    if cs == [] then Walk([], None)
    else
      var w := CitiesWalk(llm, store, p, cs[..|cs| - 1]);
      if w.failure.Some? then w
      else
        var last := CityWalk(llm, store, p, cs[|cs| - 1]);
        Walk(w.visits + last.visits, last.failure)
  }

  function ProvinceWalk(llm: Service, store: Store, p: string): Walk
  {
    match Fetch(llm, Cities(p))
    case Err(e) => Walk([], Some(e))
    case Ok(cs) => CitiesWalk(llm, store, p, cs)
  }

  /** Where a run of a refresh leaves the task: records saved, last reported
      progress and step, and the exception that ended it. */
  datatype Run = Run(visits: seq<DistrictRecord>, progress: int, step: Step, error: Option<TaskError>)

  function FailureToError(f: Option<string>): Option<TaskError>
  {
    match f
    case None => None
    case Some(e) => Some(ServiceError(e))
  }

  /** `10 + int(idx / n * 80)`, the progress reported before province `idx`. */
  function ProvinceProgress(idx: nat, n: nat): int
    requires n > 0
  {
    10 + idx * 80 / n
  }

  /** The province loop of the full refresh after its first `k` iterations. */
  function FullLoop(llm: Service, store: Store, ps: seq<string>, k: nat): Run
    requires k <= |ps|
    decreases k
  {
    if k == 0 then Run([], 5, FetchingProvinces, None)
    else
      var r := FullLoop(llm, store, ps, k - 1);
      if r.error.Some? then r
      else
        var w := ProvinceWalk(llm, store, ps[k - 1]);
        Run(r.visits + w.visits, ProvinceProgress(k - 1, |ps|), ProcessingProvince(ps[k - 1]),
            FailureToError(w.failure))
  }

  /** `_execute_full_refresh`. */
  function FullRefresh(llm: Service, store: Store): Run
  {
    match Fetch(llm, Provinces)
    case Err(e) => Run([], 5, FetchingProvinces, Some(ServiceError(e)))
    case Ok(ps) =>
      if ps == [] then Run([], 5, FetchingProvinces, Some(NoProvinces))
      else
        var r := FullLoop(llm, store, ps, |ps|);
        if r.error.Some? then r else Run(r.visits, 100, FullRefreshDone, None)
  }

  /** `_execute_province_refresh`. */
  function ProvinceRefresh(llm: Service, store: Store, target: Option<string>): Run
  {
    match Fetch(llm, Provinces)
    case Err(e) => Run([], 5, VerifyingProvince(target), Some(ServiceError(e)))
    case Ok(ps) =>
      if target.None? || target.value !in ps then
        Run([], 5, VerifyingProvince(target), Some(UnknownProvince(target)))
      else TargetRun(llm, store, target.value)
  }

  /** `_execute_province_refresh` once its target is known to exist. */
  function TargetRun(llm: Service, store: Store, p: string): Run
  {
    var w := ProvinceWalk(llm, store, p);
    if w.failure.Some? then Run(w.visits, 10, ProcessingProvince(p), FailureToError(w.failure))
    else Run(w.visits, 100, ProvinceRefreshDone(p), None)
  }

  /** `_complete_task` on one record: no guard against a terminal status. */
  function Completed(t: Task, status: TaskStatus, error: Option<TaskError>, now: int): Task
  {
    t.(status := status, completedAt := Some(now), error := error,
       progress := if status == Succeeded then 100 else t.progress)
  }

  /** The record `_execute_refresh_task` leaves behind. */
  function Executed(t: Task, llm: Service, store: Store, now: int): Task
  {
    var r := RunOf(t, llm, store);
    Completed(WithRun(t, r), if r.error.None? then Succeeded else Failed, r.error, now)
  }

  /** The refresh the task's type names; any other type fails at once. */
  function RunOf(t: Task, llm: Service, store: Store): Run
  {
    if t.kind == "full" then FullRefresh(llm, store)
    else if t.kind == "province" then ProvinceRefresh(llm, store, t.target)
    else Run([], t.progress, t.currentStep, Some(UnknownTaskType(t.kind)))
  }

  /** A record after a run: its last reported progress and step, and the saved data appended. */
  function WithRun(t: Task, r: Run): Task
  {
    t.(progress := r.progress, currentStep := r.step, data := t.data + r.visits)
  }

  /** An executed task is terminal: succeeded with progress 100 and no error,
      or failed with the error that ended it; it keeps its earlier data and
      only appends to it. */
  lemma ExecutedTerminal(t: Task, llm: Service, store: Store, now: int)
    ensures Executed(t, llm, store, now).status in {Succeeded, Failed}
    ensures Executed(t, llm, store, now).completedAt == Some(now)
    ensures Executed(t, llm, store, now).status == Succeeded <==> Executed(t, llm, store, now).error.None?
    ensures Executed(t, llm, store, now).status == Succeeded ==> Executed(t, llm, store, now).progress == 100
    ensures t.kind != "full" && t.kind != "province" ==>
              Executed(t, llm, store, now).error == Some(UnknownTaskType(t.kind))
    ensures t.data <= Executed(t, llm, store, now).data
    ensures Executed(t, llm, store, now).id == t.id && Executed(t, llm, store, now).createdAt == t.createdAt
  {
  }

  // ---------------------------------------------------------------------
  // Facts about the walk

  /** The district walk over one more district, once the prefix has not failed. */
  lemma DistrictsWalkSnoc(llm: Service, store: Store, p: string, c: string, ds: seq<string>, i: nat)
    requires i < |ds| && DistrictsWalk(llm, store, p, c, ds[..i]).failure.None?
    ensures DistrictsWalk(llm, store, p, c, ds[..i + 1]) ==
      Walk(DistrictsWalk(llm, store, p, c, ds[..i]).visits + DistrictWalk(llm, store, p, c, ds[i]).visits,
           DistrictWalk(llm, store, p, c, ds[i]).failure)
  {
    assert ds[..i + 1][..i] == ds[..i];
  }

  /** The city walk over one more city, once the prefix has not failed. */
  lemma CitiesWalkSnoc(llm: Service, store: Store, p: string, cs: seq<string>, i: nat)
    requires i < |cs| && CitiesWalk(llm, store, p, cs[..i]).failure.None?
    ensures CitiesWalk(llm, store, p, cs[..i + 1]) ==
      Walk(CitiesWalk(llm, store, p, cs[..i]).visits + CityWalk(llm, store, p, cs[i]).visits,
           CityWalk(llm, store, p, cs[i]).failure)
  {
    assert cs[..i + 1][..i] == cs[..i];
  }

  /** The province loop over one more province, once no earlier one failed. */
  lemma FullLoopSnoc(llm: Service, store: Store, ps: seq<string>, idx: nat)
    requires idx < |ps| && FullLoop(llm, store, ps, idx).error.None?
    ensures FullLoop(llm, store, ps, idx + 1) ==
      Run(FullLoop(llm, store, ps, idx).visits + ProvinceWalk(llm, store, ps[idx]).visits,
          ProvinceProgress(idx, |ps|), ProcessingProvince(ps[idx]), FailureToError(ProvinceWalk(llm, store, ps[idx]).failure))
  {
  }

  lemma {:induction false} DistrictsWalkStops(llm: Service, store: Store, p: string, c: string, ds: seq<string>, j: nat)
    requires j <= |ds| && DistrictsWalk(llm, store, p, c, ds[..j]).failure.Some?
    ensures DistrictsWalk(llm, store, p, c, ds) == DistrictsWalk(llm, store, p, c, ds[..j])
    decreases |ds| - j
  {
    if j < |ds| {
      assert ds[..j + 1][..j] == ds[..j];
      DistrictsWalkStops(llm, store, p, c, ds, j + 1);
    } else {
      assert ds[..j] == ds;
    }
  }

  lemma {:induction false} CitiesWalkStops(llm: Service, store: Store, p: string, cs: seq<string>, j: nat)
    requires j <= |cs| && CitiesWalk(llm, store, p, cs[..j]).failure.Some?
    ensures CitiesWalk(llm, store, p, cs) == CitiesWalk(llm, store, p, cs[..j])
    decreases |cs| - j
  {
    if j < |cs| {
      assert cs[..j + 1][..j] == cs[..j];
      CitiesWalkStops(llm, store, p, cs, j + 1);
    } else {
      assert cs[..j] == cs;
    }
  }

  lemma {:induction false} FullLoopStops(llm: Service, store: Store, ps: seq<string>, j: nat, k: nat)
    requires j <= k <= |ps| && FullLoop(llm, store, ps, j).error.Some?
    ensures FullLoop(llm, store, ps, k) == FullLoop(llm, store, ps, j)
    decreases k - j
  {
    if j < k {
      FullLoopStops(llm, store, ps, j, k - 1);
    }
  }

  /** Province `idx` of `n` is announced at a progress between 10 and 89. */
  lemma ProvinceProgressBounds(idx: nat, n: nat)
    requires idx < n
    ensures 10 <= ProvinceProgress(idx, n) < 90
  {
    assert idx * 80 < n * 80;
    DivBelow(idx * 80, n, 80);
  }

  /** A fetch fails exactly when all three attempts raised, and then with the
      exception of the last one. */
  lemma FetchErr(llm: Service, req: Request)
    ensures Fetch(llm, req).Err? <==> forall k :: 0 <= k < MaxRetries ==> llm(req, k).Err?
    ensures Fetch(llm, req).Err? ==> llm(req, MaxRetries - 1) == Err(Fetch(llm, req).error)
  {
    var op := Attempt(llm, req);
    assert forall k :: 0 <= k < MaxRetries ==> op(k) == llm(req, k);
    if forall k :: 0 <= k < MaxRetries ==> llm(req, k).Err? {
      RetryAllFailed(op, MaxRetries, 0);
    }
    if Fetch(llm, req).Err? {
      RetryRaisedMeansAllFailed(op, MaxRetries, 0);
    }
  }

  /** When every remaining attempt raises, the retried call raises. */
  lemma {:induction false} RetryAllFailed(op: nat -> Result<seq<string>, string>, m: nat, k: nat)
    requires k < m
    requires forall j :: k <= j < m ==> op(j).Err?
    ensures RetryFrom(op, k, m).Raised?
    decreases m - k
  {
    if k + 1 < m {
      RetryAllFailed(op, m, k + 1);
    }
  }

  /** A record the walk saved passed the store, and counts its hospitals. */
  ghost predicate SavedBy(store: Store, visits: seq<DistrictRecord>)
  {
    forall i :: 0 <= i < |visits| ==>
      store.available && !store.raises(visits[i].province, visits[i].city, visits[i].district)
      && visits[i].hospitalCount == |visits[i].hospitals|
  }

  lemma {:induction false} DistrictsWalkSaved(llm: Service, store: Store, p: string, c: string, ds: seq<string>)
    ensures SavedBy(store, DistrictsWalk(llm, store, p, c, ds).visits)
    ensures forall r :: r in DistrictsWalk(llm, store, p, c, ds).visits ==> r.province == p && r.city == c && r.district in ds
    decreases |ds|
  {
    if ds != [] {
      var init := ds[..|ds| - 1];
      var d := ds[|ds| - 1];
      assert ds == init + [d];
      DistrictsWalkSaved(llm, store, p, c, init);
      var w := DistrictsWalk(llm, store, p, c, init);
      if w.failure.None? {
        var last := DistrictWalk(llm, store, p, c, d);
        SavedByConcat(store, w.visits, last.visits);
      }
    }
  }

  lemma {:induction false} CitiesWalkSaved(llm: Service, store: Store, p: string, cs: seq<string>)
    ensures SavedBy(store, CitiesWalk(llm, store, p, cs).visits)
    ensures forall r :: r in CitiesWalk(llm, store, p, cs).visits ==> r.province == p && r.city in cs
    decreases |cs|
  {
    if cs != [] {
      var init := cs[..|cs| - 1];
      var c := cs[|cs| - 1];
      assert cs == init + [c];
      CitiesWalkSaved(llm, store, p, init);
      var w := CitiesWalk(llm, store, p, init);
      if w.failure.None? {
        var last := CityWalk(llm, store, p, c);
        var f := Fetch(llm, Districts(c));
        if f.Ok? {
          DistrictsWalkSaved(llm, store, p, c, f.value);
        }
        SavedByConcat(store, w.visits, last.visits);
      }
    }
  }

  lemma SavedByConcat(store: Store, a: seq<DistrictRecord>, b: seq<DistrictRecord>)
    requires SavedBy(store, a) && SavedBy(store, b)
    ensures SavedBy(store, a + b)
  {
    forall i | 0 <= i < |a + b|
      ensures store.available && !store.raises((a + b)[i].province, (a + b)[i].city, (a + b)[i].district)
      ensures (a + b)[i].hospitalCount == |(a + b)[i].hospitals|
    {
      if i < |a| { assert (a + b)[i] == a[i]; } else { assert (a + b)[i] == b[i - |a|]; }
    }
  }

  lemma ProvinceWalkSaved(llm: Service, store: Store, p: string)
    ensures SavedBy(store, ProvinceWalk(llm, store, p).visits)
    ensures forall r :: r in ProvinceWalk(llm, store, p).visits ==> r.province == p
  {
    match Fetch(llm, Cities(p))
    case Err(_) =>
    case Ok(cs) => CitiesWalkSaved(llm, store, p, cs);
  }

  lemma {:induction false} FullLoopSaved(llm: Service, store: Store, ps: seq<string>, k: nat)
    requires k <= |ps|
    ensures SavedBy(store, FullLoop(llm, store, ps, k).visits)
    ensures forall r :: r in FullLoop(llm, store, ps, k).visits ==> r.province in ps[..k]
    decreases k
  {
    if k > 0 {
      FullLoopSaved(llm, store, ps, k - 1);
      assert ps[..k] == ps[..k - 1] + [ps[k - 1]];
      var r := FullLoop(llm, store, ps, k - 1);
      if r.error.None? {
        ProvinceWalkSaved(llm, store, ps[k - 1]);
        SavedByConcat(store, r.visits, ProvinceWalk(llm, store, ps[k - 1]).visits);
      }
    }
  }

  /** Every record a full refresh appends was saved, and belongs to a fetched province. */
  lemma FullRefreshSaved(llm: Service, store: Store)
    ensures SavedBy(store, FullRefresh(llm, store).visits)
    ensures FullRefresh(llm, store).visits != [] ==>
              Fetch(llm, Provinces).Ok? &&
              forall r :: r in FullRefresh(llm, store).visits ==> r.province in Fetch(llm, Provinces).value
  {
    match Fetch(llm, Provinces)
    case Err(_) =>
    case Ok(ps) =>
      if ps != [] {
        FullLoopSaved(llm, store, ps, |ps|);
        assert ps[..|ps|] == ps;
      }
  }

  /** Only save errors are swallowed: whether and where a walk stops does not
      depend on the store. */
  lemma {:induction false} DistrictsWalkStoreFree(llm: Service, s1: Store, s2: Store, p: string, c: string, ds: seq<string>)
    ensures DistrictsWalk(llm, s1, p, c, ds).failure == DistrictsWalk(llm, s2, p, c, ds).failure
    decreases |ds|
  {
    if ds != [] {
      DistrictsWalkStoreFree(llm, s1, s2, p, c, ds[..|ds| - 1]);
    }
  }

  lemma {:induction false} CitiesWalkStoreFree(llm: Service, s1: Store, s2: Store, p: string, cs: seq<string>)
    ensures CitiesWalk(llm, s1, p, cs).failure == CitiesWalk(llm, s2, p, cs).failure
    decreases |cs|
  {
    if cs != [] {
      CitiesWalkStoreFree(llm, s1, s2, p, cs[..|cs| - 1]);
      var c := cs[|cs| - 1];
      match Fetch(llm, Districts(c))
      case Err(_) =>
      case Ok(ds) => DistrictsWalkStoreFree(llm, s1, s2, p, c, ds);
    }
  }

  lemma ProvinceWalkStoreFree(llm: Service, s1: Store, s2: Store, p: string)
    ensures ProvinceWalk(llm, s1, p).failure == ProvinceWalk(llm, s2, p).failure
  {
    match Fetch(llm, Cities(p))
    case Err(_) =>
    case Ok(cs) => CitiesWalkStoreFree(llm, s1, s2, p, cs);
  }

  lemma {:induction false} FullLoopStoreFree(llm: Service, s1: Store, s2: Store, ps: seq<string>, k: nat)
    requires k <= |ps|
    ensures FullLoop(llm, s1, ps, k).error == FullLoop(llm, s2, ps, k).error
    ensures FullLoop(llm, s1, ps, k).progress == FullLoop(llm, s2, ps, k).progress
    ensures FullLoop(llm, s1, ps, k).step == FullLoop(llm, s2, ps, k).step
    decreases k
  {
    if k > 0 {
      FullLoopStoreFree(llm, s1, s2, ps, k - 1);
      ProvinceWalkStoreFree(llm, s1, s2, ps[k - 1]);
    }
  }

  /** A full refresh ends the same way, at the same progress and step, whatever
      the database does. */
  lemma FullRefreshStoreFree(llm: Service, s1: Store, s2: Store)
    ensures FullRefresh(llm, s1).error == FullRefresh(llm, s2).error
    ensures FullRefresh(llm, s1).progress == FullRefresh(llm, s2).progress
    ensures FullRefresh(llm, s1).step == FullRefresh(llm, s2).step
  {
    match Fetch(llm, Provinces)
    case Err(_) =>
    case Ok(ps) =>
      if ps != [] {
        FullLoopStoreFree(llm, s1, s2, ps, |ps|);
      }
  }

  /** A fetch failure anywhere fails the whole task: a province walk that
      stopped makes the full refresh fail with that exception. */
  lemma {:induction false} FullLoopFails(llm: Service, store: Store, ps: seq<string>, k: nat)
    requires k <= |ps| && FullLoop(llm, store, ps, k).error.None?
    requires k < |ps| && ProvinceWalk(llm, store, ps[k]).failure.Some?
    ensures FullRefresh(llm, store).error == Some(ServiceError(ProvinceWalk(llm, store, ps[k]).failure.value))
            || Fetch(llm, Provinces) != Ok(ps)
  {
    if Fetch(llm, Provinces) == Ok(ps) {
      FullLoopStops(llm, store, ps, k + 1, |ps|);
    }
  }

  /** The progress reported before each of the first `k` of `n` provinces. */
  function ProvinceReports(k: nat, n: nat): seq<int>
    requires k <= n && n > 0
  {
    seq(k, (i: nat) requires i < k => ProvinceProgress(i, n))
  }

  lemma ProvinceReportsSnoc(k: nat, n: nat)
    requires k < n
    ensures ProvinceReports(k + 1, n) == ProvinceReports(k, n) + [ProvinceProgress(k, n)]
  {
  }

  lemma ProvinceReportsPrefix(k: nat, n: nat)
    requires k <= n && n > 0
    ensures ProvinceReports(k, n) <= ProvinceReports(n, n)
  {
    assert ProvinceReports(k, n) == ProvinceReports(n, n)[..k];
  }

  /** The progress values a successful full refresh over `n` provinces reports:
      5, then one per province, then 100. */
  function FullReports(n: nat): (r: seq<int>)
    requires n > 0
    ensures |r| == n + 2 && r[0] == 5 && r[|r| - 1] == 100
    ensures forall i :: 0 <= i < n ==> r[i + 1] == ProvinceProgress(i, n)
  {
    [5] + ProvinceReports(n, n) + [100]
  }

  /** No value in `s` is below an earlier one. */
  ghost predicate Rising(s: seq<int>) {
    forall i, j :: 0 <= i <= j < |s| ==> s[i] <= s[j]
  }

  /** After the opening 5, a run that passes on a prefix of the province
      progress and 100 has passed on a prefix of the full report sequence. */
  lemma FullSent(before: seq<int>, after: seq<int>, n: nat)
    requires n > 0 && before + [5] <= after
    requires after[|before| + 1..] <= ProvinceReports(n, n) + [100]
    ensures before <= after
    ensures after[|before|..] <= FullReports(n) && Rising(after[|before|..])
    ensures after == before + [5] + (ProvinceReports(n, n) + [100]) ==> after == before + FullReports(n)
  {
    var d := after[|before| + 1..];
    assert after[|before|..] == [5] + d;
    assert FullReports(n) == [5] + (ProvinceReports(n, n) + [100]);
    FullReportsRise(n, after[|before|..]);
  }

  /** The reported progress never goes down and ends at 100; so does every
      prefix of it, which is what a run that stops early reports. */
  lemma FullReportsRise(n: nat, sent: seq<int>)
    requires n > 0 && sent <= FullReports(n)
    ensures Rising(FullReports(n)) && Rising(sent)
    ensures forall i :: 0 <= i < |sent| ==> 5 <= sent[i] <= 100
  {
    var r := FullReports(n);
    forall i, j | 0 <= i <= j < n + 2
      ensures r[i] <= r[j]
    {
      if 0 < i && j < n + 1 {
        ProvinceProgressMono(i - 1, j - 1, n);
      } else if 0 < i < n + 1 {
        ProvinceProgressBounds(i - 1, n);
      } else if j < n + 1 && j > 0 {
        ProvinceProgressBounds(j - 1, n);
      }
    }
    forall i | 0 <= i < |sent| ensures 5 <= sent[i] <= 100 {
      assert sent[i] == r[i];
      if 0 < i < n + 1 {
        ProvinceProgressBounds(i - 1, n);
      }
    }
    assert forall i :: 0 <= i < |sent| ==> sent[i] == r[i];
  }

  lemma ProvinceProgressMono(i: nat, j: nat, n: nat)
    requires i <= j < n
    ensures ProvinceProgress(i, n) <= ProvinceProgress(j, n)
  {
    MulMono(80, i, j);
    DivMono(i * 80, j * 80, n);
  }

  lemma DivMono(a: int, b: int, d: int)
    requires d > 0 && a <= b
    ensures a / d <= b / d
  {
    if a / d > b / d {
      assert a == d * (a / d) + a % d;
      assert b == d * (b / d) + b % d;
      MulMono(d, b / d + 1, a / d);
    }
  }

  lemma DivBelow(x: int, d: int, k: int)
    requires d > 0 && 0 <= x < d * k
    ensures x / d < k
  {
    var q := x / d;
    assert x == d * q + x % d;
    assert d * q <= x;
    if q >= k {
      MulMono(d, k, q);
    }
  }

  // ---------------------------------------------------------------------
  // Registry updates, as functions on the dict

  /** `_update_task_progress` on the records: no effect on an unknown id, no
      monotonic guard. */
  function SetProgress(m: map<string, Task>, id: string, p: int, s: Step): (r: map<string, Task>)
    ensures r.Keys == m.Keys
  {
    if id in m then m[id := m[id].(progress := p, currentStep := s)] else m
  }

  /** Appending saved district records to a task's `result["data"]`. */
  function AppendData(m: map<string, Task>, id: string, recs: seq<DistrictRecord>): (r: map<string, Task>)
    ensures r.Keys == m.Keys
  {
    if id in m then m[id := m[id].(data := m[id].data + recs)] else m
  }

  lemma AppendDataNothing(m: map<string, Task>, id: string)
    ensures AppendData(m, id, []) == m
  {
    if id in m {
      assert m[id].data + [] == m[id].data;
      assert m[id].(data := m[id].data) == m[id];
    }
  }

  /** Reporting progress on a record that holds a run, then appending a walk's
      records, leaves the record holding the extended run and every other
      record of `base` as it was. */
  lemma ReportThenAppend(base: map<string, Task>, m: map<string, Task>, id: string, t0: Task, r: Run,
                         progress: int, step: Step, visits: seq<DistrictRecord>, e: Option<TaskError>)
    requires id in m && m[id] == WithRun(t0, r) && m == base[id := m[id]]
    ensures AppendData(m[id := m[id].(progress := progress, currentStep := step)], id, visits)
      == base[id := WithRun(t0, Run(r.visits + visits, progress, step, e))]
  {
    assert t0.data + r.visits + visits == t0.data + (r.visits + visits);
  }

  /** Reporting progress on a record that holds a run leaves it holding the
      run with that progress, and every other record of `base` as it was. */
  lemma ReportOnRun(base: map<string, Task>, m: map<string, Task>, id: string, t0: Task, r: Run,
                    progress: int, step: Step, e: Option<TaskError>)
    requires m == base[id := WithRun(t0, r)]
    ensures m[id := m[id].(progress := progress, currentStep := step)]
      == base[id := WithRun(t0, Run(r.visits, progress, step, e))]
  {
  }

  lemma UpdateTwice(base: map<string, Task>, m: map<string, Task>, id: string, x: Task, y: Task)
    requires m == base[id := x]
    ensures m[id := y] == base[id := y]
  {
  }

  lemma AppendDataTwice(m: map<string, Task>, id: string, a: seq<DistrictRecord>, b: seq<DistrictRecord>)
    ensures AppendData(AppendData(m, id, a), id, b) == AppendData(m, id, a + b)
  {
    if id in m {
      assert m[id].data + a + b == m[id].data + (a + b);
    }
  }

  /** What a callback does when the tracker calls it. */
  datatype Callback = SetTaskProgress(taskId: string) | Raising

  /** The records after the callbacks `cbs` ran in order with `(p, s)`; a
      callback that raises is skipped. */
  function ApplyCallbacks(m: map<string, Task>, cbs: seq<Callback>, p: int, s: Step): (r: map<string, Task>)
    ensures r.Keys == m.Keys
    decreases |cbs|
  {
    if cbs == [] then m
    else
      var before := ApplyCallbacks(m, cbs[..|cbs| - 1], p, s);
      match cbs[|cbs| - 1]
      case SetTaskProgress(id) => SetProgress(before, id, p, s)
      case Raising => before
  }

  lemma SingleCallback(m: map<string, Task>, id: string, p: int, s: Step)
    ensures ApplyCallbacks(m, [SetTaskProgress(id)], p, s) == SetProgress(m, id, p, s)
  {
    assert [SetTaskProgress(id)][..0] == [];
  }

  /** `min(100, int(step / total * 100))`, with `int()` truncating toward zero. */
  function Percent(step: int, total: int): int
    requires total > 0
  {
    var q := if step >= 0 then step * 100 / total else -((-step) * 100 / total);
    if q < 100 then q else 100
  }

  /** With the tracker's total of 100, a step in 0..100 is reported unchanged. */
  lemma PercentOfHundred(step: int)
    requires 0 <= step <= 100
    ensures Percent(step, 100) == step
  {
  }

  /** Percentages never exceed 100, and a step past the total is capped at 100. */
  lemma PercentBounds(step: int, total: int)
    requires total > 0
    ensures Percent(step, total) <= 100
    ensures step >= 0 ==> Percent(step, total) >= 0
    ensures step >= total ==> Percent(step, total) == 100
  {
    if step >= total {
      DivAtLeast(step * 100, total, 100);
    }
  }

  lemma DivAtLeast(x: int, d: int, k: int)
    requires d > 0 && x >= d * k
    ensures x / d >= k
  {
    var q := x / d;
    assert x == d * q + x % d;
    assert d * k <= d * q + x % d < d * q + d;
    assert d * k < d * (q + 1);
    MulStrict(d, k, q + 1);
  }

  lemma MulStrict(d: int, a: int, b: int)
    requires d > 0 && d * a < d * b
    ensures a < b
  {
    if a >= b {
      MulMono(d, b, a);
    }
  }

  lemma MulMono(d: int, a: int, b: int)
    requires d > 0 && a <= b
    ensures d * a <= d * b
  {
  }

  // ---------------------------------------------------------------------
  // Progress tracker

  class ProgressTracker {
    const totalSteps: int
    var completedSteps: int
    var currentStep: int
    var currentStepName: Step
    var callbacks: seq<Callback>
    /** The percentages `update_progress` has computed and passed on, oldest first. */
    ghost var reported: seq<int>

    constructor (total: int)
      requires total > 0
      ensures totalSteps == total && completedSteps == 0 && currentStep == 0
      ensures currentStepName == NoStep && callbacks == [] && reported == []
    {
      reported := [];
      totalSteps := total;
      completedSteps := 0;
      currentStep := 0;
      currentStepName := NoStep;
      callbacks := [];
    }

    method AddCallback(cb: Callback)
      modifies this
      ensures callbacks == old(callbacks) + [cb]
      ensures currentStep == old(currentStep) && currentStepName == old(currentStepName)
      ensures completedSteps == old(completedSteps) && reported == old(reported)
    {
      callbacks := callbacks + [cb];
    }

    /** `get_progress`. */
    function GetProgress(): (r: (int, Step))
      reads this
      requires totalSteps > 0
      ensures r.0 <= 100 && r.1 == currentStepName
      ensures r.0 == Percent(currentStep, totalSteps)
    {
      PercentBounds(currentStep, totalSteps);
      (Percent(currentStep, totalSteps), currentStepName)
    }

    /** `update_progress`: records the step, then calls every registered
        callback once, in order, with the percentage; a callback that raises
        does not stop the others. */
    method UpdateProgress(step: int, name: Step, mgr: TaskManager)
      requires totalSteps > 0 && mgr.Valid()
      modifies this, mgr
      ensures currentStep == step && currentStepName == name
      ensures callbacks == old(callbacks) && completedSteps == old(completedSteps)
      ensures reported == old(reported) + [Percent(step, totalSteps)]
      ensures GetProgress() == (Percent(step, totalSteps), name)
      ensures mgr.Valid() && mgr.tasks.keys == old(mgr.tasks.keys)
      ensures mgr.tasks.entries == ApplyCallbacks(old(mgr.tasks.entries), callbacks, Percent(step, totalSteps), name)
    {
      currentStep := step;
      currentStepName := name;
      var progress := Percent(step, totalSteps);
      reported := reported + [progress];
      var i := 0;
      while i < |callbacks|
        invariant 0 <= i <= |callbacks|
        invariant mgr.Valid() && mgr.tasks.keys == old(mgr.tasks.keys)
        invariant currentStep == step && currentStepName == name
        invariant callbacks == old(callbacks) && completedSteps == old(completedSteps)
        invariant reported == old(reported) + [progress]
        invariant mgr.tasks.entries == ApplyCallbacks(old(mgr.tasks.entries), callbacks[..i], progress, name)
      {
        assert callbacks[..i + 1][..i] == callbacks[..i];
        match callbacks[i] {
          case SetTaskProgress(id) => mgr.UpdateTaskProgress(id, progress, name);
          case Raising =>
        }
        i := i + 1;
      }
      assert callbacks[..i] == callbacks;
    }
  }

  // ---------------------------------------------------------------------
  // Task manager

  class TaskManager {
    var tasks: PyDict.Dict<Task>

    ghost predicate Valid()
      reads this
    {
      PyDict.Valid(tasks)
    }

    constructor ()
      ensures Valid() && tasks.entries == map[]
    {
      tasks := PyDict.Empty();
    }

    /** `create_refresh_task`: the id is "task_" followed by the formatted
        clock reading `stamp`; the new record is pending with progress 0, no
        step, no error, no completion time and no saved data. A colliding id
        replaces the earlier record. */
    method CreateRefreshTask(kind: string, target: Option<string>, stamp: string, now: int)
      returns (taskId: string)
      requires Valid()
      modifies this
      ensures Valid()
      ensures taskId == "task_" + stamp
      ensures tasks == PyDict.Put(old(tasks), taskId,
                Task(taskId, kind, target, Pending, 0, NoStep, now, None, None, None, []))
      ensures forall id :: id in old(tasks.entries) && id != taskId ==>
                id in tasks.entries && tasks.entries[id] == old(tasks.entries[id])
    {
      taskId := "task_" + stamp;
      tasks := PyDict.Put(tasks, taskId, Task(taskId, kind, target, Pending, 0, NoStep, now, None, None, None, []));
    }

    /** `start_task`: only a known pending task starts; it becomes running with
        a start time. Launching the executor is left to the caller. */
    method StartTask(taskId: string, now: int) returns (ok: bool)
      requires Valid()
      modifies this
      ensures Valid()
      ensures ok <==> taskId in old(tasks.entries) && old(tasks.entries[taskId].status) == Pending
      ensures !ok ==> tasks == old(tasks)
      ensures ok ==> tasks == PyDict.Put(old(tasks), taskId,
                old(tasks.entries[taskId]).(status := Running, startedAt := Some(now)))
    {
      if taskId !in tasks.entries {
        return false;
      }
      var t := tasks.entries[taskId];
      if t.status != Pending {
        return false;
      }
      tasks := PyDict.Put(tasks, taskId, t.(status := Running, startedAt := Some(now)));
      ok := true;
    }

    method UpdateTaskProgress(taskId: string, progress: int, step: Step)
      requires Valid()
      modifies this
      ensures Valid()
      ensures tasks.keys == old(tasks.keys)
      ensures tasks.entries == SetProgress(old(tasks.entries), taskId, progress, step)
    {
      if taskId in tasks.entries {
        Replace(taskId, tasks.entries[taskId].(progress := progress, currentStep := step));
      }
    }

    /** Assigning to an existing key: the order of keys does not change. */
    method Replace(taskId: string, t: Task)
      requires Valid() && taskId in tasks.entries
      modifies this
      ensures Valid() && tasks.keys == old(tasks.keys)
      ensures tasks.entries == old(tasks.entries)[taskId := t]
    {
      tasks := PyDict.Dict(tasks.keys, tasks.entries[taskId := t]);
    }

    method CompleteTask(taskId: string, status: TaskStatus, error: Option<TaskError>, now: int)
      requires Valid()
      modifies this
      ensures Valid()
      ensures tasks.keys == old(tasks.keys)
      ensures tasks.entries == if taskId in old(tasks.entries)
                               then old(tasks.entries)[taskId := Completed(old(tasks.entries[taskId]), status, error, now)]
                               else old(tasks.entries)
    {
      if taskId in tasks.entries {
        Replace(taskId, Completed(tasks.entries[taskId], status, error, now));
      }
    }

    /** `get_task_status`: the record itself, or None. */
    function GetTaskStatus(taskId: string): (r: Option<Task>)
      reads this
      ensures r.Some? <==> taskId in tasks.entries
      ensures r.Some? ==> r.value == tasks.entries[taskId]
    {
      if taskId in tasks.entries then Some(tasks.entries[taskId]) else None
    }

    /** `list_tasks`: the records (only those with the given status when one is
        given), newest first. */
    function ListTasks(status: Option<TaskStatus>): (r: seq<Task>)
      reads this
      requires Valid()
      ensures Listing.NewestFirst(r, CreatedAt)
      ensures multiset(r) == multiset(WithStatus(PyDict.Values(tasks), status))
      ensures forall t :: t in r <==> t in PyDict.Values(tasks) && (status.None? || t.status == status.value)
    {
      var all := PyDict.Values(tasks);
      var chosen := WithStatus(all, status);
      var r := Listing.SortNewestFirst(chosen, CreatedAt);
      Listing.SortNewestFirstSorted(chosen, CreatedAt);
      WithStatusMembers(all, status);
      assert forall t :: t in r <==> t in multiset(r);
      assert forall t :: t in chosen <==> t in multiset(chosen);
      r
    }

    /** `get_active_tasks`: the ids of pending and running tasks, in
        registration order. */
    method GetActiveTasks() returns (ids: seq<string>)
      requires Valid()
      ensures ids == ActiveKeys(tasks.keys, tasks.entries)
      ensures forall id :: id in ids <==> id in tasks.entries && IsActive(tasks.entries[id].status)
    {
      ids := [];
      var i := 0;
      while i < |tasks.keys|
        invariant 0 <= i <= |tasks.keys|
        invariant ids == ActiveKeys(tasks.keys[..i], tasks.entries)
      {
        assert tasks.keys[..i + 1][..i] == tasks.keys[..i];
        var id := tasks.keys[i];
        if IsActive(tasks.entries[id].status) {
          ids := ids + [id];
        }
        i := i + 1;
      }
      assert tasks.keys[..i] == tasks.keys;
      ActiveKeysMembers(tasks.keys, tasks.entries);
    }

    /** `cancel_task`: a pending or running task fails with the user-cancelled
        error; any other task, or an unknown id, is left alone. */
    method CancelTask(taskId: string, now: int) returns (ok: bool)
      requires Valid()
      modifies this
      ensures Valid()
      ensures ok <==> taskId in old(tasks.entries) && IsActive(old(tasks.entries[taskId].status))
      ensures !ok ==> tasks == old(tasks)
      ensures ok ==> tasks == PyDict.Put(old(tasks), taskId,
                old(tasks.entries[taskId]).(status := Failed, completedAt := Some(now), error := Some(UserCancelled)))
    {
      if taskId !in tasks.entries {
        return false;
      }
      var t := tasks.entries[taskId];
      if IsActive(t.status) {
        tasks := PyDict.Put(tasks, taskId, t.(status := Failed, completedAt := Some(now), error := Some(UserCancelled)));
        return true;
      }
      ok := false;
    }

    /** `cleanup_old_tasks`: deletes every task created before
        `now - hours * 3600 s`, whatever its status, and returns how many. */
    method CleanupOldTasks(hours: int, now: int) returns (removed: nat)
      requires Valid()
      modifies this
      ensures Valid()
      ensures tasks.entries == Kept(old(tasks.entries), Cutoff(now, hours))
      ensures removed == |Expired(old(tasks.entries), Cutoff(now, hours))|
    {
      var cutoff := now - hours * MicrosPerHour;
      var toRemove := CollectOlder(cutoff);
      ghost var before := tasks.entries;
      var j := 0;
      while j < |toRemove|
        invariant 0 <= j <= |toRemove|
        invariant PyDict.Valid(tasks)
        invariant tasks.entries == before - SetOf(toRemove[..j])
      {
        assert SetOf(toRemove[..j + 1]) == SetOf(toRemove[..j]) + {toRemove[j]} by {
          assert toRemove[..j + 1] == toRemove[..j] + [toRemove[j]];
        }
        tasks := PyDict.Del(tasks, toRemove[j]);
        j := j + 1;
      }
      assert toRemove[..j] == toRemove;
      PyDict.DistinctSeqCard(toRemove);
      assert SetOf(toRemove) == set k | k in toRemove;
      removed := |toRemove|;
      RemovedOlder(before, toRemove, cutoff);
    }

    /** The first loop of `cleanup_old_tasks`: the ids created before `cutoff`. */
    method CollectOlder(cutoff: int) returns (ids: seq<string>)
      requires Valid()
      ensures PyDict.Distinct(ids)
      ensures forall id :: id in ids <==> id in tasks.entries && tasks.entries[id].createdAt < cutoff
    {
      ids := [];
      var i := 0;
      while i < |tasks.keys|
        invariant 0 <= i <= |tasks.keys|
        invariant ids == OlderKeys(tasks.keys[..i], tasks.entries, cutoff)
      {
        assert tasks.keys[..i + 1][..i] == tasks.keys[..i];
        var id := tasks.keys[i];
        if tasks.entries[id].createdAt < cutoff {
          ids := ids + [id];
        }
        i := i + 1;
      }
      assert tasks.keys[..i] == tasks.keys;
      OlderKeysMembers(tasks.keys, tasks.entries, cutoff);
    }

    /** `_save_district_data`: when the database module is loaded and the save
        does not raise, appends one record to the task's saved data; an
        exception is swallowed and the walk goes on. */
    method SaveDistrictData(p: string, c: string, d: string, hs: seq<string>, taskId: string, store: Store)
      requires Valid()
      modifies this
      ensures Valid()
      ensures tasks.keys == old(tasks.keys)
      ensures tasks.entries == AppendData(old(tasks.entries), taskId, Saved(store, p, c, d, hs))
    {
      AppendDataNothing(tasks.entries, taskId);
      if !store.available {
        return;
      }
      if store.raises(p, c, d) {
        return;
      }
      if taskId in tasks.entries {
        var t := tasks.entries[taskId];
        Replace(taskId, t.(data := t.data + [DistrictRecord(p, c, d, hs, |hs|)]));
      }
    }

    /** `_process_district`: fetch the hospitals, then save the district. */
    method ProcessDistrict(d: string, c: string, p: string, taskId: string, llm: Service, store: Store)
      returns (failure: Option<string>)
      requires Valid()
      modifies this
      ensures Valid()
      ensures failure == DistrictWalk(llm, store, p, c, d).failure
      ensures tasks.keys == old(tasks.keys)
      ensures tasks.entries == AppendData(old(tasks.entries), taskId, DistrictWalk(llm, store, p, c, d).visits)
    {
      AppendDataNothing(tasks.entries, taskId);
      var r, _ := SafeCallWithRetry(Attempt(llm, Hospitals(d)), MaxRetries);
      if r.Raised? {
        return Some(r.error);
      }
      SaveDistrictData(p, c, d, r.value, taskId, store);
      failure := None;
    }

    /** `_process_city`: fetch the districts, then process each in order; the
        first failure propagates. */
    method ProcessCity(c: string, p: string, taskId: string, llm: Service, store: Store)
      returns (failure: Option<string>)
      requires Valid()
      modifies this
      ensures Valid()
      ensures failure == CityWalk(llm, store, p, c).failure
      ensures tasks.keys == old(tasks.keys)
      ensures tasks.entries == AppendData(old(tasks.entries), taskId, CityWalk(llm, store, p, c).visits)
    {
      AppendDataNothing(tasks.entries, taskId);
      var r, _ := SafeCallWithRetry(Attempt(llm, Districts(c)), MaxRetries);
      if r.Raised? {
        return Some(r.error);
      }
      var ds := r.value;
      var i := 0;
      while i < |ds|
        invariant 0 <= i <= |ds|
        invariant Valid()
        invariant DistrictsWalk(llm, store, p, c, ds[..i]).failure.None?
        invariant tasks.keys == old(tasks.keys)
        invariant tasks.entries == AppendData(old(tasks.entries), taskId, DistrictsWalk(llm, store, p, c, ds[..i]).visits)
      {
        DistrictsWalkSnoc(llm, store, p, c, ds, i);
        AppendDataTwice(old(tasks.entries), taskId, DistrictsWalk(llm, store, p, c, ds[..i]).visits,
                        DistrictWalk(llm, store, p, c, ds[i]).visits);
        var f := ProcessDistrict(ds[i], c, p, taskId, llm, store);
        if f.Some? {
          DistrictsWalkStops(llm, store, p, c, ds, i + 1);
          return f;
        }
        i := i + 1;
      }
      assert ds[..i] == ds;
      failure := None;
    }

    /** `_process_province`: fetch the cities, then process each in order; the
        first failure propagates. */
    method ProcessProvince(p: string, taskId: string, llm: Service, store: Store)
      returns (failure: Option<string>)
      requires Valid()
      modifies this
      ensures Valid()
      ensures failure == ProvinceWalk(llm, store, p).failure
      ensures tasks.keys == old(tasks.keys)
      ensures tasks.entries == AppendData(old(tasks.entries), taskId, ProvinceWalk(llm, store, p).visits)
    {
      AppendDataNothing(tasks.entries, taskId);
      var r, _ := SafeCallWithRetry(Attempt(llm, Cities(p)), MaxRetries);
      if r.Raised? {
        return Some(r.error);
      }
      var cs := r.value;
      var i := 0;
      while i < |cs|
        invariant 0 <= i <= |cs|
        invariant Valid()
        invariant CitiesWalk(llm, store, p, cs[..i]).failure.None?
        invariant tasks.keys == old(tasks.keys)
        invariant tasks.entries == AppendData(old(tasks.entries), taskId, CitiesWalk(llm, store, p, cs[..i]).visits)
      {
        CitiesWalkSnoc(llm, store, p, cs, i);
        AppendDataTwice(old(tasks.entries), taskId, CitiesWalk(llm, store, p, cs[..i]).visits,
                        CityWalk(llm, store, p, cs[i]).visits);
        var f := ProcessCity(cs[i], p, taskId, llm, store);
        if f.Some? {
          CitiesWalkStops(llm, store, p, cs, i + 1);
          return f;
        }
        i := i + 1;
      }
      assert cs[..i] == cs;
      failure := None;
    }

    /** One `tracker.update_progress(step, name)` whose only callback sets the
        task's progress: the task shows `step` and `name`. */
    method Report(taskId: string, tracker: ProgressTracker, step: int, name: Step)
      requires Valid() && taskId in tasks.entries && 0 <= step <= 100
      requires tracker.totalSteps == 100 && tracker.callbacks == [SetTaskProgress(taskId)]
      modifies this, tracker
      ensures Valid() && tasks.keys == old(tasks.keys)
      ensures tracker.callbacks == old(tracker.callbacks)
      ensures tracker.reported == old(tracker.reported) + [step]
      ensures tasks.entries == old(tasks.entries)[taskId := old(tasks.entries[taskId]).(progress := step, currentStep := name)]
    {
      tracker.UpdateProgress(step, name, this);
      PercentOfHundred(step);
      SingleCallback(old(tasks.entries), taskId, step, name);
    }

    /** `_execute_full_refresh`: report 5, fetch the provinces (an empty list
        is an error), report `10 + idx * 80 / n` before each province, process
        it, and report 100 at the end. */
    method ExecuteFullRefresh(taskId: string, tracker: ProgressTracker, llm: Service, store: Store)
      returns (err: Option<TaskError>)
      requires Valid() && taskId in tasks.entries
      requires tracker.totalSteps == 100 && tracker.callbacks == [SetTaskProgress(taskId)]
      modifies this, tracker
      ensures Valid()
      ensures err == FullRefresh(llm, store).error
      ensures tasks.keys == old(tasks.keys)
      ensures tasks.entries == old(tasks.entries)[taskId := WithRun(old(tasks.entries[taskId]), FullRefresh(llm, store))]
      ensures old(tracker.reported) <= tracker.reported
      ensures Fetch(llm, Provinces).Ok? && Fetch(llm, Provinces).value != [] ==>
                tracker.reported[|old(tracker.reported)|..] <= FullReports(|Fetch(llm, Provinces).value|)
      ensures Fetch(llm, Provinces).Ok? && Fetch(llm, Provinces).value != [] && err.None? ==>
                tracker.reported == old(tracker.reported) + FullReports(|Fetch(llm, Provinces).value|)
      ensures !(Fetch(llm, Provinces).Ok? && Fetch(llm, Provinces).value != []) ==>
                err.Some? && tracker.reported == old(tracker.reported) + [5]
      ensures Rising(tracker.reported[|old(tracker.reported)|..])
    {
      ghost var base := tasks.entries;
      ghost var t0 := tasks.entries[taskId];
      ghost var sent0 := tracker.reported;
      Report(taskId, tracker, 5, FetchingProvinces);
      assert t0.data + [] == t0.data;
      var r, _ := SafeCallWithRetry(Attempt(llm, Provinces), MaxRetries);
      if r.Raised? {
        return Some(ServiceError(r.error));
      }
      var ps := r.value;
      if ps == [] {
        return Some(NoProvinces);
      }
      assert tasks.entries == base[taskId := WithRun(t0, FullLoop(llm, store, ps, 0))];
      ghost var sent1 := tracker.reported;
      err := RefreshAll(taskId, tracker, ps, llm, store, t0, base);
      FullSent(sent0, tracker.reported, |ps|);
    }

    /** The rest of `_execute_full_refresh` once the provinces are known: the
        province loop, then the final report of 100 unless a province failed. */
    method RefreshAll(taskId: string, tracker: ProgressTracker, ps: seq<string>, llm: Service, store: Store,
                      ghost t0: Task, ghost base: map<string, Task>)
      returns (err: Option<TaskError>)
      requires Valid() && ps != []
      requires tasks.entries == base[taskId := WithRun(t0, FullLoop(llm, store, ps, 0))]
      requires tracker.totalSteps == 100 && tracker.callbacks == [SetTaskProgress(taskId)]
      modifies this, tracker
      ensures Valid() && tasks.keys == old(tasks.keys)
      ensures err == FullLoop(llm, store, ps, |ps|).error
      ensures var r := FullLoop(llm, store, ps, |ps|);
        tasks.entries == base[taskId := WithRun(t0, if r.error.Some? then r else Run(r.visits, 100, FullRefreshDone, None))]
      ensures old(tracker.reported) <= tracker.reported
      ensures tracker.reported[|old(tracker.reported)|..] <= ProvinceReports(|ps|, |ps|) + [100]
      ensures err.None? ==> tracker.reported == old(tracker.reported) + (ProvinceReports(|ps|, |ps|) + [100])
    {
      err := RefreshProvinces(taskId, tracker, ps, llm, store, t0, base);
      if err.None? {
        ghost var m := tasks.entries;
        Report(taskId, tracker, 100, FullRefreshDone);
        ReportOnRun(base, m, taskId, t0, FullLoop(llm, store, ps, |ps|), 100, FullRefreshDone, None);
      }
    }

    /** The province loop of `_execute_full_refresh`; `t0` is the record as it
        was before the run. */
    method RefreshProvinces(taskId: string, tracker: ProgressTracker, ps: seq<string>, llm: Service, store: Store,
                            ghost t0: Task, ghost base: map<string, Task>)
      returns (err: Option<TaskError>)
      requires Valid() && ps != []
      requires tasks.entries == base[taskId := WithRun(t0, FullLoop(llm, store, ps, 0))]
      requires tracker.totalSteps == 100 && tracker.callbacks == [SetTaskProgress(taskId)]
      modifies this, tracker
      ensures Valid() && tasks.keys == old(tasks.keys)
      ensures tracker.callbacks == old(tracker.callbacks)
      ensures err == FullLoop(llm, store, ps, |ps|).error
      ensures tasks.entries == base[taskId := WithRun(t0, FullLoop(llm, store, ps, |ps|))]
      ensures old(tracker.reported) <= tracker.reported
      ensures tracker.reported[|old(tracker.reported)|..] <= ProvinceReports(|ps|, |ps|)
      ensures err.None? ==> tracker.reported == old(tracker.reported) + ProvinceReports(|ps|, |ps|)
    {
      var idx := 0;
      while idx < |ps|
        invariant 0 <= idx <= |ps|
        invariant Valid() && taskId in tasks.entries
        invariant tracker.totalSteps == 100 && tracker.callbacks == [SetTaskProgress(taskId)]
        invariant tracker.reported == old(tracker.reported) + ProvinceReports(idx, |ps|)
        invariant FullLoop(llm, store, ps, idx).error.None?
        invariant tasks.keys == old(tasks.keys)
        invariant tasks.entries == base[taskId := WithRun(t0, FullLoop(llm, store, ps, idx))]
      {
        var f := RefreshProvince(taskId, tracker, ps, idx, llm, store, t0, base);
        ProvinceReportsSnoc(idx, |ps|);
        if f.Some? {
          FullLoopStops(llm, store, ps, idx + 1, |ps|);
          ProvinceReportsPrefix(idx + 1, |ps|);
          assert tracker.reported[|old(tracker.reported)|..] == ProvinceReports(idx + 1, |ps|);
          return Some(ServiceError(f.value));
        }
        idx := idx + 1;
      }
      assert tracker.reported[|old(tracker.reported)|..] == ProvinceReports(|ps|, |ps|);
      err := None;
    }

    /** One iteration of the province loop: report the province's progress,
        then process it. */
    method RefreshProvince(taskId: string, tracker: ProgressTracker, ps: seq<string>, idx: nat,
                           llm: Service, store: Store, ghost t0: Task, ghost base: map<string, Task>)
      returns (f: Option<string>)
      requires Valid() && idx < |ps|
      requires tracker.totalSteps == 100 && tracker.callbacks == [SetTaskProgress(taskId)]
      requires FullLoop(llm, store, ps, idx).error.None?
      requires tasks.entries == base[taskId := WithRun(t0, FullLoop(llm, store, ps, idx))]
      modifies this, tracker
      ensures Valid() && tasks.keys == old(tasks.keys)
      ensures tracker.callbacks == old(tracker.callbacks)
      ensures tracker.reported == old(tracker.reported) + [ProvinceProgress(idx, |ps|)]
      ensures f == ProvinceWalk(llm, store, ps[idx]).failure
      ensures FullLoop(llm, store, ps, idx + 1).error == FailureToError(f)
      ensures tasks.entries == base[taskId := WithRun(t0, FullLoop(llm, store, ps, idx + 1))]
    {
      ghost var before := FullLoop(llm, store, ps, idx);
      ghost var m0 := tasks.entries;
      var progress := ProvinceProgress(idx, |ps|);
      ProvinceProgressBounds(idx, |ps|);
      Report(taskId, tracker, progress, ProcessingProvince(ps[idx]));
      f := ProcessProvince(ps[idx], taskId, llm, store);
      FullLoopSnoc(llm, store, ps, idx);
      ReportThenAppend(base, m0, taskId, t0, before, progress, ProcessingProvince(ps[idx]),
                       ProvinceWalk(llm, store, ps[idx]).visits, FailureToError(f));
    }

    /** `_execute_province_refresh`: report 5, check the target against the
        fetched provinces, report 10, process it, and report 100. */
    method ExecuteProvinceRefresh(taskId: string, tracker: ProgressTracker, target: Option<string>,
                                  llm: Service, store: Store)
      returns (err: Option<TaskError>)
      requires Valid() && taskId in tasks.entries
      requires tracker.totalSteps == 100 && tracker.callbacks == [SetTaskProgress(taskId)]
      modifies this, tracker
      ensures Valid()
      ensures err == ProvinceRefresh(llm, store, target).error
      ensures tasks.keys == old(tasks.keys)
      ensures tasks.entries == old(tasks.entries)[taskId := WithRun(old(tasks.entries[taskId]), ProvinceRefresh(llm, store, target))]
      ensures old(tracker.reported) <= tracker.reported
      ensures tracker.reported[|old(tracker.reported)|..] <= [5, 10, 100]
      ensures err.None? <==> tracker.reported == old(tracker.reported) + [5, 10, 100]
    {
      ghost var base := tasks.entries;
      ghost var t0 := tasks.entries[taskId];
      Report(taskId, tracker, 5, VerifyingProvince(target));
      assert t0.data + [] == t0.data;
      var r, _ := SafeCallWithRetry(Attempt(llm, Provinces), MaxRetries);
      if r.Raised? {
        return Some(ServiceError(r.error));
      }
      if target.None? || target.value !in r.value {
        return Some(UnknownProvince(target));
      }
      err := RefreshTarget(taskId, tracker, target.value, llm, store, t0, base);
    }

    /** The end of `_execute_province_refresh` once the target is known:
        report 10, process the province, and report 100. */
    method RefreshTarget(taskId: string, tracker: ProgressTracker, p: string, llm: Service, store: Store,
                         ghost t0: Task, ghost base: map<string, Task>)
      returns (err: Option<TaskError>)
      requires Valid()
      requires tasks.entries == base[taskId := WithRun(t0, Run([], 5, VerifyingProvince(Some(p)), None))]
      requires tracker.totalSteps == 100 && tracker.callbacks == [SetTaskProgress(taskId)]
      modifies this, tracker
      ensures Valid()
      ensures err == TargetRun(llm, store, p).error
      ensures tracker.reported == old(tracker.reported) + (if err.None? then [10, 100] else [10])
      ensures tasks.keys == old(tasks.keys)
      ensures tasks.entries == base[taskId := WithRun(t0, TargetRun(llm, store, p))]
    {
      ghost var m0 := tasks.entries;
      Report(taskId, tracker, 10, ProcessingProvince(p));
      var f := ProcessProvince(p, taskId, llm, store);
      ghost var w := ProvinceWalk(llm, store, p);
      ReportThenAppend(base, m0, taskId, t0, Run([], 5, VerifyingProvince(Some(p)), None), 10, ProcessingProvince(p),
                       w.visits, FailureToError(f));
      assert [] + w.visits == w.visits;
      if f.Some? {
        return Some(ServiceError(f.value));
      }
      ghost var m1 := tasks.entries;
      Report(taskId, tracker, 100, ProvinceRefreshDone(p));
      ReportOnRun(base, m1, taskId, t0, Run(w.visits, 10, ProcessingProvince(p), None), 100, ProvinceRefreshDone(p), None);
      err := None;
    }

    /** `_execute_refresh_task`: runs the refresh the task's type names (any
        other type is an error), then completes the task as succeeded, or as
        failed with the exception that ended it. An unknown id changes nothing. */
    method ExecuteRefreshTask(taskId: string, llm: Service, store: Store, now: int)
      requires Valid()
      modifies this
      ensures Valid()
      ensures tasks.keys == old(tasks.keys)
      ensures tasks.entries == if taskId in old(tasks.entries)
                               then old(tasks.entries)[taskId := Executed(old(tasks.entries[taskId]), llm, store, now)]
                               else old(tasks.entries)
    {
      if taskId !in tasks.entries {
        return;
      }
      ghost var base := tasks.entries;
      var t := tasks.entries[taskId];
      ghost var run := RunOf(t, llm, store);
      var tracker := new ProgressTracker(100);
      tracker.AddCallback(SetTaskProgress(taskId));
      var err: Option<TaskError>;
      if t.kind == "full" {
        err := ExecuteFullRefresh(taskId, tracker, llm, store);
      } else if t.kind == "province" {
        err := ExecuteProvinceRefresh(taskId, tracker, t.target, llm, store);
      } else {
        assert t.data + [] == t.data;
        assert base == base[taskId := WithRun(t, run)];
        err := Some(UnknownTaskType(t.kind));
      }
      ghost var m := tasks.entries;
      assert m == base[taskId := WithRun(t, run)] && err == run.error;
      if err.None? {
        CompleteTask(taskId, Succeeded, None, now);
      } else {
        CompleteTask(taskId, Failed, err, now);
      }
      UpdateTwice(base, m, taskId, WithRun(t, run), Executed(t, llm, store, now));
    }

    /** `_safe_call_with_retry`: at most `maxRetries` attempts; the first value
        is returned at once; after every failed attempt but the last it waits
        2^attempt seconds (the waits are returned, not slept); when every
        attempt raised, the last exception is raised again. Every exception
        kind is retried. */
    method SafeCallWithRetry(op: nat -> Result<seq<string>, string>, maxRetries: nat)
      returns (r: Retried, delays: seq<nat>)
      ensures r == Retry(op, maxRetries)
      ensures r.NoAttempt? <==> maxRetries == 0
      ensures r.Returned? ==> |delays| < maxRetries && op(|delays|) == Ok(r.value)
      ensures r.Raised? ==> |delays| == maxRetries - 1 && op(|delays|) == Err(r.error)
      ensures forall j :: 0 <= j < |delays| ==> op(j).Err? && delays[j] == Pow2(j)
    {
      delays := [];
      r := NoAttempt;
      var attempt := 0;
      while attempt < maxRetries
        invariant attempt == 0 || attempt < maxRetries
        invariant |delays| == attempt
        invariant forall j :: 0 <= j < attempt ==> op(j).Err? && delays[j] == Pow2(j)
        invariant attempt < maxRetries ==> Retry(op, maxRetries) == RetryFrom(op, attempt, maxRetries)
      {
        var out := op(attempt);
        if out.Ok? {
          r := Returned(out.value);
          return;
        }
        if attempt == maxRetries - 1 {
          r := Raised(out.error);
          return;
        }
        assert RetryFrom(op, attempt, maxRetries) == RetryFrom(op, attempt + 1, maxRetries);
        ghost var before := delays;
        delays := delays + [Pow2(attempt)];
        assert forall j :: 0 <= j < attempt ==> delays[j] == before[j];
        attempt := attempt + 1;
      }
    }
  }

  function CreatedAt(t: Task): int { t.createdAt }

  /** The tasks with the given status, in order; all of them when none is given. */
  function WithStatus(ts: seq<Task>, status: Option<TaskStatus>): (r: seq<Task>)
    ensures |r| <= |ts|
  {
    if ts == [] then []
    else if status.None? || ts[0].status == status.value then [ts[0]] + WithStatus(ts[1..], status)
    else WithStatus(ts[1..], status)
  }

  lemma {:induction false} WithStatusMembers(ts: seq<Task>, status: Option<TaskStatus>)
    ensures forall t :: t in WithStatus(ts, status) <==> t in ts && (status.None? || t.status == status.value)
  {
    if ts != [] {
      WithStatusMembers(ts[1..], status);
      assert ts == [ts[0]] + ts[1..];
    }
  }

  /** The keys whose tasks are pending or running, in order. */
  function ActiveKeys(keys: seq<string>, entries: map<string, Task>): seq<string>
  {
    if keys == [] then []
    else
      var rest := ActiveKeys(keys[..|keys| - 1], entries);
      var k := keys[|keys| - 1];
      if k in entries && IsActive(entries[k].status) then rest + [k] else rest
  }

  lemma {:induction false} ActiveKeysMembers(keys: seq<string>, entries: map<string, Task>)
    ensures forall id :: id in ActiveKeys(keys, entries) <==> id in keys && id in entries && IsActive(entries[id].status)
  {
    if keys != [] {
      ActiveKeysMembers(keys[..|keys| - 1], entries);
      assert keys == keys[..|keys| - 1] + [keys[|keys| - 1]];
    }
  }

  function SetOf(s: seq<string>): set<string> { set x | x in s }

  /** `now - hours * 3600` seconds, in microseconds. */
  function Cutoff(now: int, hours: int): int { now - hours * MicrosPerHour }

  /** The ids of tasks created before the cutoff. */
  function Expired(entries: map<string, Task>, cutoff: int): set<string>
  {
    set id | id in entries && entries[id].createdAt < cutoff
  }

  /** The tasks created at or after the cutoff. */
  function Kept(entries: map<string, Task>, cutoff: int): map<string, Task>
  {
    map id | id in entries && entries[id].createdAt >= cutoff :: entries[id]
  }

  lemma RemovedOlder(before: map<string, Task>, ids: seq<string>, cutoff: int)
    requires forall id :: id in ids <==> id in before && before[id].createdAt < cutoff
    ensures before - SetOf(ids) == Kept(before, cutoff)
    ensures SetOf(ids) == Expired(before, cutoff)
  {
  }

  /** The keys whose tasks were created before `cutoff`, in order. */
  function OlderKeys(keys: seq<string>, entries: map<string, Task>, cutoff: int): seq<string>
  {
    if keys == [] then []
    else
      var rest := OlderKeys(keys[..|keys| - 1], entries, cutoff);
      var k := keys[|keys| - 1];
      if k in entries && entries[k].createdAt < cutoff then rest + [k] else rest
  }

  lemma {:induction false} OlderKeysMembers(keys: seq<string>, entries: map<string, Task>, cutoff: int)
    requires PyDict.Distinct(keys)
    ensures forall id :: id in OlderKeys(keys, entries, cutoff) <==>
              id in keys && id in entries && entries[id].createdAt < cutoff
    ensures PyDict.Distinct(OlderKeys(keys, entries, cutoff))
  {
    if keys != [] {
      var init := keys[..|keys| - 1];
      assert PyDict.Distinct(init);
      OlderKeysMembers(init, entries, cutoff);
      assert keys == init + [keys[|keys| - 1]];
    }
  }
}
