/**
 Scheduled imports: the source and run tables (app/storage/sqlite_store.py) and the tick that runs what is due
 (app/scheduler.py). Due times are text, and due is a text comparison.
 */
module Scheduler {
  import opened Wrappers
  import opened Text
  import opened IsoTime
  import U = UiSessions

  datatype Source = Source(title: string, kind: string, schedule: Option<string>, nextRunAt: Option<string>,
                           lastRunAt: Option<string>)

  datatype Status = Running | Succeeded | Failed

  datatype ImportRun = ImportRun(sourceId: int, startedAt: string, endedAt: Option<string>, status: Status,
                                 ingested: int, failed: int, errorMessage: Option<string>)

  /** What `run_import` does: returns its counts and perhaps an error, or raises. */
  datatype Import = Finished(ingested: int, failed: int, error: Option<string>) | Raised(message: string)

  /** SCHEDULE_DELTAS */
  function Delta(schedule: string): Option<nat> {
    if schedule == "hourly" then Some(MICROS_PER_HOUR)
    else if schedule == "6h" then Some(6 * MICROS_PER_HOUR)
    else if schedule == "daily" then Some(24 * MICROS_PER_HOUR)
    else if schedule == "weekly" then Some(7 * MICROS_PER_DAY)
    else None
  }

  /** The cadence of a source, or None when it is manual or its schedule is unknown. */
  function Cadence(s: Source): (c: Option<nat>)
    ensures c.Some? ==> MICROS_PER_HOUR <= c.value <= 7 * MICROS_PER_DAY
  {
    if s.schedule.Some? then Delta(s.schedule.value) else None
  }

  /** Seven days before the calendar ends; a later clock makes `compute_next_run_at` raise OverflowError. */
  predicate InRange(now: Instant) {
    U.Shift(now, 7 * MICROS_PER_DAY).Some?
  }

  /** `compute_next_run_at` */
  function ComputeNextRunAt(f: Format, schedule: Option<string>, now: Instant): Option<string>
    requires InRange(now)
  {
    if schedule.None? || Delta(schedule.value).None? then None
    else
      assert Delta(schedule.value).value <= 7 * MICROS_PER_DAY;
      Some(f.iso(now + Delta(schedule.value).value))
  }

  predicate Due(s: Source, nowIso: string) {
    s.nextRunAt.Some? && Leq(s.nextRunAt.value, nowIso)
  }

  type Sources = map<int, Source>

  function DueIds(sources: Sources, nowIso: string): set<int> {
    set id | id in sources && Due(sources[id], nowIso)
  }

  /** `_reschedule`: the next slot, or none for a source without a cadence. */
  function Rescheduled(f: Format, s: Source, now: Instant): Source
    requires InRange(now)
  {
    if Cadence(s).None? then s.(schedule := None, nextRunAt := None)
    else s.(nextRunAt := ComputeNextRunAt(f, s.schedule, now))
  }

  /** A row after the import of the source that was listed from it, which may have been edited since. */
  function AfterRun(f: Format, row: Source, listed: Source, now: Instant, end: Instant): Source
    requires InRange(now)
  {
    var next := Rescheduled(f, listed, now);
    row.(schedule := next.schedule, nextRunAt := next.nextRunAt, lastRunAt := Some(f.iso(end)))
  }

  /** A source after its import: the next slot, and when the run ended. */
  function Ran(f: Format, s: Source, now: Instant, end: Instant): Source
    requires InRange(now)
  {
    Rescheduled(f, s, now).(lastRunAt := Some(f.iso(end)))
  }

  /** The table after the sources `ids` were run at `now`. */
  function RunSome(f: Format, sources: Sources, now: Instant, ids: set<int>, ends: int -> Instant): Sources
    requires InRange(now)
  {
    map id | id in sources :: if id in ids then Ran(f, sources[id], now, ends(id)) else sources[id]
  }

  predicate Sorted(sources: Sources, due: seq<int>) {
    && (forall k :: 0 <= k < |due| ==> due[k] in sources && sources[due[k]].nextRunAt.Some?)
    && forall j, k :: 0 <= j < k < |due| ==> Leq(sources[due[j]].nextRunAt.value, sources[due[k]].nextRunAt.value)
  }

  /** Each due source once, the longest due first. */
  predicate IsDueList(sources: Sources, nowIso: string, due: seq<int>) {
    && Sorted(sources, due)
    && (forall j, k :: 0 <= j < k < |due| ==> due[j] != due[k])
    && (forall k :: 0 <= k < |due| ==> due[k] in DueIds(sources, nowIso))
    && (forall id :: id in DueIds(sources, nowIso) ==> id in due)
  }

  /** What the list of due sources is: each source whose slot is not past the instant once, the earliest slot first. */
  lemma DueListMeans(sources: Sources, nowIso: string, due: seq<int>)
    requires IsDueList(sources, nowIso, due)
    ensures forall id :: id in due <==>
      id in sources && sources[id].nextRunAt.Some? && !Less(nowIso, sources[id].nextRunAt.value)
    ensures forall j, k :: 0 <= j < k < |due| ==> (
      due[j] != due[k] && !Less(sources[due[k]].nextRunAt.value, sources[due[j]].nextRunAt.value))
  {
    forall id ensures id in due <==> id in DueIds(sources, nowIso) {
    }
  }

  lemma LeqTransitive(a: string, b: string, c: string)
    requires Leq(a, b) && Leq(b, c)
    ensures Leq(a, c)
  {
    LessTotal(a, b);
    LessTotal(b, c);
    if Less(c, a) {
      if a != b { LessTransitive(c, a, b); }
    }
  }

  lemma SomeId(ids: set<int>) returns (id: int)
    requires ids != {}
    ensures id in ids
  {
    if forall x :: x !in ids { assert false; }
    id :| id in ids;
  }

  /** Among due times there is always an earliest. */
  lemma {:induction false} Earliest(sources: Sources, ids: set<int>) returns (first: int)
    requires ids != {}
    requires forall id :: id in ids ==> id in sources && sources[id].nextRunAt.Some?
    ensures first in ids
    ensures forall j :: j in ids ==> Leq(sources[first].nextRunAt.value, sources[j].nextRunAt.value)
    decreases ids
  {
    var x := SomeId(ids);
    LessIrreflexive(sources[x].nextRunAt.value);
    first := x;
    var rest := ids - {x};
    assert forall j :: j in ids ==> j == x || j in rest;
    if rest != {} {
      var y := Earliest(sources, rest);
      var tx, ty := sources[x].nextRunAt.value, sources[y].nextRunAt.value;
      if Leq(ty, tx) {
        first := y;
      } else {
        LessAsLeq(tx, ty);
        forall j | j in rest ensures Leq(tx, sources[j].nextRunAt.value) {
          LeqTransitive(tx, ty, sources[j].nextRunAt.value);
        }
      }
    }
  }

  lemma LessAsLeq(a: string, b: string)
    requires Less(a, b)
    ensures Leq(a, b)
  {
    if Less(b, a) {
      LessTransitive(a, b, a);
      LessIrreflexive(a);
    }
  }

  /** The row a finished import leaves behind. */
  function ClosedRun(f: Format, sourceId: int, result: Import, startedAt: Instant, endedAt: Instant): ImportRun {
    match result
    case Raised(message) =>
      ImportRun(sourceId, f.iso(startedAt), Some(f.iso(endedAt)), Failed, 0, 0, Some(message))
    case Finished(ingested, failed, error) =>
      ImportRun(sourceId, f.iso(startedAt), Some(f.iso(endedAt)),
                if error.Some? && error.value != "" then Failed else Succeeded, ingested, failed, error)
  }

  /** The cadences that can be chosen, in seconds; any other schedule has none. */
  lemma Cadences(s: Source)
    ensures Cadence(s) ==
      if s.schedule == Some("hourly") then Some(3600 * 1000000)
      else if s.schedule == Some("6h") then Some(6 * 3600 * 1000000)
      else if s.schedule == Some("daily") then Some(86400 * 1000000)
      else if s.schedule == Some("weekly") then Some(7 * 86400 * 1000000)
      else None
  {
  }

  /** The next slot is one cadence past the tick, not past the import; without a cadence both columns are wiped. */
  lemma NextSlot(f: Format, s: Source, now: Instant)
    requires InRange(now)
    ensures match Cadence(s)
      case None => Rescheduled(f, s, now) == s.(schedule := None, nextRunAt := None)
      case Some(cadence) => Rescheduled(f, s, now) == s.(nextRunAt := Some(f.iso(now + cadence)))
  {
  }

  /** What a closed run records: it failed exactly when the import raised or returned an error, with its message. */
  lemma RunClosed(f: Format, sourceId: int, result: Import, startedAt: Instant, endedAt: Instant)
    ensures var run := ClosedRun(f, sourceId, result, startedAt, endedAt);
      && run.sourceId == sourceId && run.startedAt == f.iso(startedAt) && run.endedAt == Some(f.iso(endedAt))
      && (run.status.Failed? <==> result.Raised? || (result.error.Some? && result.error.value != ""))
      && (run.status.Failed? || run.status.Succeeded?)
      && (match result
          case Raised(message) => run.ingested == run.failed == 0 && run.errorMessage == Some(message)
          case Finished(ingested, failed, error) =>
            run.ingested == ingested && run.failed == failed && run.errorMessage == error)
  {
  }

  class ImportStore {
    const f: Format
    var sources: Sources
    var runs: map<int, ImportRun>
    var nextRunId: nat

    ghost predicate Valid()
      reads this
    {
      forall id :: id in runs ==> id < nextRunId
    }

    constructor (format: Format)
      ensures f == format && sources == map[] && runs == map[] && Valid()
    {
      f, sources, runs, nextRunId := format, map[], map[], 0;
    }

    /** `list_due_import_sources`; rows due at the same time come in any order. */
    method ListDue(nowIso: string) returns (due: seq<int>)
      ensures IsDueList(sources, nowIso, due)
    {
      due := [];
      var left := DueIds(sources, nowIso);
      while left != {}
        invariant left <= DueIds(sources, nowIso)
        invariant Sorted(sources, due)
        invariant forall j, k :: 0 <= j < k < |due| ==> due[j] != due[k]
        invariant forall k :: 0 <= k < |due| ==> due[k] in DueIds(sources, nowIso) && due[k] !in left
        invariant forall id :: id in DueIds(sources, nowIso) ==> id in left || id in due
        invariant forall k, id :: 0 <= k < |due| && id in left ==>
          Leq(sources[due[k]].nextRunAt.value, sources[id].nextRunAt.value)
        decreases left
      {
        ghost var first := Earliest(sources, left);
        var id :| id in left && forall j :: j in left ==> Leq(sources[id].nextRunAt.value, sources[j].nextRunAt.value);
        due := due + [id];
        left := left - {id};
      }
    }

    /** `set_import_source_schedule`; returns whether the row existed. */
    method SetSchedule(id: int, schedule: Option<string>, nextRunAt: Option<string>) returns (found: bool)
      modifies this`sources
      ensures found <==> id in old(sources)
      ensures sources == if found
        then old(sources)[id := old(sources)[id].(schedule := schedule, nextRunAt := nextRunAt)] else old(sources)
    {
      found := id in sources;
      if found {
        sources := sources[id := sources[id].(schedule := schedule, nextRunAt := nextRunAt)];
      }
    }

    /** `start_import_run` */
    method StartRun(sourceId: int, at: Instant) returns (runId: int)
      requires Valid()
      modifies this`runs, this`nextRunId
      ensures Valid() && runId == old(nextRunId) && nextRunId == old(nextRunId) + 1
      ensures runs == old(runs)[runId := ImportRun(sourceId, f.iso(at), None, Running, 0, 0, None)]
    {
      runId := nextRunId;
      runs := runs[runId := ImportRun(sourceId, f.iso(at), None, Running, 0, 0, None)];
      nextRunId := nextRunId + 1;
    }

    /** `finish_import_run`; an unknown run changes nothing. */
    method FinishRun(runId: int, status: Status, ingested: int, failed: int, error: Option<string>, at: Instant)
      requires Valid()
      modifies this`runs, this`sources
      ensures Valid()
      ensures runId !in old(runs) ==> runs == old(runs) && sources == old(sources)
      ensures runId in old(runs) ==> (
        && runs == old(runs)[runId := old(runs)[runId].(endedAt := Some(f.iso(at)), status := status,
             ingested := ingested, failed := failed, errorMessage := error)]
        && var id := old(runs)[runId].sourceId;
           sources == if id in old(sources) then old(sources)[id := old(sources)[id].(lastRunAt := Some(f.iso(at)))]
                      else old(sources))
    {
      if runId !in runs {
        return;
      }
      runs := runs[runId := runs[runId].(endedAt := Some(f.iso(at)), status := status, ingested := ingested,
                                         failed := failed, errorMessage := error)];
      var id := runs[runId].sourceId;
      if id in sources {
        sources := sources[id := sources[id].(lastRunAt := Some(f.iso(at)))];
      }
    }
  }

  class Scheduler {
    const store: ImportStore

    constructor (s: ImportStore)
      ensures store == s
    {
      store := s;
    }

    /** `_reschedule`, with the source as it was listed. */
    method Reschedule(id: int, source: Source, now: Instant)
      requires InRange(now)
      modifies store`sources
      ensures store.sources == if id in old(store.sources)
        then var row := old(store.sources)[id];
             var next := Rescheduled(store.f, source, now);
             old(store.sources)[id := row.(schedule := next.schedule, nextRunAt := next.nextRunAt)]
        else old(store.sources)
    {
      if Cadence(source).None? {
        var _ := store.SetSchedule(id, None, None);
        return;
      }
      var nextIso := ComputeNextRunAt(store.f, source.schedule, now);
      var _ := store.SetSchedule(id, source.schedule, nextIso);
    }

    /**
     `_run_one`, with the source as it was listed: whatever the import does, its run is closed and the source, if
     it is still there, gets its next slot.
     */
    method RunOne(id: int, source: Source, now: Instant, result: Import, startedAt: Instant, endedAt: Instant)
      requires store.Valid() && InRange(now)
      modifies store
      ensures store.Valid() && store.nextRunId == old(store.nextRunId) + 1
      ensures store.runs == old(store.runs)[old(store.nextRunId) := ClosedRun(store.f, id, result, startedAt, endedAt)]
      ensures store.sources == if id in old(store.sources)
        then old(store.sources)[id := AfterRun(store.f, old(store.sources)[id], source, now, endedAt)]
        else old(store.sources)
    {
      var runId := store.StartRun(id, startedAt);
      match result {
        case Raised(message) =>
          store.FinishRun(runId, Failed, 0, 0, Some(message), endedAt);
          Reschedule(id, source, now);
          return;
        case Finished(ingested, failed, error) =>
          var status := if error.Some? && error.value != "" then Failed else Succeeded;
          store.FinishRun(runId, status, ingested, failed, error, endedAt);
          Reschedule(id, source, now);
      }
    }

    /**
     `run_pending`. The import of a source ends as `results` says, between `starts` and `ends`. Exactly the due
     sources are run, once each and oldest first; every run is closed; every source that ran has its next slot
     and the others are untouched.
     */
    method RunPending(now: Instant, results: int -> Import, starts: int -> Instant, ends: int -> Instant)
      returns (touched: seq<int>)
      requires store.Valid() && InRange(now)
      modifies store
      ensures store.Valid() && IsDueList(old(store.sources), store.f.iso(now), touched)
      ensures store.sources
        == RunSome(store.f, old(store.sources), now, DueIds(old(store.sources), store.f.iso(now)), ends)
      ensures AddedRuns(store.f, old(store.runs), store.runs, old(store.nextRunId), touched, |touched|, results, starts,
                        ends)
    {
      ghost var sources0, runs0, first := store.sources, store.runs, store.nextRunId;
      touched := store.ListDue(store.f.iso(now));
      var listed := store.sources;
      ghost var ran: set<int> := {};
      for k := 0 to |touched|
        invariant store.Valid() && store.nextRunId == first + k
        invariant forall id :: id in ran <==> id in touched[..k]
        invariant store.sources == RunSome(store.f, sources0, now, ran, ends)
        invariant AddedRuns(store.f, runs0, store.runs, first, touched, k, results, starts, ends)
      {
        var id := touched[k];
        NotYetRun(touched, k);
        RunOneMore(store.f, sources0, now, ran, ends, id);
        AddedRun(store.f, runs0, store.runs, first, touched, k, results, starts, ends);
        RunOne(id, listed[id], now, results(id), starts(id), ends(id));
        TakenOneMore(touched, k);
        ran := ran + {id};
      }
      SameIds(ran, sources0, store.f.iso(now), touched);
    }
  }

  lemma NotYetRun(touched: seq<int>, k: nat)
    requires k < |touched| && forall i, j :: 0 <= i < j < |touched| ==> touched[i] != touched[j]
    ensures touched[k] !in touched[..k]
  {
  }

  lemma TakenOneMore(touched: seq<int>, k: nat)
    requires k < |touched|
    ensures forall id :: id in touched[..k + 1] <==> id in touched[..k] || id == touched[k]
  {
    assert touched[..k + 1] == touched[..k] + [touched[k]];
  }

  lemma SameIds(ran: set<int>, sources: Sources, nowIso: string, touched: seq<int>)
    requires IsDueList(sources, nowIso, touched)
    requires forall id :: id in ran <==> id in touched[..|touched|]
    ensures ran == DueIds(sources, nowIso)
  {
    assert touched[..|touched|] == touched;
    forall id ensures id in ran <==> id in DueIds(sources, nowIso) {
    }
  }

  lemma RunOneMore(f: Format, sources: Sources, now: Instant, ran: set<int>, ends: int -> Instant, id: int)
    requires InRange(now) && id in sources && id !in ran
    ensures RunSome(f, sources, now, ran, ends)[id] == sources[id]
    ensures RunSome(f, sources, now, ran + {id}, ends)
      == RunSome(f, sources, now, ran, ends)[id := Ran(f, sources[id], now, ends(id))]
  {
  }

  /** The first k sources of the list each have one new run, closed with its result; no other run changed. */
  ghost predicate AddedRuns(f: Format, before: map<int, ImportRun>, after: map<int, ImportRun>, first: nat,
                            touched: seq<int>, k: nat, results: int -> Import, starts: int -> Instant,
                            ends: int -> Instant)
  {
    && k <= |touched|
    && (forall j :: 0 <= j < k ==> (
          && first + j in after
          && after[first + j] == ClosedRun(f, touched[j], results(touched[j]), starts(touched[j]), ends(touched[j]))))
    && (forall id :: id in after <==> id in before || first <= id < first + k)
    && (forall id :: id in before && id < first ==> after[id] == before[id])
  }

  lemma AddedRun(f: Format, before: map<int, ImportRun>, after: map<int, ImportRun>, first: nat, touched: seq<int>,
                 k: nat,
                 results: int -> Import, starts: int -> Instant, ends: int -> Instant)
    requires AddedRuns(f, before, after, first, touched, k, results, starts, ends) && k < |touched|
    ensures var id := touched[k];
      AddedRuns(f, before, after[first + k := ClosedRun(f, id, results(id), starts(id), ends(id))],
                first, touched, k + 1, results, starts, ends)
  {
  }

  /** No run a tick starts is left running, whether its import returned or raised. */
  lemma NoneLeftRunning(f: Format, before: map<int, ImportRun>, after: map<int, ImportRun>, first: nat,
                        touched: seq<int>, results: int -> Import, starts: int -> Instant, ends: int -> Instant)
    requires AddedRuns(f, before, after, first, touched, |touched|, results, starts, ends)
    requires forall id :: id in before ==> id < first
    ensures forall id :: id in after && after[id].status.Running? ==> id in before && before[id].status.Running?
    ensures forall id :: id in after && id !in before ==> after[id].endedAt.Some?
  {
    forall id | id in after && id !in before
      ensures !after[id].status.Running? && after[id].endedAt.Some?
    {
      var j := id - first;
      assert after[first + j] == ClosedRun(f, touched[j], results(touched[j]), starts(touched[j]), ends(touched[j]));
    }
  }
}
