/** The scheduler over whole runs of ticks (app/scheduler.py), on the tables of `Scheduler`. */
module SchedulerRuns {
  import opened Wrappers
  import opened IsoTime
  import opened Scheduler
  import U = UiSessions

  /** A slot is always later than the tick that sets it. */
  lemma NotDueAgain(f: Format, s: Source, now: Instant, end: Instant)
    requires f.OrdersByTime() && InRange(now)
    ensures !Due(Ran(f, s, now, end), f.iso(now))
  {
  }

  /** After a tick nothing at all is due at the instant of that tick. */
  lemma TickClearsDue(f: Format, sources: Sources, now: Instant, ends: int -> Instant)
    requires f.OrdersByTime() && InRange(now)
    ensures DueIds(RunSome(f, sources, now, DueIds(sources, f.iso(now)), ends), f.iso(now)) == {}
  {
    var after := RunSome(f, sources, now, DueIds(sources, f.iso(now)), ends);
    forall id | id in after ensures !Due(after[id], f.iso(now)) {
      NotDueAgain(f, sources[id], now, ends(id));
    }
  }

  /** `starts` and `ends` tell when the import of each source starts and ends, if the tick runs it. */
  datatype Event =
    | Tick(now: Instant, starts: int -> Instant, ends: int -> Instant)
    | Add(id: int, source: Source)
    | Remove(id: int)

  function Step(f: Format, sources: Sources, e: Event): Sources
    requires e.Tick? ==> InRange(e.now)
  {
    match e
    case Tick(now, _, ends) => RunSome(f, sources, now, DueIds(sources, f.iso(now)), ends)
    case Add(id, source) => sources[id := source]
    case Remove(id) => sources - {id}
  }

  /** The clock of the ticks never goes back, and a row id is never given twice (AUTOINCREMENT). */
  ghost predicate ProperRun(events: seq<Event>) {
    && (forall i :: 0 <= i < |events| && events[i].Tick? ==> InRange(events[i].now))
    && (forall i, j :: 0 <= i < j < |events| && events[i].Tick? && events[j].Tick? ==> events[i].now <= events[j].now)
    && (forall i, j :: 0 <= i < j < |events| && events[i].Add? && events[j].Add? ==> events[i].id != events[j].id)
  }

  /** The table before event n. */
  function After(f: Format, events: seq<Event>, n: nat): Sources
    requires n <= |events| && forall i :: 0 <= i < |events| && events[i].Tick? ==> InRange(events[i].now)
  {
    if n == 0 then map[] else Step(f, After(f, events, n - 1), events[n - 1])
  }

  /** Event n is a tick, and it runs the source. */
  predicate Runs(f: Format, events: seq<Event>, n: nat, id: int)
    requires n < |events| && forall i :: 0 <= i < |events| && events[i].Tick? ==> InRange(events[i].now)
  {
    events[n].Tick? && id in After(f, events, n) && Due(After(f, events, n)[id], f.iso(events[n].now))
  }

  predicate Adds(events: seq<Event>, c: nat, id: int) {
    c < |events| && events[c].Add? && events[c].id == id
  }

  /** What one event does to a source that was already there. */
  lemma StepSource(f: Format, events: seq<Event>, c: nat, n: nat, id: int)
    requires ProperRun(events) && Adds(events, c, id) && c < n < |events|
    ensures id in After(f, events, n + 1) <==> id in After(f, events, n) && events[n] != Remove(id)
    ensures id in After(f, events, n + 1) ==> (
      After(f, events, n + 1)[id] == if Runs(f, events, n, id)
        then Ran(f, After(f, events, n)[id], events[n].now, events[n].ends(id)) else After(f, events, n)[id])
  {
    assert events[n].Add? ==> events[n].id != id;
  }

  /** A source added without a first slot is never run, whatever its schedule says. */
  lemma {:induction false} ManualNeverRuns(f: Format, events: seq<Event>, c: nat, n: nat, id: int)
    requires ProperRun(events) && Adds(events, c, id) && c < n < |events| && events[c].source.nextRunAt.None?
    ensures id in After(f, events, n) ==> After(f, events, n)[id].nextRunAt.None?
    ensures !Runs(f, events, n, id)
  {
    if n > c + 1 {
      ManualNeverRuns(f, events, c, n - 1, id);
      StepSource(f, events, c, n - 1, id);
    }
  }

  /** The schedule a source is added with stays its schedule until it is wiped, and a cadence is never wiped. */
  lemma {:induction false} CadenceStays(f: Format, events: seq<Event>, c: nat, n: nat, id: int)
    requires ProperRun(events) && Adds(events, c, id) && c < n <= |events| && id in After(f, events, n)
    ensures Cadence(After(f, events, n)[id]) == Cadence(events[c].source)
  {
    if n > c + 1 {
      StepSource(f, events, c, n - 1, id);
      CadenceStays(f, events, c, n - 1, id);
    }
  }

  /**
   The source was run at event i (it was due before) and at no event since: its slot is one cadence after
   the tick, or there is none.
   */
  lemma {:induction false} SlotAfterRun(f: Format, events: seq<Event>, c: nat, i: nat, n: nat, id: int)
    requires ProperRun(events) && Adds(events, c, id) && c < i < n <= |events|
    requires Runs(f, events, i, id) && id in After(f, events, n)
    requires forall k :: i < k < n ==> !Runs(f, events, k, id)
    ensures After(f, events, n)[id].nextRunAt == match Cadence(events[c].source)
      case None => None
      case Some(d) => Some(f.iso(events[i].now + d))
    decreases n
  {
    StepSource(f, events, c, n - 1, id);
    if n == i + 1 {
      CadenceStays(f, events, c, i, id);
    } else {
      SlotAfterRun(f, events, c, i, n - 1, id);
    }
  }

  /** The last run of the source before n, if any. */
  ghost predicate LastRun(f: Format, events: seq<Event>, c: nat, n: nat, id: int, last: Option<nat>)
    requires n <= |events| && forall i :: 0 <= i < |events| && events[i].Tick? ==> InRange(events[i].now)
  {
    match last
    case None => forall k :: c < k < n ==> !Runs(f, events, k, id)
    case Some(i) => c < i < n && Runs(f, events, i, id) && forall k :: i < k < n ==> !Runs(f, events, k, id)
  }

  lemma {:induction false} FindLastRun(f: Format, events: seq<Event>, c: nat, n: nat,
                                       id: int) returns (last: Option<nat>)
    requires ProperRun(events) && c < n <= |events|
    ensures LastRun(f, events, c, n, id, last)
  {
    last := None;
    if n > c + 1 {
      if Runs(f, events, n - 1, id) {
        last := Some(n - 1);
      } else {
        last := FindLastRun(f, events, c, n - 1, id);
      }
    }
  }

  lemma {:induction false} FirstSlot(f: Format, events: seq<Event>, c: nat, n: nat, id: int)
    requires ProperRun(events) && Adds(events, c, id) && c < n <= |events| && id in After(f, events, n)
    requires forall k :: c < k < n ==> !Runs(f, events, k, id)
    ensures After(f, events, n)[id].nextRunAt == events[c].source.nextRunAt
  {
    if n > c + 1 {
      StepSource(f, events, c, n - 1, id);
      FirstSlot(f, events, c, n - 1, id);
    }
  }

  /** Whatever slot it was added with, a source without a cadence runs at most once. */
  lemma UnscheduledRunsOnce(f: Format, events: seq<Event>, c: nat, i: nat, j: nat, id: int)
    requires ProperRun(events) && Adds(events, c, id) && c < i < j < |events|
    requires Runs(f, events, i, id) && Cadence(events[c].source).None?
    ensures !Runs(f, events, j, id)
  {
    if Runs(f, events, j, id) {
      var last := FindLastRun(f, events, c, j, id);
      var l := last.value;
      SlotAfterRun(f, events, c, l, j, id);
    }
  }

  /**
   When a source without a cadence runs. Its slot is not ignored: the first tick that reaches the slot runs the
   source, and wipes the slot.
   */
  lemma UnscheduledRunsExactly(f: Format, events: seq<Event>, c: nat, n: nat, id: int, slot: Instant)
    requires f.OrdersByTime()
    requires ProperRun(events) && Adds(events, c, id) && c < n < |events| && events[n].Tick?
    requires Cadence(events[c].source).None? && events[c].source.nextRunAt == Some(f.iso(slot))
    requires forall k :: c < k < n ==> events[k] != Remove(id)
    ensures Runs(f, events, n, id) <==> (
      && slot <= events[n].now
      && forall i :: c < i < n && events[i].Tick? ==> events[i].now < slot)
  {
    StaysPresent(f, events, c, n, id);
    var last := FindLastRun(f, events, c, n, id);
    match last
    case None =>
      FirstSlot(f, events, c, n, id);
      forall i | c < i < n && events[i].Tick? ensures events[i].now < slot {
        StaysPresent(f, events, c, i, id);
        FirstSlot(f, events, c, i, id);
        assert !Runs(f, events, i, id);
      }
    case Some(l) =>
      SlotAfterRun(f, events, c, l, n, id);
      RunsNotBefore(f, events, c, l, id, slot);
  }

  /** A tick at the slot of a source that has just been added. */
  function FirstTick(id: int, source: Source, slot: Instant): seq<Event> {
    [Add(id, source), Tick(slot, _ => slot, _ => slot)]
  }

  /** It does happen: a source with a slot and no schedule is run. */
  lemma UnscheduledDoesRun(f: Format, id: int, source: Source, slot: Instant)
    requires f.OrdersByTime() && InRange(slot)
    requires Cadence(source).None? && source.nextRunAt == Some(f.iso(slot))
    ensures ProperRun(FirstTick(id, source, slot)) && Runs(f, FirstTick(id, source, slot), 1, id)
  {
    UnscheduledRunsExactly(f, FirstTick(id, source, slot), 0, 1, id, slot);
  }

  /** No run of ticks after the source was added ever runs it. */
  ghost predicate IgnoredForGood(f: Format, id: int, source: Source) {
    forall events: seq<Event>, n: nat ::
      ProperRun(events) && 0 < n < |events| && events[0] == Add(id, source) ==> !Runs(f, events, n, id)
  }

  /**
   The module promises to ignore a source without a schedule or without a slot. It does so exactly when there is no
   slot; the schedule plays no part.
   */
  lemma IgnoredIff(f: Format, id: int, source: Source, slot: Instant)
    requires f.OrdersByTime() && InRange(slot)
    requires source.nextRunAt.Some? ==> source.nextRunAt == Some(f.iso(slot))
    ensures IgnoredForGood(f, id, source) <==> source.nextRunAt.None?
  {
    if source.nextRunAt.None? {
      forall events: seq<Event>, n: nat | ProperRun(events) && 0 < n < |events| && events[0] == Add(id, source)
        ensures !Runs(f, events, n, id)
      {
        ManualNeverRuns(f, events, 0, n, id);
      }
    } else {
      var events := FirstTick(id, source, slot);
      assert ProperRun(events);
      assert Runs(f, events, 1, id) by {
        if Cadence(source).None? {
          UnscheduledDoesRun(f, id, source, slot);
        } else {
          RunsExactlyWhenDue(f, events, 0, 1, id, slot);
        }
      }
    }
  }

  /** Ticks that run one scheduled source are at least its cadence apart. */
  lemma {:induction false} TicksApart(f: Format, events: seq<Event>, c: nat, i: nat, j: nat, id: int)
    requires f.OrdersByTime()
    requires ProperRun(events) && Adds(events, c, id) && c < i < j < |events|
    requires Runs(f, events, i, id) && Runs(f, events, j, id)
    ensures Cadence(events[c].source).Some?
    ensures events[i].now + Cadence(events[c].source).value <= events[j].now
  {
    if Cadence(events[c].source).None? {
      UnscheduledRunsOnce(f, events, c, i, j, id);
    }
    var last := FindLastRun(f, events, c, j, id);
    SlotAfterRun(f, events, c, last.value, j, id);
    assert events[last.value].now + Cadence(events[c].source).value <= events[j].now;
    assert i <= last.value;
    assert events[i].now <= events[last.value].now;
  }

  /**
   When a scheduled source runs. In every run, a tick runs the source exactly when its first slot has come and
   every earlier tick that ran it is at least one cadence in the past: no run early, and none missed.
   */
  lemma RunsExactlyWhenDue(f: Format, events: seq<Event>, c: nat, n: nat, id: int, slot: Instant)
    requires f.OrdersByTime()
    requires ProperRun(events) && Adds(events, c, id) && c < n < |events| && events[n].Tick?
    requires Cadence(events[c].source).Some? && events[c].source.nextRunAt == Some(f.iso(slot))
    requires forall k :: c < k < n ==> events[k] != Remove(id)
    ensures Runs(f, events, n, id) <==> (
      && slot <= events[n].now
      && forall i :: c < i < n && Runs(f, events, i, id) ==>
           events[i].now + Cadence(events[c].source).value <= events[n].now)
  {
    StaysPresent(f, events, c, n, id);
    var last := FindLastRun(f, events, c, n, id);
    match last
    case None => FirstSlot(f, events, c, n, id);
    case Some(l) =>
      SlotAfterRun(f, events, c, l, n, id);
      RunsNotBefore(f, events, c, l, id, slot);
      forall i | c < i < n && Runs(f, events, i, id)
        ensures events[i].now <= events[l].now
      {
        assert i <= l;
      }
  }

  lemma {:induction false} StaysPresent(f: Format, events: seq<Event>, c: nat, n: nat, id: int)
    requires ProperRun(events) && Adds(events, c, id) && c < n <= |events|
    requires forall k :: c < k < n ==> events[k] != Remove(id)
    ensures id in After(f, events, n)
  {
    if n > c + 1 {
      StaysPresent(f, events, c, n - 1, id);
      StepSource(f, events, c, n - 1, id);
    }
  }

  lemma {:induction false} RunsNotBefore(f: Format, events: seq<Event>, c: nat, n: nat, id: int, slot: Instant)
    requires f.OrdersByTime()
    requires ProperRun(events) && Adds(events, c, id) && c < n < |events| && Runs(f, events, n, id)
    requires events[c].source.nextRunAt == Some(f.iso(slot))
    ensures slot <= events[n].now
  {
    var last := FindLastRun(f, events, c, n, id);
    match last
    case None => FirstSlot(f, events, c, n, id);
    case Some(l) =>
      RunsNotBefore(f, events, c, l, id, slot);
      assert events[l].now <= events[n].now;
  }

  // ---------------------------------------------------------------- the recorded start times

  /** The row of the k-th source a tick runs records when its import started. */
  lemma StartRecorded(f: Format, before: map<int, ImportRun>, after: map<int, ImportRun>, first: nat, touched: seq<int>,
                      results: int -> Import, tick: Event, k: nat)
    requires tick.Tick? && k < |touched|
    requires AddedRuns(f, before, after, first, touched, |touched|, results, tick.starts, tick.ends)
    ensures first + k in after && after[first + k].sourceId == touched[k]
    ensures after[first + k].startedAt == f.iso(tick.starts(touched[k]))
  {
    var id := touched[k];
    assert after[first + k] == ClosedRun(f, id, results(id), tick.starts(id), tick.ends(id));
  }

  lemma {:induction false} AfterPrefix(f: Format, events: seq<Event>, next: Event, n: nat)
    requires n <= |events| && ProperRun(events) && ProperRun(events + [next])
    ensures After(f, events + [next], n) == After(f, events, n)
  {
    if n > 0 {
      AfterPrefix(f, events, next, n - 1);
      assert (events + [next])[n - 1] == events[n - 1];
    }
  }

  /** A tick that may follow, and runs the source again: it begins no earlier than the import that ran before. */
  ghost predicate NextRun(f: Format, events: seq<Event>, next: Event, id: int, start: Instant) {
    && next.Tick? && start <= next.now <= next.starts(id)
    && ProperRun(events + [next]) && Runs(f, events + [next], |events|, id)
  }

  lemma NextRunApart(f: Format, events: seq<Event>, c: nat, id: int, next: Event, start: Instant)
    requires f.OrdersByTime() && ProperRun(events) && events != []
    requires var i := |events| - 1; Adds(events, c, id) && c < i && Runs(f, events, i, id)
    requires NextRun(f, events, next, id, start)
    ensures Cadence(events[c].source).Some?
    ensures events[|events| - 1].now + Cadence(events[c].source).value <= next.now
  {
    var i, all := |events| - 1, events + [next];
    AfterPrefix(f, events, next, i);
    assert all[i] == events[i] && all[c] == events[c] && all[i + 1] == next;
    TicksApart(f, all, c, i, i + 1, id);
  }

  /** The slot after the run can be met by a tick as soon as both the slot and the import have come. */
  lemma SlotIsMet(f: Format, events: seq<Event>, c: nat, id: int, next: Event)
    requires f.OrdersByTime() && ProperRun(events) && events != []
    requires var i := |events| - 1; Adds(events, c, id) && c < i && Runs(f, events, i, id)
    requires Cadence(events[c].source).Some? && next.Tick? && ProperRun(events + [next])
    requires events[|events| - 1].now + Cadence(events[c].source).value <= next.now
    ensures Runs(f, events + [next], |events|, id)
  {
    var i := |events| - 1;
    StepSource(f, events, c, i, id);
    SlotAfterRun(f, events, c, i, |events|, id);
    AfterPrefix(f, events, next, |events|);
    assert (events + [next])[|events|] == next;
  }

  /** Of two events of a run the earlier tick bounds every earlier one. */
  lemma ProperNext(events: seq<Event>, next: Event)
    requires ProperRun(events) && events != [] && events[|events| - 1].Tick?
    requires next.Tick? && InRange(next.now) && events[|events| - 1].now <= next.now
    ensures ProperRun(events + [next])
  {
    var all, m := events + [next], |events| - 1;
    forall i, j | 0 <= i < j < |all| && all[i].Tick? && all[j].Tick? ensures all[i].now <= all[j].now {
      if j == |events| && i < m {
        assert events[i].now <= events[m].now;
      }
    }
  }

  /**
   The recorded start of an import is later than its tick by the imports that ran before it in that tick, while the
   next slot is counted from the tick. So the next recorded start is a cadence later, whatever tick comes next,
   exactly when this import was not delayed.
   */
  lemma RecordedStartsApartIff(f: Format, events: seq<Event>, c: nat, id: int)
    requires f.OrdersByTime() && ProperRun(events) && events != []
    requires var i := |events| - 1; Adds(events, c, id) && c < i && Runs(f, events, i, id)
    requires Cadence(events[c].source).Some?
    requires var tick := events[|events| - 1];
      tick.now <= tick.starts(id) && InRange(tick.starts(id)) && U.Shift(tick.now, 14 * MICROS_PER_DAY).Some?
    ensures var tick := events[|events| - 1];
      var start, d := tick.starts(id), Cadence(events[c].source).value;
      (forall next: Event :: NextRun(f, events, next, id, start) ==> next.starts(id) - start >= d)
        <==> start == tick.now
  {
    var tick := events[|events| - 1];
    var start, d := tick.starts(id), Cadence(events[c].source).value;
    forall next: Event | NextRun(f, events, next, id, start) ensures tick.now + d <= next.starts(id) {
      NextRunApart(f, events, c, id, next, start);
    }
    if start > tick.now {
      var at: Instant := if start <= tick.now + d then tick.now + d else start;
      var next := Tick(at, _ => at, _ => at);
      ProperNext(events, next);
      SlotIsMet(f, events, c, id, next);
      assert NextRun(f, events, next, id, start) && next.starts(id) - start < d;
    }
  }

  const HALF_AN_HOUR: Instant := 30 * MICROS_PER_MINUTE
  const AN_HOUR: Instant := MICROS_PER_HOUR

  /** Two hourly sources: the import of the first takes half an hour, then nothing. */
  function TwoSources(source: Source): seq<Event> {
    [Add(1, source), Add(2, source),
     Tick(0, id => if id == 1 then 0 else HALF_AN_HOUR, _ => HALF_AN_HOUR),
     Tick(AN_HOUR, _ => AN_HOUR, _ => AN_HOUR)]
  }

  /** The second one is recorded as started at half past and again on the hour. */
  lemma RecordedHalfAnHourApart(f: Format, source: Source)
    requires f.OrdersByTime() && source.schedule == Some("hourly") && source.nextRunAt == Some(f.iso(0))
    ensures var events := TwoSources(source);
      && ProperRun(events) && Runs(f, events, 2, 2) && Runs(f, events, 3, 2)
      && events[3].starts(2) - events[2].starts(2) == HALF_AN_HOUR < Cadence(source).value
  {
    var events := TwoSources(source);
    assert Cadence(source) == Some(MICROS_PER_HOUR);
    RunsExactlyWhenDue(f, events, 1, 2, 2, 0);
    RunsExactlyWhenDue(f, events, 1, 3, 2, 0);
  }
}
