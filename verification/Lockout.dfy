/** The 401 lockout (app/rate_limit/lockout.py) and the middleware around it (app/main.py). */
module Lockout {
  import opened Windows
  import opened Text

  type Events = map<string, seq<real>>

  function BucketOf(events: Events, subject: string): seq<real> {
    if subject in events then events[subject] else []
  }

  datatype Policy = Policy(threshold: nat, windowSeconds: int) {
    predicate Valid() {
      windowSeconds >= 1
    }

    function Window(): real {
      windowSeconds as real
    }

    function Pruned(bucket: seq<real>, now: real): seq<real> {
      DropOld(bucket, now - Window(), false)
    }

    predicate Locked(events: Events, subject: string, now: real) {
      threshold > 0 && |Pruned(BucketOf(events, subject), now)| >= threshold
    }

    function Checked(events: Events, subject: string, now: real): Events {
      if threshold > 0 && BucketOf(events, subject) != []
      then events[subject := Pruned(BucketOf(events, subject), now)] else events
    }

    function Recorded(events: Events, subject: string, now: real): Events {
      if threshold > 0 then events[subject := Pruned(BucketOf(events, subject), now) + [now]] else events
    }
  }

  class PublicAuthLockout {
    const policy: Policy
    var events: Events

    constructor (threshold: int, windowSeconds: int)
      ensures policy == Policy(if threshold > 0 then threshold else 0, if windowSeconds > 1 then windowSeconds else 1)
      ensures policy.Valid() && events == map[]
    {
      policy := Policy(if threshold > 0 then threshold else 0, if windowSeconds > 1 then windowSeconds else 1);
      events := map[];
    }

    /** `_evict` */
    method Evict(subject: string, now: real)
      requires subject in events
      modifies this`events
      ensures events == old(events)[subject := policy.Pruned(old(events)[subject], now)]
    {
      var bucket, cutoff := events[subject], now - policy.Window();
      while bucket != [] && bucket[0] <= cutoff
        invariant policy.Pruned(bucket, now) == policy.Pruned(events[subject], now)
      {
        bucket := bucket[1..];
      }
      assert bucket == policy.Pruned(events[subject], now);
      events := events[subject := bucket];
    }

    method RecordFailure(subject: string, now: real)
      modifies this`events
      ensures events == policy.Recorded(old(events), subject, now)
    {
      if policy.threshold <= 0 {
        return;
      }
      if subject !in events {
        events := events[subject := []];
      }
      Evict(subject, now);
      events := events[subject := events[subject] + [now]];
    }

    method IsLocked(subject: string, now: real) returns (locked: bool)
      modifies this`events
      ensures locked <==> policy.Locked(old(events), subject, now)
      ensures events == policy.Checked(old(events), subject, now)
    {
      if policy.threshold <= 0 {
        return false;
      }
      if subject !in events || events[subject] == [] {
        return false;
      }
      Evict(subject, now);
      locked := |events[subject]| >= policy.threshold;
    }

    method Reset(subject: string)
      modifies this`events
      ensures events == old(events) - {subject}
    {
      events := events - {subject};
    }
  }

  /** The queue with the times that left the half-open window dropped, and `added` behind them. */
  predicate IsWindowOf(queue: seq<real>, bucket: seq<real>, start: real, added: seq<real>) {
    exists k :: 0 <= k <= |bucket| && queue == bucket[k..] + added
      && forall i :: 0 <= i < |bucket| ==> (bucket[i] > start <==> i >= k)
  }

  lemma PrunedIsWindow(policy: Policy, bucket: seq<real>, now: real, added: seq<real>)
    requires Ascending(bucket)
    ensures IsWindowOf(policy.Pruned(bucket, now) + added, bucket, now - policy.windowSeconds as real, added)
  {
    var left := policy.Pruned(bucket, now);
    DropOldMeans(bucket, now - policy.windowSeconds as real, false);
    assert bucket[|bucket| - |left|..] == left;
  }

  /** A failure forgets the times of its subject outside the window and adds its own, and touches no other subject. */
  lemma RecordMeans(policy: Policy, events: Events, subject: string, now: real)
    requires policy.threshold > 0 && Ascending(BucketOf(events, subject))
    ensures var stored := policy.Recorded(events, subject, now);
      && IsWindowOf(BucketOf(stored, subject), BucketOf(events, subject), now - policy.windowSeconds as real, [now])
      && forall other :: other != subject ==> BucketOf(stored, other) == BucketOf(events, other)
  {
    PrunedIsWindow(policy, BucketOf(events, subject), now, [now]);
  }

  /** A check forgets them too. */
  lemma CheckMeans(policy: Policy, events: Events, subject: string, now: real)
    requires policy.threshold > 0 && Ascending(BucketOf(events, subject))
    ensures var stored := policy.Checked(events, subject, now);
      && IsWindowOf(BucketOf(stored, subject), BucketOf(events, subject), now - policy.windowSeconds as real, [])
      && forall other :: other != subject ==> BucketOf(stored, other) == BucketOf(events, other)
  {
    var bucket := BucketOf(events, subject);
    PrunedIsWindow(policy, bucket, now, []);
    assert policy.Pruned(bucket, now) + [] == policy.Pruned(bucket, now);
    if bucket == [] {
      assert policy.Pruned(bucket, now) == [];
    }
  }

  // ---------------------------------------------------------------- the queue and the full history

  /** From the window that ends now on, the queue of the subject shows what its full failure history shows. */
  ghost predicate Tells(policy: Policy, events: Events, subject: string, history: seq<real>, now: real) {
    SameRecent(BucketOf(events, subject), history, now - policy.Window(), now, false)
  }

  lemma TellsLater(policy: Policy, events: Events, subject: string, history: seq<real>, now: real, later: real)
    requires Tells(policy, events, subject, history, now) && now <= later
    ensures Tells(policy, events, subject, history, later)
  {
  }

  lemma CheckTells(policy: Policy, events: Events, subject: string, history: seq<real>, now: real, checked: string)
    requires Tells(policy, events, subject, history, now)
    ensures Tells(policy, policy.Checked(events, checked, now), subject, history, now)
  {
    var bound := now - policy.Window();
    PruneSame(BucketOf(events, subject), history, bound, bound, now, false);
  }

  /** How many times lie in the half-open window that ends now, or later. */
  function RecentCount(policy: Policy, history: seq<real>, now: real): nat {
    |Keep(history, now - policy.Window(), false)|
  }

  lemma LockTells(policy: Policy, events: Events, subject: string, history: seq<real>, now: real)
    requires Tells(policy, events, subject, history, now)
    ensures policy.Locked(events, subject, now)
      <==> policy.threshold > 0 && RecentCount(policy, history, now) >= policy.threshold
  {
    var bound := now - policy.Window();
    PruneSame(BucketOf(events, subject), history, bound, bound, now, false);
  }

  lemma RecordTells(policy: Policy, events: Events, subject: string, history: seq<real>, now: real)
    requires Tells(policy, events, subject, history, now) && policy.threshold > 0
    ensures Tells(policy, policy.Recorded(events, subject, now), subject, history + [now], now)
  {
    var bucket, bound := BucketOf(events, subject), now - policy.Window();
    PruneSame(bucket, history, bound, bound, now, false);
    AppendSame(policy.Pruned(bucket, now), history, bound, now, false);
  }

  lemma OtherRecordTells(policy: Policy, events: Events, subject: string, history: seq<real>, now: real, other: string)
    requires Tells(policy, events, subject, history, now) && other != subject
    ensures Tells(policy, policy.Recorded(events, other, now), subject, history, now)
  {
    assert BucketOf(policy.Recorded(events, other, now), subject) == BucketOf(events, subject);
  }

  // ---------------------------------------------------------------- runs of the store

  datatype Call =
    | Record(subject: string, at: real)
    | Check(subject: string, at: real)
    | Reset(subject: string, at: real)

  predicate ClockRuns(calls: seq<Call>) {
    forall i, j :: 0 <= i < j < |calls| ==> calls[i].at <= calls[j].at
  }

  function Step(policy: Policy, events: Events, call: Call): Events {
    match call
    case Record(subject, at) => policy.Recorded(events, subject, at)
    case Check(subject, at) => policy.Checked(events, subject, at)
    case Reset(subject, _) => events - {subject}
  }

  function After(policy: Policy, calls: seq<Call>, n: nat): Events
    requires n <= |calls|
  {
    if n == 0 then map[] else Step(policy, After(policy, calls, n - 1), calls[n - 1])
  }

  /** Every failure of the subject since its last reset; nothing is evicted here. */
  function Failures(calls: seq<Call>, n: nat, subject: string): seq<real>
    requires n <= |calls|
  {
    if n == 0 then []
    else
      var call, before := calls[n - 1], Failures(calls, n - 1, subject);
      if call.subject != subject || call.Check? then before
      else if call.Record? then before + [call.at]
      else []
  }

  lemma StepTells(policy: Policy, events: Events, call: Call, subject: string, history: seq<real>)
    requires Tells(policy, events, subject, history, call.at) && policy.threshold > 0
    ensures Tells(policy, Step(policy, events, call), subject,
                  if call.subject != subject || call.Check? then history
                  else if call.Record? then history + [call.at] else [], call.at)
  {
    if call.Check? {
      CheckTells(policy, events, subject, history, call.at, call.subject);
    } else if call.Record? && call.subject == subject {
      RecordTells(policy, events, subject, history, call.at);
    } else if call.Record? {
      OtherRecordTells(policy, events, subject, history, call.at, call.subject);
    } else if call.subject == subject {
      assert BucketOf(events - {subject}, subject) == [];
    } else {
      assert BucketOf(events - {call.subject}, subject) == BucketOf(events, subject);
    }
  }

  lemma {:induction false} StoreTells(policy: Policy, calls: seq<Call>, n: nat, subject: string, now: real)
    requires ClockRuns(calls) && n <= |calls| && policy.threshold > 0
    requires n > 0 ==> calls[n - 1].at <= now
    ensures Tells(policy, After(policy, calls, n), subject, Failures(calls, n, subject), now)
  {
    if n > 0 {
      assert n > 1 ==> calls[n - 2].at <= calls[n - 1].at;
      StoreTells(policy, calls, n - 1, subject, calls[n - 1].at);
      StepTells(policy, After(policy, calls, n - 1), calls[n - 1], subject, Failures(calls, n - 1, subject));
      TellsLater(policy, After(policy, calls, n), subject, Failures(calls, n, subject), calls[n - 1].at, now);
    }
  }

  lemma LockedAt(policy: Policy, calls: seq<Call>, n: nat, subject: string, now: real)
    requires ClockRuns(calls) && n <= |calls| && policy.threshold > 0
    requires n > 0 ==> calls[n - 1].at <= now
    ensures policy.Locked(After(policy, calls, n), subject, now)
      <==> RecentCount(policy, Failures(calls, n, subject), now) >= policy.threshold
  {
    StoreTells(policy, calls, n, subject, now);
    LockTells(policy, After(policy, calls, n), subject, Failures(calls, n, subject), now);
  }

  lemma LockedNow(policy: Policy, calls: seq<Call>, n: nat)
    requires ClockRuns(calls) && n < |calls| && calls[n].Check?
    ensures policy.Locked(After(policy, calls, n), calls[n].subject, calls[n].at)
      <==> policy.threshold > 0
           && RecentCount(policy, Failures(calls, n, calls[n].subject), calls[n].at) >= policy.threshold
  {
    if policy.threshold > 0 {
      assert n > 0 ==> calls[n - 1].at <= calls[n].at;
      LockedAt(policy, calls, n, calls[n].subject, calls[n].at);
    }
  }

  /**
   Eviction never changes an answer. In every run of calls `is_locked` answers as if every failure since the
   last reset were still there and counted over the last half-open window; a threshold of 0 never locks.
   */
  lemma LockedExactly(policy: Policy, calls: seq<Call>, n: nat)
    requires ClockRuns(calls) && n < |calls| && calls[n].Check?
    ensures var times := Failures(calls, n, calls[n].subject);
      policy.Locked(After(policy, calls, n), calls[n].subject, calls[n].at)
      <==> (policy.threshold > 0
            && CountAfter(times, calls[n].at - policy.windowSeconds as real) >= policy.threshold)
  {
    LockedNow(policy, calls, n);
    KeepAfter(Failures(calls, n, calls[n].subject), calls[n].at - policy.windowSeconds as real);
  }

  // ---------------------------------------------------------------- the middleware

  datatype Request = Request(ip: string, path: string) {
    predicate IsPublic() {
      StartsWith(path, "/v1/")
    }
  }

  datatype Server = Server(events: Events, inFlight: map<int, Request>)

  const IDLE := Server(map[], map[])

  datatype Moment =
    | Arrive(at: real, id: int, request: Request)
    | Answer(at: real, id: int, status: int)

  /** `public_auth_lockout_middleware`, up to `call_next` and from there on. */
  function Next(policy: Policy, s: Server, m: Moment): Server {
    match m
    case Arrive(at, id, request) =>
      if !request.IsPublic() then s.(inFlight := s.inFlight[id := request])
      else
        var checked := s.(events := policy.Checked(s.events, request.ip, at));
        if policy.Locked(s.events, request.ip, at) then checked
        else checked.(inFlight := s.inFlight[id := request])
    case Answer(at, id, status) =>
      if id !in s.inFlight then s
      else
        var request := s.inFlight[id];
        Server(if request.IsPublic() && status == 401 then policy.Recorded(s.events, request.ip, at) else s.events,
               s.inFlight - {id})
  }

  function State(policy: Policy, run: seq<Moment>, n: nat): Server
    requires n <= |run|
  {
    if n == 0 then IDLE else Next(policy, State(policy, run, n - 1), run[n - 1])
  }

  /** The requests of one address the handlers are working on. */
  function Working(s: Server, ip: string): set<int> {
    set id | id in s.inFlight && s.inFlight[id].ip == ip && s.inFlight[id].IsPublic()
  }

  predicate ProperRun(policy: Policy, run: seq<Moment>) {
    && (forall i, j :: 0 <= i < j < |run| ==> run[i].at <= run[j].at)
    && (forall n :: 0 <= n < |run| && run[n].Arrive? ==> run[n].id !in State(policy, run, n).inFlight)
  }

  /** The times of all 401s of the address on public paths. */
  function Unauthorized(policy: Policy, run: seq<Moment>, n: nat, ip: string): seq<real>
    requires n <= |run|
  {
    if n == 0 then []
    else
      Unauthorized(policy, run, n - 1, ip)
      + (if Fails(State(policy, run, n - 1), run[n - 1], ip) then [run[n - 1].at] else [])
  }

  predicate Fails(s: Server, m: Moment, ip: string) {
    m.Answer? && m.status == 401 && m.id in Working(s, ip)
  }

  predicate Refuses(policy: Policy, s: Server, m: Moment) {
    m.Arrive? && m.request.IsPublic() && policy.Locked(s.events, m.request.ip, m.at)
  }

  /** How many times lie in the half-open window that starts at `start`. */
  function Load(policy: Policy, history: seq<real>, start: real): nat {
    CountAfterTo(history, start, start + policy.windowSeconds as real)
  }

  /** How many more 401s a window can take: those under way are counted before they fail. */
  ghost predicate Bounded(policy: Policy, s: Server, history: seq<real>, ip: string, now: real, most: int) {
    && Tells(policy, s.events, ip, history, now)
    && (forall bound :: bound >= now - policy.Window() ==> |Keep(history, bound, false)| + |Working(s, ip)| <= most)
    && (forall start :: Load(policy, history, start) <= most)
  }

  lemma BoundedLater(policy: Policy, s: Server, history: seq<real>, ip: string, now: real, later: real, most: int)
    requires Bounded(policy, s, history, ip, now, most) && now <= later
    ensures Bounded(policy, s, history, ip, later, most)
  {
  }

  lemma WorkingMore(s: Server, t: Server, id: int, request: Request, ip: string)
    requires id !in s.inFlight && t.inFlight == s.inFlight[id := request]
    ensures Working(t, ip) == if request.ip == ip && request.IsPublic() then Working(s, ip) + {id} else Working(s, ip)
  {
  }

  lemma WorkingLess(s: Server, t: Server, id: int, ip: string)
    requires t.inFlight == s.inFlight - {id}
    ensures Working(t, ip) == Working(s, ip) - {id}
  {
  }

  /** An admission to the handlers comes after a check that found the window below the threshold. */
  lemma AdmittedBounded(policy: Policy, s: Server, m: Moment, history: seq<real>, ip: string, most: int)
    requires Bounded(policy, s, history, ip, m.at, most) && policy.threshold > 0
    requires m.Arrive? && m.id !in s.inFlight && m.request.ip == ip && m.request.IsPublic() && !Refuses(policy, s, m)
    requires policy.threshold - 1 + |Working(Next(policy, s, m), ip)| <= most
    ensures Bounded(policy, Next(policy, s, m), history, ip, m.at, most)
  {
    CheckTells(policy, s.events, ip, history, m.at, ip);
    LockTells(policy, s.events, ip, history, m.at);
    forall bound | bound >= m.at - policy.Window()
      ensures |Keep(history, bound, false)| + |Working(Next(policy, s, m), ip)| <= most
    {
      KeepCounts(history, m.at - policy.Window(), bound, bound, false);
    }
  }

  lemma ArrivalBounded(policy: Policy, s: Server, m: Moment, history: seq<real>, ip: string, most: int)
    requires Bounded(policy, s, history, ip, m.at, most) && policy.threshold > 0
    requires m.Arrive? && m.id !in s.inFlight
    requires policy.threshold - 1 + |Working(Next(policy, s, m), ip)| <= most
    ensures Bounded(policy, Next(policy, s, m), history, ip, m.at, most)
  {
    var t := Next(policy, s, m);
    if m.request.ip == ip && m.request.IsPublic() && !Refuses(policy, s, m) {
      AdmittedBounded(policy, s, m, history, ip, most);
    } else {
      if m.request.IsPublic() {
        CheckTells(policy, s.events, ip, history, m.at, m.request.ip);
      }
      if !Refuses(policy, s, m) {
        WorkingMore(s, t, m.id, m.request, ip);
      }
      assert Working(t, ip) == Working(s, ip);
    }
  }

  lemma FailureBounded(policy: Policy, s: Server, m: Moment, history: seq<real>, ip: string, most: int)
    requires Bounded(policy, s, history, ip, m.at, most) && policy.threshold > 0 && Fails(s, m, ip)
    ensures Bounded(policy, Next(policy, s, m), history + [m.at], ip, m.at, most)
  {
    var t := Next(policy, s, m);
    RecordTells(policy, s.events, ip, history, m.at);
    WorkingLess(s, t, m.id, ip);
    assert |Working(t, ip)| == |Working(s, ip)| - 1;
    forall bound | bound >= m.at - policy.Window()
      ensures |Keep(history + [m.at], bound, false)| + |Working(t, ip)| <= most
    {
      KeepAppend(history, m.at, bound, false);
    }
    forall start ensures Load(policy, history + [m.at], start) <= most {
      FailureLoad(policy, history, m.at, most, start);
    }
  }

  lemma FailureLoad(policy: Policy, history: seq<real>, now: real, most: int, start: real)
    requires Load(policy, history, start) <= most
    requires start >= now - policy.Window() ==> |Keep(history, start, false)| < most
    ensures Load(policy, history + [now], start) <= most
  {
    BetweenAppend(history, now, start, start + policy.Window(), false);
    BetweenAfter(history, start, start + policy.Window());
    BetweenAfter(history + [now], start, start + policy.Window());
    KeepCounts(history, start, start, start + policy.Window(), false);
  }

  lemma OtherAnswerBounded(policy: Policy, s: Server, m: Moment, history: seq<real>, ip: string, most: int)
    requires Bounded(policy, s, history, ip, m.at, most) && policy.threshold > 0 && m.Answer? && !Fails(s, m, ip)
    ensures Bounded(policy, Next(policy, s, m), history, ip, m.at, most)
  {
    var t := Next(policy, s, m);
    if m.id in s.inFlight {
      WorkingLess(s, t, m.id, ip);
      Fewer(Working(t, ip), Working(s, ip));
      if s.inFlight[m.id].ip != ip {
        OtherRecordTells(policy, s.events, ip, history, m.at, s.inFlight[m.id].ip);
      }
    }
  }

  lemma Fewer(a: set<int>, b: set<int>)
    requires a <= b
    ensures |a| <= |b|
  {
    assert b == a + (b - a);
  }

  lemma NextBounded(policy: Policy, run: seq<Moment>, n: nat, ip: string, most: int)
    requires ProperRun(policy, run) && n < |run| && policy.threshold > 0
    requires Bounded(policy, State(policy, run, n), Unauthorized(policy, run, n, ip), ip, run[n].at, most)
    requires policy.threshold - 1 + |Working(State(policy, run, n + 1), ip)| <= most
    ensures Bounded(policy, State(policy, run, n + 1), Unauthorized(policy, run, n + 1, ip), ip, run[n].at, most)
  {
    var s, history := State(policy, run, n), Unauthorized(policy, run, n, ip);
    if run[n].Arrive? {
      ArrivalBounded(policy, s, run[n], history, ip, most);
      assert history + [] == history;
    } else if Fails(s, run[n], ip) {
      FailureBounded(policy, s, run[n], history, ip, most);
    } else {
      OtherAnswerBounded(policy, s, run[n], history, ip, most);
      assert history + [] == history;
    }
  }

  /** Never more than `most` requests of the address are handled at once. */
  ghost predicate AtOnce(policy: Policy, run: seq<Moment>, ip: string, most: nat) {
    forall n :: 0 <= n <= |run| ==> |Working(State(policy, run, n), ip)| <= most
  }

  lemma {:induction false} RunBounded(policy: Policy, run: seq<Moment>, n: nat, ip: string, atOnce: nat, now: real)
    requires ProperRun(policy, run) && n <= |run| && policy.threshold > 0 && AtOnce(policy, run, ip, atOnce)
    requires n > 0 ==> run[n - 1].at <= now
    ensures Bounded(policy, State(policy, run, n), Unauthorized(policy, run, n, ip), ip, now,
                    policy.threshold - 1 + atOnce)
  {
    if n == 0 {
      assert Working(IDLE, ip) == {};
    } else {
      assert n > 1 ==> run[n - 2].at <= run[n - 1].at;
      RunBounded(policy, run, n - 1, ip, atOnce, run[n - 1].at);
      NextBounded(policy, run, n - 1, ip, policy.threshold - 1 + atOnce);
      BoundedLater(policy, State(policy, run, n), Unauthorized(policy, run, n, ip), ip, run[n - 1].at, now,
                   policy.threshold - 1 + atOnce);
    }
  }

  /**
   What the lockout guarantees. With at most `atOnce` requests of an address in the handlers at a time, no
   half-open window, wherever it starts, holds more than threshold - 1 + atOnce 401s of that address.
   */
  lemma FailuresBounded(policy: Policy, run: seq<Moment>, n: nat, ip: string, atOnce: nat, start: real)
    requires ProperRun(policy, run) && n <= |run| && policy.threshold > 0 && AtOnce(policy, run, ip, atOnce)
    ensures Load(policy, Unauthorized(policy, run, n, ip), start) <= policy.threshold - 1 + atOnce
  {
    RunBounded(policy, run, n, ip, atOnce, if n > 0 then run[n - 1].at else 0.0);
  }

  lemma {:induction false} RunTells(policy: Policy, run: seq<Moment>, n: nat, ip: string, now: real)
    requires ProperRun(policy, run) && n <= |run| && policy.threshold > 0
    requires n > 0 ==> run[n - 1].at <= now
    ensures Tells(policy, State(policy, run, n).events, ip, Unauthorized(policy, run, n, ip), now)
  {
    if n == 0 {
      NothingSame(now - policy.Window(), now, false);
    } else {
      assert n > 1 ==> run[n - 2].at <= run[n - 1].at;
      RunTells(policy, run, n - 1, ip, run[n - 1].at);
      NextTells(policy, State(policy, run, n - 1), run[n - 1], ip, Unauthorized(policy, run, n - 1, ip));
      TellsLater(policy, State(policy, run, n).events, ip, Unauthorized(policy, run, n, ip), run[n - 1].at, now);
    }
  }

  lemma NextTells(policy: Policy, s: Server, m: Moment, ip: string, history: seq<real>)
    requires Tells(policy, s.events, ip, history, m.at) && policy.threshold > 0
    ensures Tells(policy, Next(policy, s, m).events, ip, history + (if Fails(s, m, ip) then [m.at] else []), m.at)
  {
    assert history + [] == history;
    if m.Arrive? {
      CheckTells(policy, s.events, ip, history, m.at, m.request.ip);
    } else if m.id in s.inFlight {
      if s.inFlight[m.id].ip == ip {
        RecordTells(policy, s.events, ip, history, m.at);
      } else {
        OtherRecordTells(policy, s.events, ip, history, m.at, s.inFlight[m.id].ip);
      }
    }
  }

  lemma ToldAt(policy: Policy, run: seq<Moment>, n: nat, ip: string)
    requires ProperRun(policy, run) && n < |run| && policy.threshold > 0
    ensures Tells(policy, State(policy, run, n).events, ip, Unauthorized(policy, run, n, ip), run[n].at)
  {
    assert n > 0 ==> run[n - 1].at <= run[n].at;
    RunTells(policy, run, n, ip, run[n].at);
  }

  /** So many of the times as the threshold says lie in the half-open window that ends now. */
  predicate ReachedBy(policy: Policy, times: seq<real>, now: real) {
    CountAfter(times, now - policy.windowSeconds as real) >= policy.threshold
  }

  lemma RefusesIff(policy: Policy, s: Server, m: Moment, times: seq<real>)
    requires m.Arrive? && m.request.IsPublic() && policy.threshold > 0
    requires Tells(policy, s.events, m.request.ip, times, m.at)
    ensures Refuses(policy, s, m) <==> ReachedBy(policy, times, m.at)
  {
    LockTells(policy, s.events, m.request.ip, times, m.at);
    RecentAfter(policy, times, m.at);
  }

  lemma Refused(policy: Policy, run: seq<Moment>, n: nat)
    requires ProperRun(policy, run) && n < |run| && run[n].Arrive? && run[n].request.IsPublic() && policy.threshold > 0
    ensures Refuses(policy, State(policy, run, n), run[n])
      <==> RecentCount(policy, Unauthorized(policy, run, n, run[n].request.ip), run[n].at) >= policy.threshold
  {
    var ip := run[n].request.ip;
    ToldAt(policy, run, n, ip);
    LockTells(policy, State(policy, run, n).events, ip, Unauthorized(policy, run, n, ip), run[n].at);
  }

  /** A public request is refused exactly when the window that ends now holds `threshold` 401s of its address. */
  lemma RefusedExactly(policy: Policy, run: seq<Moment>, n: nat)
    requires ProperRun(policy, run) && n < |run| && run[n].Arrive? && run[n].request.IsPublic() && policy.threshold > 0
    ensures Refuses(policy, State(policy, run, n), run[n])
      <==> ReachedBy(policy, Unauthorized(policy, run, n, run[n].request.ip), run[n].at)
  {
    ToldAt(policy, run, n, run[n].request.ip);
    RefusesIff(policy, State(policy, run, n), run[n], Unauthorized(policy, run, n, run[n].request.ip));
  }

  lemma RecentAfter(policy: Policy, times: seq<real>, now: real)
    ensures RecentCount(policy, times, now) == CountAfter(times, now - policy.windowSeconds as real)
  {
    KeepAfter(times, now - policy.windowSeconds as real);
  }

  /** A request elsewhere is always let through, and neither it nor its answer counts for anything. */
  lemma OnlyPublicCounts(policy: Policy, s: Server, m: Moment)
    ensures m.Arrive? && !("/v1/" <= m.request.path) ==>
      Next(policy, s, m) == s.(inFlight := s.inFlight[m.id := m.request]) && !Refuses(policy, s, m)
    ensures m.Answer? && m.id in s.inFlight && !("/v1/" <= s.inFlight[m.id].path && m.status == 401) ==>
      Next(policy, s, m) == s.(inFlight := s.inFlight - {m.id})
    ensures forall r: Request :: r.IsPublic() <==> "/v1/" <= r.path
  {
  }

  /** A lock ends no later than one window after the last 401, however often the client asked meanwhile. */
  lemma LockEnds(policy: Policy, run: seq<Moment>, n: nat, last: real)
    requires ProperRun(policy, run) && n < |run| && run[n].Arrive? && run[n].request.IsPublic() && policy.threshold > 0
    requires NotAfter(Unauthorized(policy, run, n, run[n].request.ip), last) && run[n].at >= last + policy.Window()
    ensures !Refuses(policy, State(policy, run, n), run[n])
  {
    Refused(policy, run, n);
    KeepNone(Unauthorized(policy, run, n, run[n].request.ip), run[n].at - policy.Window());
  }

  // ---------------------------------------------------------------- why the client must wait

  function Zeros(k: nat): (s: seq<real>)
    ensures |s| == k
  {
    seq(k, _ => 0.0)
  }

  /** The store after k failures of one address at time 0. */
  function Failed(ip: string, k: nat): Events {
    if k == 0 then map[] else map[ip := Zeros(k)]
  }

  /**
   threshold - 1 failures one after the other, then two requests that are both checked before either fails,
   all at time 0.
   */
  function Overrun(threshold: nat, ip: string): seq<Moment>
    requires threshold > 0
  {
    seq(2 * threshold + 2, i requires 0 <= i => OverrunAt(threshold, ip, i))
  }

  function OverrunAt(threshold: nat, ip: string, i: nat): Moment
    requires threshold > 0
  {
    if i < 2 * threshold - 1 && i % 2 == 0 then Arrive(0.0, i / 2, Request(ip, "/v1/"))
    else if i < 2 * threshold - 2 then Answer(0.0, i / 2, 401)
    else if i == 2 * threshold - 1 then Arrive(0.0, threshold, Request(ip, "/v1/"))
    else if i == 2 * threshold then Answer(0.0, threshold - 1, 401)
    else Answer(0.0, threshold, 401)
  }

  lemma FailedStep(policy: Policy, ip: string, k: nat)
    requires policy.Valid() && policy.threshold > 0
    ensures k < policy.threshold ==> !policy.Locked(Failed(ip, k), ip, 0.0)
    ensures policy.Checked(Failed(ip, k), ip, 0.0) == Failed(ip, k)
    ensures policy.Recorded(Failed(ip, k), ip, 0.0) == Failed(ip, k + 1)
  {
    assert k > 0 ==> Zeros(k)[0] == 0.0;
    assert policy.Pruned(BucketOf(Failed(ip, k), ip), 0.0) == Zeros(k);
    assert Zeros(k) + [0.0] == Zeros(k + 1);
  }

  lemma ArriveStep(policy: Policy, ip: string, k: nat, inFlight: map<int, Request>, id: int)
    requires policy.Valid() && k < policy.threshold
    ensures Next(policy, Server(Failed(ip, k), inFlight), Arrive(0.0, id, Request(ip, "/v1/")))
         == Server(Failed(ip, k), inFlight[id := Request(ip, "/v1/")])
  {
    FailedStep(policy, ip, k);
  }

  lemma AnswerStep(policy: Policy, ip: string, k: nat, inFlight: map<int, Request>, id: int)
    requires policy.Valid() && policy.threshold > 0 && id in inFlight && inFlight[id] == Request(ip, "/v1/")
    ensures Next(policy, Server(Failed(ip, k), inFlight), Answer(0.0, id, 401))
         == Server(Failed(ip, k + 1), inFlight - {id})
    ensures Fails(Server(Failed(ip, k), inFlight), Answer(0.0, id, 401), ip)
  {
    FailedStep(policy, ip, k);
  }

  /** The state and the failures at each point of the run. */
  function OverrunState(threshold: nat, ip: string, n: nat): Server
    requires threshold > 0 && n <= 2 * threshold + 2
  {
    var r := Request(ip, "/v1/");
    if n < 2 * threshold && n % 2 == 0 then Server(Failed(ip, n / 2), map[])
    else if n < 2 * threshold then Server(Failed(ip, n / 2), map[n / 2 := r])
    else if n == 2 * threshold then Server(Failed(ip, threshold - 1), map[threshold - 1 := r, threshold := r])
    else if n == 2 * threshold + 1 then Server(Failed(ip, threshold), map[threshold := r])
    else Server(Failed(ip, threshold + 1), map[])
  }

  function OverrunFailures(threshold: nat, n: nat): nat
    requires threshold > 0
  {
    if n < 2 * threshold then n / 2 else n - threshold - 1
  }

  lemma OverrunStep(policy: Policy, ip: string, n: nat)
    requires policy.Valid() && policy.threshold > 0 && n <= 2 * policy.threshold + 1
    ensures var t := policy.threshold;
      && Next(policy, OverrunState(t, ip, n), OverrunAt(t, ip, n)) == OverrunState(t, ip, n + 1)
      && OverrunFailures(t, n + 1) == OverrunFailures(t, n)
           + (if Fails(OverrunState(t, ip, n), OverrunAt(t, ip, n), ip) then 1 else 0)
      && (OverrunAt(t, ip, n).Arrive? ==> OverrunAt(t, ip, n).id !in OverrunState(t, ip, n).inFlight)
  {
    var t, r := policy.threshold, Request(ip, "/v1/");
    if n < 2 * t - 1 && n % 2 == 0 {
      ArriveStep(policy, ip, n / 2, map[], n / 2);
    } else if n < 2 * t - 2 {
      AnswerStep(policy, ip, n / 2, map[n / 2 := r], n / 2);
      assert map[n / 2 := r] - {n / 2} == map[];
    } else if n == 2 * t - 1 {
      ArriveStep(policy, ip, t - 1, map[t - 1 := r], t);
    } else if n == 2 * t {
      AnswerStep(policy, ip, t - 1, map[t - 1 := r, t := r], t - 1);
      assert map[t - 1 := r, t := r] - {t - 1} == map[t := r];
    } else {
      AnswerStep(policy, ip, t, map[t := r], t);
      assert map[t := r] - {t} == map[];
    }
  }

  lemma {:induction false} OverrunTells(policy: Policy, ip: string, n: nat)
    requires policy.Valid() && policy.threshold > 0 && n <= 2 * policy.threshold + 2
    ensures var run := Overrun(policy.threshold, ip);
      && State(policy, run, n) == OverrunState(policy.threshold, ip, n)
      && Unauthorized(policy, run, n, ip) == Zeros(OverrunFailures(policy.threshold, n))
  {
    if n > 0 {
      OverrunTells(policy, ip, n - 1);
      OverrunStep(policy, ip, n - 1);
      assert Overrun(policy.threshold, ip)[n - 1] == OverrunAt(policy.threshold, ip, n - 1);
    }
  }

  lemma {:induction false} AllBetween(k: nat, start: real, end: real)
    requires start < 0.0 <= end
    ensures |Between(Zeros(k), start, end, false)| == k
  {
    if k > 0 {
      AllBetween(k - 1, start, end);
      assert Zeros(k)[..k - 1] == Zeros(k - 1);
    }
  }

  lemma OverrunWorking(threshold: nat, ip: string, n: nat)
    requires threshold > 0 && n <= 2 * threshold + 2
    ensures |Working(OverrunState(threshold, ip, n), ip)| <= 2
  {
    var s := OverrunState(threshold, ip, n);
    Fewer(Working(s, ip), if n == 2 * threshold then {threshold - 1, threshold} else {n / 2, threshold});
  }

  lemma OverrunAtOnce(policy: Policy, ip: string)
    requires policy.Valid() && policy.threshold > 0
    ensures AtOnce(policy, Overrun(policy.threshold, ip), ip, 2)
  {
    var run := Overrun(policy.threshold, ip);
    forall n | 0 <= n <= |run| ensures |Working(State(policy, run, n), ip)| <= 2 {
      OverrunTells(policy, ip, n);
      OverrunWorking(policy.threshold, ip, n);
    }
  }

  lemma OverrunProper(policy: Policy, ip: string)
    requires policy.Valid() && policy.threshold > 0
    ensures ProperRun(policy, Overrun(policy.threshold, ip))
  {
    var run := Overrun(policy.threshold, ip);
    forall n | 0 <= n < |run| && run[n].Arrive? ensures run[n].id !in State(policy, run, n).inFlight {
      OverrunTells(policy, ip, n);
      OverrunStep(policy, ip, n);
    }
  }

  /** Two requests checked before either has failed are both let through, and both fail. */
  lemma OverrunLoad(policy: Policy, ip: string)
    requires policy.Valid() && policy.threshold > 0
    ensures var run := Overrun(policy.threshold, ip);
      Load(policy, Unauthorized(policy, run, |run|, ip), -0.5) == policy.threshold + 1
  {
    OverrunTells(policy, ip, 2 * policy.threshold + 2);
    ZerosLoad(policy, policy.threshold + 1);
  }

  lemma ZerosLoad(policy: Policy, k: nat)
    requires policy.Valid()
    ensures Load(policy, Zeros(k), -0.5) == k
  {
    BetweenAfter(Zeros(k), -0.5, -0.5 + policy.windowSeconds as real);
    AllBetween(k, -0.5, -0.5 + policy.windowSeconds as real);
  }

  ghost predicate Respects(policy: Policy, run: seq<Moment>, ip: string) {
    forall n: nat, start: real :: n <= |run| ==>
      Load(policy, Unauthorized(policy, run, n, ip), start) <= policy.threshold
  }

  lemma OneByOneRespects(policy: Policy, run: seq<Moment>, ip: string, atOnce: nat)
    requires policy.threshold > 0 && ProperRun(policy, run) && AtOnce(policy, run, ip, atOnce) && atOnce <= 1
    ensures Respects(policy, run, ip)
  {
    forall n: nat, start: real | n <= |run|
      ensures Load(policy, Unauthorized(policy, run, n, ip), start) <= policy.threshold
    {
      FailuresBounded(policy, run, n, ip, atOnce, start);
    }
  }

  /** The threshold bounds the 401s of every window exactly when the address has one request at a time. */
  lemma ThresholdHoldsIff(policy: Policy, ip: string, atOnce: nat)
    requires policy.Valid() && policy.threshold > 0
    ensures (forall run :: ProperRun(policy, run) && AtOnce(policy, run, ip, atOnce) ==> Respects(policy, run, ip))
      <==> atOnce <= 1
  {
    if atOnce <= 1 {
      forall run | ProperRun(policy, run) && AtOnce(policy, run, ip, atOnce) ensures Respects(policy, run, ip) {
        OneByOneRespects(policy, run, ip, atOnce);
      }
    } else {
      var run := Overrun(policy.threshold, ip);
      OverrunProper(policy, ip);
      OverrunAtOnce(policy, ip);
      OverrunLoad(policy, ip);
      MoreAtOnce(policy, run, ip, 2, atOnce);
      assert Load(policy, Unauthorized(policy, run, |run|, ip), -0.5) > policy.threshold;
      assert !Respects(policy, run, ip);
    }
  }

  lemma MoreAtOnce(policy: Policy, run: seq<Moment>, ip: string, few: nat, many: nat)
    requires AtOnce(policy, run, ip, few) && few <= many
    ensures AtOnce(policy, run, ip, many)
  {
  }
}
