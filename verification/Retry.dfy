/**
 The bounded retry loop around every backend call (`_request` in app/adapters/elasticsearch/adapter.py). The
 backend, the clock and the jitter are parameters: the k-th call ends as `outcome(k)` says after `took(k)` seconds,
 and `uniform(k, x)` is the k-th draw of `random.uniform(-x, x)`.
 */
module Retry {
  import opened Wrappers

  /** A response, one of the transient transport errors, or an exception the loop does not catch. */
  datatype Outcome = Response(status: int) | Transient(reason: string) | Uncaught(reason: string)

  datatype Reply = Returned(status: int) | Unavailable(reason: string) | Propagated(reason: string)

  datatype World = World(outcome: nat -> Outcome, took: nat -> real, uniform: (nat, real) -> real, start: real) {
    ghost predicate Valid() {
      && (forall k :: took(k) >= 0.0)
      && (forall k, x :: x >= 0.0 ==> -x <= uniform(k, x) <= x)
    }

    ghost predicate CallsWithin(seconds: real) {
      forall k :: took(k) <= seconds
    }
  }

  function Pow2(k: nat): (p: int)
    ensures p >= 1
  {
    if k == 0 then 1 else 2 * Pow2(k - 1)
  }

  function Min(x: real, y: real): real {
    if x <= y then x else y
  }

  datatype Config = Config(maxRetries: nat, backoff: real, cap: real, deadline: real) {
    predicate Valid() {
      backoff >= 0.0 && cap >= 0.0 && deadline >= 0.0
    }

    function Attempts(): nat {
      maxRetries + 1
    }

    function Backoff(attempt: nat): real {
      backoff * Pow2(attempt) as real
    }

    /** `_compute_sleep` */
    function Sleep(attempt: nat, w: World): real {
      if backoff <= 0.0 then 0.0
      else
        var capped := Min(Backoff(attempt), cap);
        var sleep := capped + w.uniform(attempt, capped * 0.25);
        if sleep > 0.0 then sleep else 0.0
    }

    predicate Late(w: World, now: real) {
      deadline > 0.0 && now >= w.start + deadline
    }
  }

  predicate Retryable(o: Outcome) {
    o.Transient? || (o.Response? && o.status >= 500)
  }

  /** When the k-th call ends, if every call before it is followed by another. */
  function EndOf(c: Config, w: World, k: nat): real {
    (if k == 0 then w.start else EndOf(c, w, k - 1) + c.Sleep(k - 1, w)) + w.took(k)
  }

  /** The first k sleeps together. */
  function Slept(c: Config, w: World, k: nat): real {
    if k == 0 then 0.0 else Slept(c, w, k - 1) + c.Sleep(k - 1, w)
  }

  /** No call follows the k-th. */
  predicate Stops(c: Config, w: World, k: nat) {
    !Retryable(w.outcome(k)) || k + 1 >= c.Attempts() || c.Late(w, EndOf(c, w, k))
  }

  /** The last call is the first that stops the loop. */
  predicate LastCall(c: Config, w: World, k: nat) {
    Stops(c, w, k) && forall j :: 0 <= j < k ==> !Stops(c, w, j)
  }

  /** The reason of the latest transient error among the first k calls. */
  function LastReason(w: World, k: nat): string {
    if k == 0 then "exhausted"
    else if w.outcome(k - 1).Transient? then w.outcome(k - 1).reason
    else LastReason(w, k - 1)
  }

  /** What the caller gets when call k is the last. */
  function Verdict(c: Config, w: World, k: nat): Reply {
    match w.outcome(k)
    case Uncaught(reason) => Propagated(reason)
    case Transient(reason) => Unavailable(reason)
    case Response(status) =>
      if status < 500 || k + 1 >= c.Attempts() then Returned(status) else Unavailable(LastReason(w, k))
  }

  class ElasticsearchAdapter {
    const config: Config

    constructor (maxRetries: int, backoff: real, cap: real, deadline: real)
      ensures config.Valid()
      ensures config == Config(if maxRetries > 0 then maxRetries else 0, if backoff > 0.0 then backoff else 0.0,
                               if cap > 0.0 then cap else 0.0, if deadline > 0.0 then deadline else 0.0)
    {
      config := Config(if maxRetries > 0 then maxRetries else 0, if backoff > 0.0 then backoff else 0.0,
                       if cap > 0.0 then cap else 0.0, if deadline > 0.0 then deadline else 0.0);
    }

    /** `_request`, with the number of calls made, the time slept and the time it ended. */
    method Request(w: World) returns (reply: Reply, calls: nat, slept: real, ended: real)
      ensures 1 <= calls <= config.maxRetries + 1
      ensures LastCall(config, w, calls - 1) && reply == Verdict(config, w, calls - 1)
      ensures slept == Slept(config, w, calls - 1) && ended == EndOf(config, w, calls - 1)
    {
      var attempts := config.maxRetries + 1;
      var lastReason := "exhausted";
      var deadline := if config.deadline > 0.0 then Some(w.start + config.deadline) else None;
      var now := w.start;
      calls, slept := 0, 0.0;
      for attempt := 0 to attempts
        invariant calls == attempt
        invariant forall j :: 0 <= j < attempt ==> !Stops(config, w, j)
        invariant slept == Slept(config, w, attempt)
        invariant lastReason == LastReason(w, attempt)
        invariant now + w.took(attempt) == EndOf(config, w, attempt)
      {
        calls := calls + 1;
        now := now + w.took(attempt);
        match w.outcome(attempt) {
          case Uncaught(reason) =>
            return Propagated(reason), calls, slept, now;
          case Transient(reason) =>
            lastReason := reason;
            if attempt + 1 >= attempts || (deadline.Some? && now >= deadline.value) {
              return Unavailable(reason), calls, slept, now;
            }
          case Response(status) =>
            if status >= 500 && attempt + 1 < attempts {
              if deadline.Some? && now >= deadline.value {
                break;
              }
            } else {
              return Returned(status), calls, slept, now;
            }
        }
        var sleep := config.Sleep(attempt, w);
        slept, now := slept + sleep, now + sleep;
      }
      reply, ended := Unavailable(lastReason), now;
    }
  }

  // ---------------------------------------------------------------- bounds

  lemma BackoffRange(c: Config, attempt: nat)
    requires c.Valid()
    ensures c.Backoff(attempt) >= 0.0
    ensures c.backoff == 0.0 ==> c.Backoff(attempt) == 0.0
  {
    NotNegative(c.backoff, Pow2(attempt) as real);
  }

  lemma NotNegative(x: real, y: real)
    requires x >= 0.0 && y >= 0.0
    ensures x * y >= 0.0
    ensures x == 0.0 ==> x * y == 0.0
  {
  }

  /** A sleep stays within a quarter of the capped backoff. */
  lemma SleepRange(c: Config, w: World, attempt: nat)
    requires c.Valid() && w.Valid()
    ensures 0.75 * Min(c.Backoff(attempt), c.cap) <= c.Sleep(attempt, w) <= 1.25 * Min(c.Backoff(attempt), c.cap)
  {
    BackoffRange(c, attempt);
  }

  /** The first k backoffs together. */
  function Backoffs(c: Config, k: nat): real {
    if k == 0 then 0.0 else Backoffs(c, k - 1) + c.Backoff(k - 1)
  }

  lemma {:induction false} BackoffsClosed(c: Config, k: nat)
    ensures Backoffs(c, k) == c.backoff * (Pow2(k) - 1) as real
  {
    if k > 0 {
      BackoffsClosed(c, k - 1);
      Doubling(c.backoff, Pow2(k - 1));
    }
  }

  lemma Doubling(backoff: real, p: int)
    ensures backoff * (p - 1) as real + backoff * p as real == backoff * (2 * p - 1) as real
  {
    assert (2 * p - 1) as real == (p - 1) as real + p as real;
  }

  function Caps(c: Config, k: nat): real {
    if k == 0 then 0.0 else Caps(c, k - 1) + c.cap
  }

  lemma {:induction false} CapsClosed(c: Config, k: nat)
    ensures Caps(c, k) == k as real * c.cap
  {
    if k > 0 {
      CapsClosed(c, k - 1);
      OneMore(k, c.cap);
    }
  }

  lemma OneMore(k: nat, cap: real)
    requires k > 0
    ensures (k - 1) as real * cap + cap == k as real * cap
  {
    assert k as real == (k - 1) as real + 1.0;
  }

  lemma {:induction false} SleptWithin(c: Config, w: World, k: nat)
    requires c.Valid() && w.Valid()
    ensures 0.0 <= Slept(c, w, k) <= 1.25 * Backoffs(c, k)
    ensures Slept(c, w, k) <= 1.25 * Caps(c, k)
  {
    if k > 0 {
      SleptWithin(c, w, k - 1);
      SleepRange(c, w, k - 1);
      BackoffRange(c, k - 1);
    }
  }

  /** Together the sleeps follow the doubling backoff and the cap, whichever is less. */
  lemma SleptBound(c: Config, w: World, k: nat)
    requires c.Valid() && w.Valid()
    ensures 0.0 <= Slept(c, w, k)
    ensures Slept(c, w, k) <= 1.25 * (c.backoff * (Pow2(k) - 1) as real)
    ensures Slept(c, w, k) <= 1.25 * (k as real * c.cap)
  {
    SleptWithin(c, w, k);
    BackoffsClosed(c, k);
    CapsClosed(c, k);
  }

  /** With a deadline and calls that take at most `seconds`, the loop ends soon after the deadline. */
  lemma EndBound(c: Config, w: World, k: nat, seconds: real)
    requires c.Valid() && w.Valid() && w.CallsWithin(seconds) && c.deadline > 0.0 && LastCall(c, w, k)
    ensures EndOf(c, w, k) <= w.start + c.deadline + 1.25 * c.cap + seconds
  {
    if k > 0 {
      assert !Stops(c, w, k - 1);
      SleepRange(c, w, k - 1);
    }
  }

  /** The loop ends, and at one place only. */
  lemma LastCallUnique(c: Config, w: World, j: nat, k: nat)
    requires LastCall(c, w, j) && LastCall(c, w, k)
    ensures j == k <= c.maxRetries
  {
    assert j < k ==> !Stops(c, w, j);
    assert k < j ==> !Stops(c, w, k);
    assert Stops(c, w, c.maxRetries);
  }

  // ---------------------------------------------------------------- what the caller gets

  /** A good response to any call is returned, and ends the loop. */
  lemma FirstGoodReturned(c: Config, w: World, k: nat)
    requires LastCall(c, w, k) && w.outcome(k).Response? && w.outcome(k).status < 500
    ensures Verdict(c, w, k) == Returned(w.outcome(k).status)
    ensures forall j :: 0 <= j < k ==> Retryable(w.outcome(j))
  {
    forall j | 0 <= j < k ensures Retryable(w.outcome(j)) {
      assert !Stops(c, w, j);
    }
  }

  // ---------------------------------------------------------------- the same, told by the clock

  /** How long the loop sleeps behind call k: the doubled and capped backoff, a quarter more or less. */
  function Nap(c: Config, w: World, k: nat): real {
    var nominal := c.backoff * Pow2(k) as real;
    var capped := if nominal <= c.cap then nominal else c.cap;
    var nap := capped + w.uniform(k, capped / 4.0);
    if c.backoff > 0.0 && nap > 0.0 then nap else 0.0
  }

  /** When call k ends, as long as calls follow each other: `Nap` seconds lie between two calls. */
  ghost predicate IsClock(c: Config, w: World, ends: nat -> real) {
    && ends(0) == w.start + w.took(0)
    && forall k: nat :: ends(k + 1) == ends(k) + Nap(c, w, k) + w.took(k + 1)
  }

  lemma SleepIsNap(c: Config, w: World, k: nat)
    requires c.Valid()
    ensures c.Sleep(k, w) == Nap(c, w, k)
  {
    var nominal := c.backoff * Pow2(k) as real;
    var capped := if nominal <= c.cap then nominal else c.cap;
    assert Min(c.Backoff(k), c.cap) == capped && capped * 0.25 == capped / 4.0;
  }

  lemma {:induction false} ClockTells(c: Config, w: World, ends: nat -> real, k: nat)
    requires c.Valid() && IsClock(c, w, ends)
    ensures EndOf(c, w, k) == ends(k)
  {
    if k > 0 {
      ClockTells(c, w, ends, k - 1);
      SleepIsNap(c, w, k - 1);
      assert ends(k - 1 + 1) == ends(k - 1) + Nap(c, w, k - 1) + w.took(k - 1 + 1);
    }
  }

  /** The loop's own clock is one. */
  lemma LoopKeepsClock(c: Config, w: World)
    requires c.Valid()
    ensures IsClock(c, w, (k: nat) => EndOf(c, w, k))
  {
    forall k: nat ensures EndOf(c, w, k + 1) == EndOf(c, w, k) + Nap(c, w, k) + w.took(k + 1) {
      SleepIsNap(c, w, k);
    }
  }

  /** The call failed in a way that is tried again: in transport, or with a 5xx. */
  predicate FailedRetryably(w: World, k: nat) {
    w.outcome(k).Transient? || (w.outcome(k).Response? && w.outcome(k).status >= 500)
  }

  /** The call ended while there was time: there is no deadline, or it had not come. */
  predicate InTime(c: Config, w: World, ends: nat -> real, k: nat) {
    c.deadline == 0.0 || ends(k) < w.start + c.deadline
  }

  /**
   The loop keeps trying. A call is made exactly when the retries allow it and every call before it failed retryably and
   ended before the deadline.
   */
  lemma CallMadeIff(c: Config, w: World, ends: nat -> real, last: nat, k: nat)
    requires c.Valid() && IsClock(c, w, ends) && LastCall(c, w, last)
    ensures k <= last <==>
      k <= c.maxRetries && forall j: nat :: j < k ==> FailedRetryably(w, j) && InTime(c, w, ends, j)
  {
    forall j: nat ensures Stops(c, w, j) <==> !FailedRetryably(w, j) || j >= c.maxRetries || !InTime(c, w, ends, j) {
      ClockTells(c, w, ends, j);
    }
    assert Stops(c, w, c.maxRetries);
    assert last <= c.maxRetries;
    if k > last && k <= c.maxRetries {
      assert Stops(c, w, last);
      assert !FailedRetryably(w, last) || !InTime(c, w, ends, last);
    }
    forall j: nat | k <= last && j < k ensures FailedRetryably(w, j) && InTime(c, w, ends, j) {
      assert !Stops(c, w, j);
    }
  }

  /** The reason that is reported: of the latest transport error among the first k calls, or `exhausted`. */
  ghost predicate IsReason(w: World, k: nat, reason: string) {
    || (reason == "exhausted" && forall j :: 0 <= j < k ==> !w.outcome(j).Transient?)
    || exists j :: IsLatest(w, k, j) && w.outcome(j) == Transient(reason)
  }

  predicate IsLatest(w: World, k: nat, j: int) {
    0 <= j < k && w.outcome(j).Transient? && forall i :: j < i < k ==> !w.outcome(i).Transient?
  }

  lemma {:induction false} LastReasonIs(w: World, k: nat)
    ensures IsReason(w, k, LastReason(w, k))
  {
    if k > 0 {
      LastReasonIs(w, k - 1);
      if w.outcome(k - 1).Transient? {
        assert IsLatest(w, k, k - 1);
      } else if j :| IsLatest(w, k - 1, j) && w.outcome(j) == Transient(LastReason(w, k - 1)) {
        assert IsLatest(w, k, j);
      }
    }
  }

  /**
   What the caller gets is decided by the last call made: its response, unless it is a 5xx with retries left, for which
   there was no time; its transport error; or the exception it raised.
   */
  lemma AnsweredBy(c: Config, w: World, last: nat)
    requires LastCall(c, w, last)
    ensures match w.outcome(last)
      case Uncaught(reason) => Verdict(c, w, last) == Propagated(reason)
      case Transient(reason) => Verdict(c, w, last) == Unavailable(reason)
      case Response(status) =>
        if status < 500 || last == c.maxRetries then Verdict(c, w, last) == Returned(status)
        else Verdict(c, w, last).Unavailable? && IsReason(w, last, Verdict(c, w, last).reason)
  {
    LastReasonIs(w, last);
    LastCallUnique(c, w, last, last);
  }

  /**
   The documented rule is that a backend that keeps failing ends in `backend_unavailable`. It does exactly when
   the last allowed call fails in transport or a call before it ends at the deadline or later; otherwise the last 5xx
   is handed to the caller as a response.
   */
  lemma KeptFailingRaisesIff(c: Config, w: World, ends: nat -> real, k: nat)
    requires c.Valid() && IsClock(c, w, ends) && LastCall(c, w, k)
    requires forall j: nat :: j <= c.maxRetries ==> FailedRetryably(w, j)
    ensures Verdict(c, w, k).Unavailable? <==> (
      || w.outcome(c.maxRetries).Transient?
      || (c.deadline > 0.0 && exists j: nat :: j < c.maxRetries && ends(j) >= w.start + c.deadline))
    ensures !Verdict(c, w, k).Unavailable? ==>
      w.outcome(c.maxRetries).Response? && Verdict(c, w, k) == Returned(w.outcome(c.maxRetries).status)
  {
    CallMadeIff(c, w, ends, k, c.maxRetries);
    LastCallUnique(c, w, k, k);
    AnsweredBy(c, w, k);
    assert FailedRetryably(w, k);
    if k < c.maxRetries {
      var j: nat :| j < c.maxRetries && !InTime(c, w, ends, j);
      assert ends(j) >= w.start + c.deadline;
    } else {
      forall j: nat | j < c.maxRetries ensures c.deadline == 0.0 || ends(j) < w.start + c.deadline {
        assert InTime(c, w, ends, j);
      }
    }
  }

  /** A backend that answers every call with a 500 after the given time. */
  function Always500(seconds: real): World {
    World(_ => Response(500), _ => seconds, (_, _) => 0.0, 0.0)
  }

  /** Without a deadline the 500 of the last allowed call is handed to the caller, however many calls there are. */
  lemma ExhaustionReturns500(c: Config)
    requires c.Valid() && c.deadline == 0.0
    ensures LastCall(c, Always500(0.0), c.maxRetries) && Verdict(c, Always500(0.0), c.maxRetries) == Returned(500)
  {
    var w := Always500(0.0);
    forall j | 0 <= j < c.maxRetries ensures !Stops(c, w, j) {
      assert Retryable(w.outcome(j)) && !c.Late(w, EndOf(c, w, j));
    }
  }

  /** Past the deadline the same answer raises, while calls are left. */
  lemma DeadlineRaises(c: Config)
    requires c.Valid() && c.deadline == 1.0 && c.maxRetries > 0
    ensures LastCall(c, Always500(2.0), 0) && Verdict(c, Always500(2.0), 0) == Unavailable("exhausted")
  {
    var w := Always500(2.0);
    assert Retryable(w.outcome(0)) && EndOf(c, w, 0) == 2.0;
  }
}
