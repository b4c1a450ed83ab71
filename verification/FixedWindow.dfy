/**
 The Redis rate limiter (app/rate_limit/redis_limiter.py): INCR and EXPIRE on one counter per subject and aligned
 window. Both commands of a request run at the instant the application read its clock.
 */
module FixedWindow {
  import opened Wrappers
  import opened Decimal

  /** A counter with its time of death; a dead key is as if it were not there. */
  datatype Counter = Counter(count: int, expiresAt: Option<real>)

  type Table = map<string, Counter>

  predicate Live(table: Table, key: string, now: real) {
    key in table && (table[key].expiresAt.None? || now < table[key].expiresAt.value)
  }

  function Incremented(table: Table, key: string, now: real): Counter {
    if Live(table, key, now) then Counter(table[key].count + 1, table[key].expiresAt) else Counter(1, None)
  }

  /** The two commands the limiter uses. */
  class Redis {
    var table: Table

    constructor ()
      ensures table == map[]
    {
      table := map[];
    }

    method Incr(key: string, now: real) returns (count: int)
      modifies this
      ensures table == old(table)[key := Incremented(old(table), key, now)]
      ensures count == table[key].count
    {
      table := table[key := Incremented(table, key, now)];
      count := table[key].count;
    }

    method Expire(key: string, seconds: int, now: real)
      modifies this
      ensures table == if Live(old(table), key, now)
        then old(table)[key := old(table)[key].(expiresAt := Some(now + seconds as real))] else old(table)
    {
      if Live(table, key, now) {
        table := table[key := table[key].(expiresAt := Some(now + seconds as real))];
      }
    }
  }

  datatype Limits = Limits(scope: string, maxRequests: int, windowSeconds: int) {
    predicate Valid() {
      windowSeconds >= 1
    }

    /** The start of the aligned window an instant lies in. */
    function Start(now: real): (start: nat)
      requires Valid() && now >= 0.0
      ensures start as real <= now < (start + windowSeconds) as real
    {
      now.Floor - now.Floor % windowSeconds
    }

    function Key(subject: string, start: nat): string {
      "egg:rl:" + scope + ":" + subject + ":" + Dec(start)
    }

    predicate Accepts(table: Table, subject: string, now: real)
      requires Valid() && now >= 0.0
    {
      Incremented(table, Key(subject, Start(now)), now).count <= maxRequests
    }

    function Next(table: Table, subject: string, now: real): Table
      requires Valid() && now >= 0.0
    {
      var key := Key(subject, Start(now));
      table[key := Counter(Incremented(table, key, now).count, Some(now + windowSeconds as real))]
    }
  }

  class RedisRateLimiter {
    const limits: Limits
    const redis: Redis

    constructor (client: Redis, maxRequests: int, windowSeconds: int, scope: string)
      ensures limits == Limits(scope, maxRequests, if windowSeconds > 1 then windowSeconds else 1)
      ensures limits.Valid() && redis == client
    {
      limits := Limits(scope, maxRequests, if windowSeconds > 1 then windowSeconds else 1);
      redis := client;
    }

    method Allow(subject: string, time: real) returns (ok: bool)
      requires limits.Valid() && time >= 0.0
      modifies redis
      ensures ok <==> limits.Accepts(old(redis.table), subject, time)
      ensures redis.table == limits.Next(old(redis.table), subject, time)
    {
      var now := time.Floor;
      var windowStart := now - now % limits.windowSeconds;
      var key := limits.Key(subject, windowStart);
      var count := redis.Incr(key, time);
      redis.Expire(key, limits.windowSeconds, time);
      ok := count <= limits.maxRequests;
    }
  }

  /** The counter of the aligned window is one up, and dies a window's length from now. */
  lemma NextMeans(limits: Limits, table: Table, subject: string, now: real)
    requires limits.Valid() && now >= 0.0
    ensures var start := now.Floor / limits.windowSeconds * limits.windowSeconds;
      var key := "egg:rl:" + limits.scope + ":" + subject + ":" + Dec(start);
      var alive := key in table && (table[key].expiresAt == None || now < table[key].expiresAt.value);
      var count := if alive then table[key].count + 1 else 1;
      && start >= 0
      && limits.Next(table, subject, now) == table[key := Counter(count, Some(now + limits.windowSeconds as real))]
      && (limits.Accepts(table, subject, now) <==> count <= limits.maxRequests)
  {
    Aligned(now.Floor, limits.windowSeconds);
  }

  // ---------------------------------------------------------------- keys

  lemma ColonNotPast(a: string, m: string, b: string, n: string)
    requires a + ":" + m == b + ":" + n && ':' !in m
    ensures |b| <= |a|
  {
    var s := a + ":" + m;
    assert s == b + ":" + n && s[|b|] == ':';
    assert forall k :: |a| < k < |s| ==> s[k] == m[k - |a| - 1];
  }

  lemma LastColon(a: string, m: string, b: string, n: string)
    requires a + ":" + m == b + ":" + n && ':' !in m && ':' !in n
    ensures a == b && m == n
  {
    ColonNotPast(a, m, b, n);
    ColonNotPast(b, n, a, m);
    var s := a + ":" + m;
    assert s == b + ":" + n;
    assert s[..|a|] == a && s[..|b|] == b;
    assert s[|a| + 1..] == m && s[|b| + 1..] == n;
  }

  lemma DecHasNoColon(n: nat)
    ensures ':' !in Dec(n)
  {
    assert forall k :: 0 <= k < |Dec(n)| ==> Dec(n)[k] != ':';
  }

  /** One counter serves one subject in one window. */
  lemma KeyInjective(limits: Limits, subject: string, start: nat, other: string, otherStart: nat)
    ensures limits.Key(subject, start) == limits.Key(other, otherStart) <==> subject == other && start == otherStart
  {
    var prefix := "egg:rl:" + limits.scope + ":";
    if limits.Key(subject, start) == limits.Key(other, otherStart) {
      DecHasNoColon(start);
      DecHasNoColon(otherStart);
      LastColon(prefix + subject, Dec(start), prefix + other, Dec(otherStart));
      assert (prefix + subject)[|prefix|..] == subject && (prefix + other)[|prefix|..] == other;
      ValueDec(start);
      ValueDec(otherStart);
    }
  }

  // ---------------------------------------------------------------- runs

  datatype Request = Request(subject: string, at: real)

  predicate AfterEpoch(requests: seq<Request>) {
    forall i :: 0 <= i < |requests| ==> requests[i].at >= 0.0
  }

  function TableAfter(limits: Limits, requests: seq<Request>, n: nat): Table
    requires limits.Valid() && n <= |requests| && AfterEpoch(requests)
  {
    if n == 0 then map[]
    else limits.Next(TableAfter(limits, requests, n - 1), requests[n - 1].subject, requests[n - 1].at)
  }

  predicate Accepted(limits: Limits, requests: seq<Request>, n: nat)
    requires limits.Valid() && n < |requests| && AfterEpoch(requests)
  {
    limits.Accepts(TableAfter(limits, requests, n), requests[n].subject, requests[n].at)
  }

  predicate InWindow(limits: Limits, r: Request, subject: string, start: nat)
    requires limits.Valid() && r.at >= 0.0
  {
    r.subject == subject && limits.Start(r.at) == start
  }

  /** How many of the first n requests fall into one window of one subject. */
  function Arrivals(limits: Limits, requests: seq<Request>, n: nat, subject: string, start: nat): nat
    requires limits.Valid() && n <= |requests| && AfterEpoch(requests)
  {
    if n == 0 then 0
    else
      Arrivals(limits, requests, n - 1, subject, start)
      + (if InWindow(limits, requests[n - 1], subject, start) then 1 else 0)
  }

  /** How many of those were accepted. */
  function Acceptances(limits: Limits, requests: seq<Request>, n: nat, subject: string, start: nat): nat
    requires limits.Valid() && n <= |requests| && AfterEpoch(requests)
  {
    if n == 0 then 0
    else
      Acceptances(limits, requests, n - 1, subject, start)
      + (if InWindow(limits, requests[n - 1], subject, start) && Accepted(limits, requests, n - 1) then 1 else 0)
  }

  /** The counter of a window counts its requests and lives until the window has ended, whatever else arrives. */
  predicate CounterTells(limits: Limits, table: Table, subject: string, start: nat, arrivals: nat)
    requires limits.Valid()
  {
    var key := limits.Key(subject, start);
    if arrivals == 0 then key !in table
    else
      && key in table && table[key].count == arrivals
      && table[key].expiresAt.Some? && table[key].expiresAt.value >= (start + limits.windowSeconds) as real
  }

  lemma OwnRequest(limits: Limits, table: Table, r: Request, arrivals: nat)
    requires limits.Valid() && r.at >= 0.0 && CounterTells(limits, table, r.subject, limits.Start(r.at), arrivals)
    ensures CounterTells(limits, limits.Next(table, r.subject, r.at), r.subject, limits.Start(r.at), arrivals + 1)
    ensures limits.Accepts(table, r.subject, r.at) <==> arrivals < limits.maxRequests
  {
    var start := limits.Start(r.at);
    assert (start + limits.windowSeconds) as real == start as real + limits.windowSeconds as real;
  }

  lemma OtherRequest(limits: Limits, table: Table, r: Request, subject: string, start: nat, arrivals: nat)
    requires limits.Valid() && r.at >= 0.0 && !InWindow(limits, r, subject, start)
    requires CounterTells(limits, table, subject, start, arrivals)
    ensures CounterTells(limits, limits.Next(table, r.subject, r.at), subject, start, arrivals)
  {
    KeyInjective(limits, subject, start, r.subject, limits.Start(r.at));
  }

  /** The refreshed time to live never lets a counter die inside its own window. */
  lemma {:induction false} CountersTell(limits: Limits, requests: seq<Request>, n: nat, subject: string, start: nat)
    requires limits.Valid() && n <= |requests| && AfterEpoch(requests)
    ensures CounterTells(limits, TableAfter(limits, requests, n), subject, start,
                         Arrivals(limits, requests, n, subject, start))
  {
    if n > 0 {
      var r, table := requests[n - 1], TableAfter(limits, requests, n - 1);
      CountersTell(limits, requests, n - 1, subject, start);
      if InWindow(limits, r, subject, start) {
        OwnRequest(limits, table, r, Arrivals(limits, requests, n - 1, subject, start));
      } else {
        OtherRequest(limits, table, r, subject, start, Arrivals(limits, requests, n - 1, subject, start));
      }
    }
  }

  /** A request is accepted exactly when fewer than `maxRequests` of its subject came before it in its window. */
  lemma AcceptedExactly(limits: Limits, requests: seq<Request>, n: nat)
    requires limits.Valid() && n < |requests| && AfterEpoch(requests)
    ensures Accepted(limits, requests, n)
      <==> Arrivals(limits, requests, n, requests[n].subject, limits.Start(requests[n].at)) < limits.maxRequests
  {
    var r := requests[n];
    CountersTell(limits, requests, n, r.subject, limits.Start(r.at));
    OwnRequest(limits, TableAfter(limits, requests, n), r,
               Arrivals(limits, requests, n, r.subject, limits.Start(r.at)));
  }

  function Most(limits: Limits): nat {
    if limits.maxRequests > 0 then limits.maxRequests else 0
  }

  /** Every aligned window accepts the first `maxRequests` of its requests and no others. */
  lemma {:induction false} WindowAcceptsMin(limits: Limits, requests: seq<Request>, n: nat, subject: string, start: nat)
    requires limits.Valid() && n <= |requests| && AfterEpoch(requests)
    ensures var arrivals := Arrivals(limits, requests, n, subject, start);
      Acceptances(limits, requests, n, subject, start) == if arrivals < Most(limits) then arrivals else Most(limits)
  {
    if n > 0 {
      WindowAcceptsMin(limits, requests, n - 1, subject, start);
      if InWindow(limits, requests[n - 1], subject, start) {
        AcceptedExactly(limits, requests, n - 1);
      }
    }
  }

  /** How many requests of the subject were accepted in [from, from + window). */
  function AcceptedFrom(limits: Limits, requests: seq<Request>, n: nat, subject: string, from: real): nat
    requires limits.Valid() && n <= |requests| && AfterEpoch(requests)
  {
    if n == 0 then 0
    else
      var r := requests[n - 1];
      AcceptedFrom(limits, requests, n - 1, subject, from)
      + (if r.subject == subject && from <= r.at < from + limits.windowSeconds as real
            && Accepted(limits, requests, n - 1) then 1 else 0)
  }

  /** An interval one window long meets at most two aligned windows. */
  lemma TwoWindows(limits: Limits, from: real, at: real)
    requires limits.Valid() && 0.0 <= from <= at < from + limits.windowSeconds as real
    ensures limits.Start(at) == limits.Start(from) || limits.Start(at) == limits.Start(from) + limits.windowSeconds
  {
    var w := limits.windowSeconds;
    Aligned(from.Floor, w);
    Aligned(at.Floor, w);
    var a, b := limits.Start(from), limits.Start(at);
    assert at < (a + w + w) as real;
    var p, q := from.Floor / w, at.Floor / w;
    assert b < a + 2 * w && a < b + w;
    Between(p, q, w);
  }

  lemma Aligned(n: nat, w: int)
    requires w >= 1
    ensures n - n % w == n / w * w
  {
  }

  lemma Between(p: int, q: int, w: int)
    requires w >= 1 && q * w < p * w + 2 * w && p * w < q * w + w
    ensures q == p || q == p + 1
  {
    if q >= p + 2 {
      Multiples(p + 2, q, w);
    }
    if q <= p - 1 {
      Multiples(q, p - 1, w);
    }
  }

  lemma Multiples(x: int, y: int, w: int)
    requires x <= y && w >= 1
    ensures x * w <= y * w
  {
  }

  lemma {:induction false} TwoWindowsCount(limits: Limits, requests: seq<Request>, n: nat, subject: string, from: real)
    requires limits.Valid() && n <= |requests| && AfterEpoch(requests) && from >= 0.0
    ensures AcceptedFrom(limits, requests, n, subject, from)
      <= Acceptances(limits, requests, n, subject, limits.Start(from))
         + Acceptances(limits, requests, n, subject, limits.Start(from) + limits.windowSeconds)
  {
    if n > 0 {
      TwoWindowsCount(limits, requests, n - 1, subject, from);
      if from <= requests[n - 1].at < from + limits.windowSeconds as real {
        TwoWindows(limits, from, requests[n - 1].at);
      }
    }
  }

  /** The price of aligned windows: any half-open interval of the window's length accepts at most twice the limit. */
  lemma AtMostTwice(limits: Limits, requests: seq<Request>, n: nat, subject: string, from: real)
    requires limits.Valid() && n <= |requests| && AfterEpoch(requests) && from >= 0.0
    ensures AcceptedFrom(limits, requests, n, subject, from) <= 2 * Most(limits)
  {
    TwoWindowsCount(limits, requests, n, subject, from);
    WindowAcceptsMin(limits, requests, n, subject, limits.Start(from));
    WindowAcceptsMin(limits, requests, n, subject, limits.Start(from) + limits.windowSeconds);
  }
}
