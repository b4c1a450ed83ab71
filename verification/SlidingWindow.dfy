/** The in-memory rate limiter (app/rate_limit/limiter.py): a queue of accepted times per subject. */
module SlidingWindow {
  import opened Windows

  type Buckets = map<string, seq<real>>

  function BucketOf(buckets: Buckets, subject: string): seq<real> {
    if subject in buckets then buckets[subject] else []
  }

  datatype Limits = Limits(maxRequests: int, windowSeconds: int) {
    /** The queue when the request is decided. */
    function Pruned(bucket: seq<real>, now: real): seq<real> {
      DropOld(bucket, now - windowSeconds as real, true)
    }

    predicate Accepts(bucket: seq<real>, now: real) {
      |Pruned(bucket, now)| < maxRequests
    }

    function Next(bucket: seq<real>, now: real): seq<real> {
      Pruned(bucket, now) + (if Accepts(bucket, now) then [now] else [])
    }
  }

  class InMemoryRateLimiter {
    const limits: Limits
    var buckets: Buckets

    constructor (maxRequests: int, windowSeconds: int)
      ensures limits == Limits(maxRequests, windowSeconds) && buckets == map[]
    {
      limits, buckets := Limits(maxRequests, windowSeconds), map[];
    }

    method Allow(subject: string, now: real) returns (ok: bool)
      modifies this
      ensures ok <==> limits.Accepts(BucketOf(old(buckets), subject), now)
      ensures buckets == old(buckets)[subject := limits.Next(BucketOf(old(buckets), subject), now)]
    {
      var bucket := BucketOf(buckets, subject);
      while bucket != [] && now - bucket[0] > limits.windowSeconds as real
        invariant limits.Pruned(bucket, now) == limits.Pruned(BucketOf(buckets, subject), now)
      {
        bucket := bucket[1..];
      }
      assert bucket == limits.Pruned(bucket, now);
      ok := |bucket| < limits.maxRequests;
      if ok {
        bucket := bucket + [now];
      }
      assert bucket == limits.Next(BucketOf(buckets, subject), now);
      buckets := buckets[subject := bucket];
    }
  }

  /** The queue that is stored: the times in the closed window, and this one behind them if it is accepted. */
  lemma NextMeans(limits: Limits, bucket: seq<real>, now: real)
    requires Ascending(bucket)
    ensures exists k :: (
      && 0 <= k <= |bucket|
      && (forall i :: 0 <= i < |bucket| ==> (bucket[i] >= now - limits.windowSeconds as real <==> i >= k))
      && limits.Next(bucket, now) == bucket[k..] + (if |bucket| - k < limits.maxRequests then [now] else [])
      && (limits.Accepts(bucket, now) <==> |bucket| - k < limits.maxRequests))
  {
    var left := limits.Pruned(bucket, now);
    DropOldMeans(bucket, now - limits.windowSeconds as real, true);
    assert bucket[|bucket| - |left|..] == left;
  }

  // ---------------------------------------------------------------- runs

  datatype Request = Request(subject: string, at: real)

  predicate ClockRuns(requests: seq<Request>) {
    forall i, j :: 0 <= i < j < |requests| ==> requests[i].at <= requests[j].at
  }

  /** The queues before request n. */
  function BucketsAfter(limits: Limits, requests: seq<Request>, n: nat): Buckets
    requires n <= |requests|
  {
    if n == 0 then map[]
    else
      var buckets, r := BucketsAfter(limits, requests, n - 1), requests[n - 1];
      buckets[r.subject := limits.Next(BucketOf(buckets, r.subject), r.at)]
  }

  predicate Accepted(limits: Limits, requests: seq<Request>, n: nat)
    requires n < |requests|
  {
    limits.Accepts(BucketOf(BucketsAfter(limits, requests, n), requests[n].subject), requests[n].at)
  }

  /** The times of every request of the subject accepted so far; nothing is ever forgotten here. */
  function Acceptances(limits: Limits, requests: seq<Request>, n: nat, subject: string): seq<real>
    requires n <= |requests|
  {
    if n == 0 then []
    else
      Acceptances(limits, requests, n - 1, subject)
      + (if requests[n - 1].subject == subject && Accepted(limits, requests, n - 1) then [requests[n - 1].at] else [])
  }

  /** Those in the closed window that ends now. */
  function RecentAcceptances(limits: Limits, requests: seq<Request>, n: nat, subject: string, now: real): seq<real>
    requires n <= |requests|
  {
    Keep(Acceptances(limits, requests, n, subject), now - limits.windowSeconds as real, true)
  }

  /** The queue of a subject tells the same as its full history, from the window that ends now on. */
  ghost predicate QueueTells(limits: Limits, requests: seq<Request>, n: nat, subject: string, now: real)
    requires n <= |requests|
  {
    SameRecent(BucketOf(BucketsAfter(limits, requests, n), subject), Acceptances(limits, requests, n, subject),
               now - limits.windowSeconds as real, now, true)
  }

  /** What one decision does to queue and history, it does to both alike. */
  lemma NextSame(limits: Limits, bucket: seq<real>, history: seq<real>, now: real)
    requires SameRecent(bucket, history, now - limits.windowSeconds as real, now, true)
    ensures SameRecent(limits.Next(bucket, now), history + (if limits.Accepts(bucket, now) then [now] else []),
                       now - limits.windowSeconds as real, now, true)
  {
    var from := now - limits.windowSeconds as real;
    PruneSame(bucket, history, from, from, now, true);
    if limits.Accepts(bucket, now) {
      AppendSame(limits.Pruned(bucket, now), history, from, now, true);
    } else {
      assert limits.Pruned(bucket, now) + [] == limits.Pruned(bucket, now) && history + [] == history;
    }
  }

  lemma OwnStep(limits: Limits, requests: seq<Request>, n: nat)
    requires n < |requests| && QueueTells(limits, requests, n, requests[n].subject, requests[n].at)
    ensures QueueTells(limits, requests, n + 1, requests[n].subject, requests[n].at)
  {
    var r := requests[n];
    NextSame(limits, BucketOf(BucketsAfter(limits, requests, n), r.subject),
             Acceptances(limits, requests, n, r.subject), r.at);
  }

  lemma OtherStep(limits: Limits, requests: seq<Request>, n: nat, subject: string, now: real)
    requires n < |requests| && QueueTells(limits, requests, n, subject, now) && requests[n].subject != subject
    ensures QueueTells(limits, requests, n + 1, subject, now)
  {
    assert Acceptances(limits, requests, n, subject) + [] == Acceptances(limits, requests, n, subject);
    OtherBucket(BucketsAfter(limits, requests, n), requests[n].subject, subject, limits.Next(
      BucketOf(BucketsAfter(limits, requests, n), requests[n].subject), requests[n].at));
  }

  lemma OtherBucket(buckets: Buckets, key: string, subject: string, bucket: seq<real>)
    requires key != subject
    ensures BucketOf(buckets[key := bucket], subject) == BucketOf(buckets, subject)
  {
  }

  lemma OneStep(limits: Limits, requests: seq<Request>, n: nat, subject: string)
    requires n < |requests| && QueueTells(limits, requests, n, subject, requests[n].at)
    ensures QueueTells(limits, requests, n + 1, subject, requests[n].at)
  {
    if requests[n].subject == subject {
      OwnStep(limits, requests, n);
    } else {
      OtherStep(limits, requests, n, subject, requests[n].at);
    }
  }

  lemma TellsLater(limits: Limits, requests: seq<Request>, n: nat, subject: string, now: real, later: real)
    requires n <= |requests| && QueueTells(limits, requests, n, subject, now) && now <= later
    ensures QueueTells(limits, requests, n, subject, later)
  {
  }

  lemma {:induction false} QueuesTell(limits: Limits, requests: seq<Request>, n: nat, subject: string, now: real)
    requires ClockRuns(requests) && n <= |requests|
    requires n > 0 ==> requests[n - 1].at <= now
    ensures QueueTells(limits, requests, n, subject, now)
  {
    if n == 0 {
      NothingSame(now - limits.windowSeconds as real, now, true);
    } else {
      assert n > 1 ==> requests[n - 2].at <= requests[n - 1].at;
      QueuesTell(limits, requests, n - 1, subject, requests[n - 1].at);
      OneStep(limits, requests, n - 1, subject);
      TellsLater(limits, requests, n, subject, requests[n - 1].at, now);
    }
  }

  lemma Decided(limits: Limits, requests: seq<Request>, n: nat)
    requires ClockRuns(requests) && n < |requests|
    ensures Accepted(limits, requests, n)
      <==> |RecentAcceptances(limits, requests, n, requests[n].subject, requests[n].at)| < limits.maxRequests
    ensures NotAfter(Acceptances(limits, requests, n, requests[n].subject), requests[n].at)
  {
    var subject, now := requests[n].subject, requests[n].at;
    assert n > 0 ==> requests[n - 1].at <= requests[n].at;
    QueuesTell(limits, requests, n, subject, now);
    Decision(limits, BucketOf(BucketsAfter(limits, requests, n), subject), Acceptances(limits, requests, n, subject),
             now);
  }

  /** The requests of the subject of request n accepted before, within the closed window that ends with it. */
  function AcceptedBefore(limits: Limits, requests: seq<Request>, n: nat): nat
    requires n < |requests|
  {
    CountFrom(Acceptances(limits, requests, n, requests[n].subject), requests[n].at - limits.windowSeconds as real)
  }

  lemma AcceptedCounted(limits: Limits, requests: seq<Request>, n: nat)
    requires n < |requests| && QueueTells(limits, requests, n, requests[n].subject, requests[n].at)
    ensures Accepted(limits, requests, n) <==> AcceptedBefore(limits, requests, n) < limits.maxRequests
  {
    DecisionCounted(limits, BucketOf(BucketsAfter(limits, requests, n), requests[n].subject),
                    Acceptances(limits, requests, n, requests[n].subject), requests[n].at);
  }

  /**
   The decision. In every run a request is accepted exactly when fewer than `maxRequests` of all the requests
   of its subject accepted so far lie in the closed window that ends now.
   */
  lemma AcceptedExactly(limits: Limits, requests: seq<Request>, n: nat)
    requires ClockRuns(requests) && n < |requests|
    ensures Accepted(limits, requests, n) <==> AcceptedBefore(limits, requests, n) < limits.maxRequests
  {
    assert n > 0 ==> requests[n - 1].at <= requests[n].at;
    QueuesTell(limits, requests, n, requests[n].subject, requests[n].at);
    AcceptedCounted(limits, requests, n);
  }

  lemma DecisionCounted(limits: Limits, bucket: seq<real>, history: seq<real>, now: real)
    requires SameRecent(bucket, history, now - limits.windowSeconds as real, now, true)
    ensures limits.Accepts(bucket, now) <==> CountFrom(history, now - limits.windowSeconds as real) < limits.maxRequests
  {
    Decision(limits, bucket, history, now);
    KeepFrom(history, now - limits.windowSeconds as real);
  }

  lemma Decision(limits: Limits, bucket: seq<real>, history: seq<real>, now: real)
    requires SameRecent(bucket, history, now - limits.windowSeconds as real, now, true)
    ensures limits.Accepts(bucket, now)
      <==> |Keep(history, now - limits.windowSeconds as real, true)| < limits.maxRequests
    ensures NotAfter(history, now)
  {
    PrunedIsKept(limits, bucket, history, now, now - limits.windowSeconds as real);
  }

  lemma PrunedIsKept(limits: Limits, bucket: seq<real>, history: seq<real>, now: real, from: real)
    requires SameRecent(bucket, history, from, now, true) && from == now - limits.windowSeconds as real
    ensures limits.Pruned(bucket, now) == Keep(history, from, true)
  {
    PruneSame(bucket, history, from, from, now, true);
  }

  function Most(limits: Limits): nat {
    if limits.maxRequests > 0 then limits.maxRequests else 0
  }

  lemma AcceptedStep(limits: Limits, requests: seq<Request>, n: nat, start: real)
    requires ClockRuns(requests) && n < |requests| && Accepted(limits, requests, n)
    requires start <= requests[n].at <= start + limits.windowSeconds as real
    ensures var history := Acceptances(limits, requests, n, requests[n].subject);
      |Between(history, start, start + limits.windowSeconds as real, true)| < limits.maxRequests
  {
    var w := limits.windowSeconds as real;
    Decided(limits, requests, n);
    KeepCounts(Acceptances(limits, requests, n, requests[n].subject), requests[n].at - w, start, start + w, true);
  }

  lemma OneMoreBetween(history: seq<real>, t: real, start: real, end: real, most: nat)
    requires |Between(history, start, end, true)| <= most
    requires start <= t <= end ==> |Between(history, start, end, true)| < most
    ensures |Between(history + [t], start, end, true)| <= most
  {
    BetweenAppend(history, t, start, end, true);
  }

  /** One more request leaves the bound where it is. */
  lemma BoundStep(limits: Limits, requests: seq<Request>, n: nat, subject: string, start: real, end: real)
    requires ClockRuns(requests) && n < |requests| && end == start + limits.windowSeconds as real
    requires |Between(Acceptances(limits, requests, n, subject), start, end, true)| <= Most(limits)
    ensures |Between(Acceptances(limits, requests, n + 1, subject), start, end, true)| <= Most(limits)
  {
    var r, history := requests[n], Acceptances(limits, requests, n, subject);
    if r.subject == subject && Accepted(limits, requests, n) {
      if start <= r.at <= end {
        AcceptedStep(limits, requests, n, start);
      }
      OneMoreBetween(history, r.at, start, end, Most(limits));
    } else {
      assert Acceptances(limits, requests, n + 1, subject) == history + [] == history;
    }
  }

  lemma {:induction false} BoundHolds(limits: Limits, requests: seq<Request>, n: nat, subject: string, start: real,
                                      end: real)
    requires ClockRuns(requests) && n <= |requests| && end == start + limits.windowSeconds as real
    ensures |Between(Acceptances(limits, requests, n, subject), start, end, true)| <= Most(limits)
  {
    if n > 0 {
      BoundHolds(limits, requests, n - 1, subject, start, end);
      BoundStep(limits, requests, n - 1, subject, start, end);
    }
  }

  /** No closed interval of the window's length, wherever it starts, ever holds more than the limit. */
  lemma NeverAboveLimit(limits: Limits, requests: seq<Request>, n: nat, subject: string, start: real)
    requires ClockRuns(requests) && n <= |requests|
    ensures var times := Acceptances(limits, requests, n, subject);
      var end := start + limits.windowSeconds as real;
      CountFromTo(times, start, end) <= if limits.maxRequests > 0 then limits.maxRequests else 0
  {
    BoundHolds(limits, requests, n, subject, start, start + limits.windowSeconds as real);
    BetweenFrom(Acceptances(limits, requests, n, subject), start, start + limits.windowSeconds as real);
  }
}
