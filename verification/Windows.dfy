/** Sliding windows over a sequence of times: the part of a history that is still recent enough. */
module Windows {

  /** A time at or after the bound; a window without its left end leaves the bound itself out. */
  predicate Recent(t: real, bound: real, closed: bool) {
    if closed then t >= bound else t > bound
  }

  /** The recent times of a history. */
  function Keep(s: seq<real>, bound: real, closed: bool): seq<real> {
    if s == [] then []
    else
      var last := s[|s| - 1];
      Keep(s[..|s| - 1], bound, closed) + (if Recent(last, bound, closed) then [last] else [])
  }

  /** The recent times that are not after `end`. */
  function Between(s: seq<real>, bound: real, end: real, closed: bool): seq<real> {
    if s == [] then []
    else
      var last := s[|s| - 1];
      Between(s[..|s| - 1], bound, end, closed) + (if Recent(last, bound, closed) && last <= end then [last] else [])
  }

  /** What popping outdated times off the front leaves. */
  function DropOld(s: seq<real>, bound: real, closed: bool): seq<real> {
    if s != [] && !Recent(s[0], bound, closed) then DropOld(s[1..], bound, closed) else s
  }

  predicate Ascending(s: seq<real>) {
    forall i, j :: 0 <= i < j < |s| ==> s[i] <= s[j]
  }

  predicate NotAfter(s: seq<real>, t: real) {
    forall i :: 0 <= i < |s| ==> s[i] <= t
  }

  lemma KeepAppend(s: seq<real>, t: real, bound: real, closed: bool)
    ensures Keep(s + [t], bound, closed) == Keep(s, bound, closed) + (if Recent(t, bound, closed) then [t] else [])
  {
    assert (s + [t])[..|s + [t]| - 1] == s;
  }

  lemma BetweenAppend(s: seq<real>, t: real, bound: real, end: real, closed: bool)
    ensures Between(s + [t], bound, end, closed)
         == Between(s, bound, end, closed) + (if Recent(t, bound, closed) && t <= end then [t] else [])
  {
    assert (s + [t])[..|s + [t]| - 1] == s;
  }

  lemma {:induction false} KeepAll(s: seq<real>, bound: real, closed: bool)
    requires forall i :: 0 <= i < |s| ==> Recent(s[i], bound, closed)
    ensures Keep(s, bound, closed) == s
  {
    if s != [] {
      KeepAll(s[..|s| - 1], bound, closed);
    }
  }

  lemma {:induction false} KeepTail(s: seq<real>, bound: real, closed: bool)
    requires s != [] && !Recent(s[0], bound, closed)
    ensures Keep(s, bound, closed) == Keep(s[1..], bound, closed)
  {
    if |s| > 1 {
      var init := s[..|s| - 1];
      KeepTail(init, bound, closed);
      assert s[1..][..|s[1..]| - 1] == init[1..];
    }
  }

  /** Popping off the front leaves the end of an ascending queue, from the first time that is not outdated on. */
  lemma {:induction false} DropOldMeans(s: seq<real>, bound: real, closed: bool)
    requires Ascending(s)
    ensures var left := DropOld(s, bound, closed);
      && |left| <= |s| && left == s[|s| - |left|..]
      && (forall i :: 0 <= i < |s| ==> ((if closed then s[i] >= bound else s[i] > bound) <==> i >= |s| - |left|))
  {
    if s != [] && !Recent(s[0], bound, closed) {
      DropOldMeans(s[1..], bound, closed);
      var left := DropOld(s, bound, closed);
      forall i | 0 <= i < |s|
        ensures (if closed then s[i] >= bound else s[i] > bound) <==> i >= |s| - |left|
      {
        assert i > 0 ==> s[i] == s[1..][i - 1];
      }
    }
  }

  /** On an ascending history, popping off the front removes exactly what is outdated. */
  lemma {:induction false} DropOldIsKeep(s: seq<real>, bound: real, closed: bool)
    requires Ascending(s)
    ensures DropOld(s, bound, closed) == Keep(s, bound, closed)
  {
    if s != [] && !Recent(s[0], bound, closed) {
      DropOldIsKeep(s[1..], bound, closed);
      KeepTail(s, bound, closed);
    } else {
      KeepAll(s, bound, closed);
    }
  }

  /** Forgetting what is outdated now cannot be told later. */
  lemma {:induction false} KeepTwice(s: seq<real>, bound: real, later: real, closed: bool)
    requires bound <= later
    ensures Keep(Keep(s, bound, closed), later, closed) == Keep(s, later, closed)
  {
    if s != [] {
      var init, last := s[..|s| - 1], s[|s| - 1];
      KeepTwice(init, bound, later, closed);
      if Recent(last, bound, closed) {
        KeepAppend(Keep(init, bound, closed), last, later, closed);
      } else {
        assert Keep(s, bound, closed) == Keep(init, bound, closed);
        assert Keep(s, later, closed) == Keep(init, later, closed);
      }
    }
  }

  lemma {:induction false} KeepOrdered(s: seq<real>, bound: real, closed: bool, t: real)
    requires Ascending(s) && NotAfter(s, t)
    ensures Ascending(Keep(s, bound, closed)) && NotAfter(Keep(s, bound, closed), t)
  {
    if s != [] {
      KeepOrdered(s[..|s| - 1], bound, closed, s[|s| - 1]);
    }
  }

  /** A later bound keeps no more, and an end takes more away. */
  lemma {:induction false} KeepCounts(s: seq<real>, bound: real, later: real, end: real, closed: bool)
    requires bound <= later
    ensures |Between(s, later, end, closed)| <= |Keep(s, later, closed)| <= |Keep(s, bound, closed)|
  {
    if s != [] {
      KeepCounts(s[..|s| - 1], bound, later, end, closed);
    }
  }

  /** Nothing is kept of a history that ended at or before an open bound. */
  lemma {:induction false} KeepNone(s: seq<real>, bound: real)
    requires NotAfter(s, bound)
    ensures Keep(s, bound, false) == []
  {
    if s != [] {
      KeepNone(s[..|s| - 1], bound);
    }
  }

  /** Whatever bound comes later, the queue and the full history show the same recent times. */
  ghost predicate SameRecent(queue: seq<real>, history: seq<real>, from: real, now: real, closed: bool) {
    && Ascending(queue) && NotAfter(queue, now) && NotAfter(history, now)
    && forall bound :: bound >= from ==> Keep(queue, bound, closed) == Keep(history, bound, closed)
  }

  lemma NothingSame(from: real, now: real, closed: bool)
    ensures SameRecent([], [], from, now, closed)
  {
  }

  /** Popping what is outdated, as each check and each new time does, cannot be told from the answers. */
  lemma PruneSame(queue: seq<real>, history: seq<real>, from: real, bound: real, now: real, closed: bool)
    requires SameRecent(queue, history, from, now, closed) && from <= bound
    ensures SameRecent(DropOld(queue, bound, closed), history, bound, now, closed)
    ensures DropOld(queue, bound, closed) == Keep(history, bound, closed)
  {
    DropOldIsKeep(queue, bound, closed);
    KeepOrdered(queue, bound, closed, now);
    forall later | later >= bound
      ensures Keep(Keep(queue, bound, closed), later, closed) == Keep(history, later, closed)
    {
      KeepTwice(queue, bound, later, closed);
    }
  }

  lemma AppendSame(queue: seq<real>, history: seq<real>, from: real, now: real, closed: bool)
    requires SameRecent(queue, history, from, now, closed)
    ensures SameRecent(queue + [now], history + [now], from, now, closed)
  {
    forall bound | bound >= from
      ensures Keep(queue + [now], bound, closed) == Keep(history + [now], bound, closed)
    {
      KeepAppend(queue, now, bound, closed);
      KeepAppend(history, now, bound, closed);
    }
  }

  // ---------------------------------------------------------------- counted one by one

  /** How many times are not before `start`. */
  function CountFrom(times: seq<real>, start: real): nat {
    if times == [] then 0
    else CountFrom(times[..|times| - 1], start) + (if times[|times| - 1] >= start then 1 else 0)
  }

  /** How many times are after `start`. */
  function CountAfter(times: seq<real>, start: real): nat {
    if times == [] then 0
    else CountAfter(times[..|times| - 1], start) + (if times[|times| - 1] > start then 1 else 0)
  }

  /** How many lie in the closed interval. */
  function CountFromTo(times: seq<real>, start: real, end: real): nat {
    if times == [] then 0
    else CountFromTo(times[..|times| - 1], start, end) + (if start <= times[|times| - 1] <= end then 1 else 0)
  }

  /** How many lie in the interval without its left end. */
  function CountAfterTo(times: seq<real>, start: real, end: real): nat {
    if times == [] then 0
    else CountAfterTo(times[..|times| - 1], start, end) + (if start < times[|times| - 1] <= end then 1 else 0)
  }

  lemma {:induction false} KeepFrom(times: seq<real>, start: real)
    ensures |Keep(times, start, true)| == CountFrom(times, start)
  {
    if times != [] {
      KeepFrom(times[..|times| - 1], start);
    }
  }

  lemma {:induction false} KeepAfter(times: seq<real>, start: real)
    ensures |Keep(times, start, false)| == CountAfter(times, start)
  {
    if times != [] {
      KeepAfter(times[..|times| - 1], start);
    }
  }

  lemma {:induction false} BetweenFrom(times: seq<real>, start: real, end: real)
    ensures |Between(times, start, end, true)| == CountFromTo(times, start, end)
  {
    if times != [] {
      BetweenFrom(times[..|times| - 1], start, end);
    }
  }

  lemma {:induction false} BetweenAfter(times: seq<real>, start: real, end: real)
    ensures |Between(times, start, end, false)| == CountAfterTo(times, start, end)
  {
    if times != [] {
      BetweenAfter(times[..|times| - 1], start, end);
    }
  }
}
