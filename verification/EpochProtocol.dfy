/**
 The index epoch (app/dependencies.py) and the search tags made from it (app/public_api/routes.py), as a
 protocol: ingests commit to the backend and then bump the epoch, search handlers read the epoch and then ask
 the backend, and clients offer the tags of replies they hold. Steps of different ingests and handlers
 interleave freely.
 */
module EpochProtocol {
  import opened Wrappers
  import opened Text
  import opened Query
  import opened CacheKey
  import opened HttpCache

  /** How far an ingest has come. `indexed`: at least one document of its batch reached the index. */
  datatype Phase =
    | Writing
    | Committed(indexed: bool)
    | Bumped
    | Returned(indexed: bool)
    | Raised(indexed: bool)

  /** A handler that has read the epoch and not yet asked the backend. */
  datatype Asked = Asked(fmt: string, nq: NormalizedQuery, epoch: nat)

  /** A full reply: the tag it carried was made from `epoch`, its body from the first `seen` committed batches. */
  datatype Reply = Reply(fmt: string, nq: NormalizedQuery, epoch: nat, seen: nat)

  /** `log` lists the batches in the index, in commit order; `replies` is everything clients may hold. */
  datatype State = State(epoch: nat, log: seq<int>, ingests: map<int, Phase>, asked: map<int, Asked>,
                         replies: set<Reply>)

  const INITIAL := State(0, [], map[], map[], {})

  /** What does not change while the server runs. */
  datatype Server = Server(sha: string -> string, cache: CacheConfig) {
    ghost predicate Valid() {
      IsDigest(sha)
    }

    function Tag(fmt: string, nq: NormalizedQuery, epoch: nat): string {
      SearchTag(fmt, Key(sha, nq), epoch)
    }

    function TagOf(r: Reply): string {
      Tag(r.fmt, r.nq, r.epoch)
    }
  }

  datatype Step =
    | Begin(i: int)
    | Commit(i: int, indexed: bool)
    | Bump(i: int)
    | Return(i: int)
    | Raise(i: int, indexed: bool)
    | Ask(h: int, fmt: string, nq: NormalizedQuery, held: seq<string>)
    | Query(h: int)

  /** The text is the reply's tag, perhaps with the weak prefix taken off on the way. */
  predicate IsTagOf(server: Server, r: Reply, tag: string) {
    tag == server.TagOf(r) || tag == StripWeak(server.TagOf(r))
  }

  ghost predicate FromReplies(server: Server, replies: set<Reply>, held: seq<string>) {
    forall k :: 0 <= k < |held| ==> Held(server, replies, held[k])
  }

  ghost predicate Held(server: Server, replies: set<Reply>, tag: string) {
    exists r :: r in replies && IsTagOf(server, r, tag)
  }

  /** The handler's answer, decided when it has read the epoch. */
  predicate Answers304(server: Server, s: State, step: Step)
    requires step.Ask?
  {
    NotModified(server.cache, Some(Join(step.held, ", ")), server.Tag(step.fmt, step.nq, s.epoch))
  }

  ghost predicate Enabled(server: Server, s: State, step: Step) {
    match step
    case Begin(i) => i !in s.ingests
    case Commit(i, _) => i in s.ingests && s.ingests[i].Writing?
    case Bump(i) => i in s.ingests && s.ingests[i] == Committed(true)
    case Return(i) => i in s.ingests && (s.ingests[i] == Committed(false) || s.ingests[i].Bumped?)
    case Raise(i, indexed) => i in s.ingests && s.ingests[i].Writing?
    case Ask(h, fmt, nq, held) =>
      h !in s.asked && IsFormat(fmt) && nq.WellFormed() && FromReplies(server, s.replies, held)
    case Query(h) => h in s.asked
  }

  function Apply(server: Server, s: State, step: Step): State {
    match step
    case Begin(i) => s.(ingests := s.ingests[i := Writing])
    case Commit(i, indexed) =>
      s.(ingests := s.ingests[i := Committed(indexed)], log := if indexed then s.log + [i] else s.log)
    case Bump(i) => s.(ingests := s.ingests[i := Bumped], epoch := s.epoch + 1)
    case Return(i) => s.(ingests := s.ingests[i := Returned(i in s.ingests && s.ingests[i].Bumped?)])
    case Raise(i, indexed) =>
      s.(ingests := s.ingests[i := Raised(indexed)], log := if indexed then s.log + [i] else s.log)
    case Ask(h, fmt, nq, held) =>
      if Answers304(server, s, step) then s else s.(asked := s.asked[h := Asked(fmt, nq, s.epoch)])
    case Query(h) =>
      if h in s.asked then
        var a := s.asked[h];
        s.(asked := s.asked - {h}, replies := s.replies + {Reply(a.fmt, a.nq, a.epoch, |s.log|)})
      else s
  }

  /** The state before step n. */
  function After(server: Server, steps: seq<Step>, n: nat): State
    requires n <= |steps|
  {
    if n == 0 then INITIAL else Apply(server, After(server, steps, n - 1), steps[n - 1])
  }

  ghost predicate Run(server: Server, steps: seq<Step>) {
    forall n :: 0 <= n < |steps| ==> Enabled(server, After(server, steps, n), steps[n])
  }

  // ---------------------------------------------------------------- the invariant

  /** The ingest has bumped the epoch. */
  predicate HasBumped(p: Phase) {
    p.Bumped? || p == Returned(true)
  }

  predicate HasIndexed(p: Phase) {
    p == Committed(true) || p.Bumped? || p == Returned(true) || p == Raised(true)
  }

  /** Every batch whose ingest has bumped is among the first n of the log. */
  predicate BumpedWithin(s: State, n: nat)
    requires n <= |s.log|
  {
    forall i :: i in s.ingests && HasBumped(s.ingests[i]) ==> i in s.log[..n]
  }

  /** A reply under the present epoch was made after every bump so far. */
  predicate ReplyHolds(s: State, r: Reply) {
    && IsFormat(r.fmt) && r.nq.WellFormed()
    && r.epoch <= s.epoch && r.seen <= |s.log|
    && (r.epoch == s.epoch ==> BumpedWithin(s, r.seen))
  }

  ghost predicate Inv(s: State) {
    && (forall i :: i in s.log ==> i in s.ingests && HasIndexed(s.ingests[i]))
    && BumpedWithin(s, |s.log|)
    && (forall i :: i in s.ingests && HasIndexed(s.ingests[i]) ==> i in s.log)
    && (forall h :: h in s.asked ==>
          s.asked[h].epoch <= s.epoch && IsFormat(s.asked[h].fmt) && s.asked[h].nq.WellFormed())
    && (forall r :: r in s.replies ==> ReplyHolds(s, r))
  }

  lemma IngestKeeps(server: Server, s: State, step: Step)
    requires Inv(s) && Enabled(server, s, step) && !step.Ask? && !step.Query? && !step.Bump?
    ensures Inv(Apply(server, s, step))
  {
    var t := Apply(server, s, step);
    assert t.epoch == s.epoch && t.log[..|s.log|] == s.log;
    assert t.log[..|t.log|] == t.log && s.log[..|s.log|] == s.log;
    forall r | r in t.replies ensures ReplyHolds(t, r) {
      assert ReplyHolds(s, r);
      assert t.log[..r.seen] == s.log[..r.seen];
    }
  }

  lemma BumpKeeps(server: Server, s: State, i: int)
    requires Inv(s) && Enabled(server, s, Bump(i))
    ensures Inv(Apply(server, s, Bump(i)))
  {
    var t := Apply(server, s, Bump(i));
    assert t.log[..|t.log|] == t.log;
    forall r | r in t.replies ensures ReplyHolds(t, r) {
      assert ReplyHolds(s, r);
    }
  }

  lemma HandlerKeeps(server: Server, s: State, step: Step)
    requires Inv(s) && Enabled(server, s, step) && (step.Ask? || step.Query?)
    ensures Inv(Apply(server, s, step))
  {
    var t := Apply(server, s, step);
    forall r | r in t.replies ensures ReplyHolds(t, r) {
      if r in s.replies {
        assert ReplyHolds(s, r);
      }
    }
  }

  lemma StepKeeps(server: Server, s: State, step: Step)
    requires Inv(s) && Enabled(server, s, step)
    ensures Inv(Apply(server, s, step))
  {
    if step.Ask? || step.Query? {
      HandlerKeeps(server, s, step);
    } else if step.Bump? {
      BumpKeeps(server, s, step.i);
    } else {
      IngestKeeps(server, s, step);
    }
  }

  /** The invariant holds at every point of every interleaving. */
  lemma {:induction false} RunKeeps(server: Server, steps: seq<Step>, n: nat)
    requires Run(server, steps) && n <= |steps|
    ensures Inv(After(server, steps, n))
  {
    if n > 0 {
      RunKeeps(server, steps, n - 1);
      StepKeeps(server, After(server, steps, n - 1), steps[n - 1]);
    }
  }

  // ---------------------------------------------------------------- what a 304 means

  lemma KeyShape(server: Server, nq: NormalizedQuery)
    requires server.Valid()
    ensures IsHex(Key(server.sha, nq))
  {
    var payload := Payload(nq);
    var key := server.sha(payload);
    forall k | 0 <= k < |key| ensures '0' <= key[k] <= '9' || 'a' <= key[k] <= 'f' {
      assert key[k] in server.sha(payload);
    }
  }

  /** Two tags of the server are weakly equal exactly for one format, one query and one epoch. */
  lemma TagsMatch(server: Server, r: Reply, fmt: string, nq: NormalizedQuery, epoch: nat)
    requires server.Valid() && IsFormat(fmt) && nq.WellFormed() && IsFormat(r.fmt) && r.nq.WellFormed()
    ensures StripWeak(server.TagOf(r)) == StripWeak(server.Tag(fmt, nq, epoch))
      <==> r.fmt == fmt && SameQuery(r.nq, nq) && r.epoch == epoch
  {
    KeyShape(server, r.nq);
    KeyShape(server, nq);
    SearchTagWeakly(r.fmt, Key(server.sha, r.nq), r.epoch, fmt, Key(server.sha, nq), epoch);
    PayloadCanonical(r.nq, nq);
  }

  /** A reply whose body a 304 tells the client to keep using. */
  ghost predicate Reused(server: Server, s: State, ask: Step, r: Reply)
    requires ask.Ask?
  {
    r in s.replies && StripWeak(server.TagOf(r)) == StripWeak(server.Tag(ask.fmt, ask.nq, s.epoch))
  }

  /** The client offers the tag of this reply. */
  ghost predicate Offers(server: Server, ask: Step, r: Reply)
    requires ask.Ask?
  {
    exists k :: 0 <= k < |ask.held| && IsTagOf(server, r, ask.held[k])
  }

  lemma StripTwice(tag: string)
    requires StartsWith(tag, "W/") && "W/" + StripWeak(tag) == tag && tag[2..] != [] && tag[2] == '\"'
    ensures StripWeak(StripWeak(tag)) == StripWeak(tag)
  {
  }

  lemma TagShape(server: Server, fmt: string, nq: NormalizedQuery, epoch: nat)
    requires server.Valid() && IsFormat(fmt)
    ensures Carriable(server.Tag(fmt, nq, epoch)) && Carriable(StripWeak(server.Tag(fmt, nq, epoch)))
    ensures StripWeak(StripWeak(server.Tag(fmt, nq, epoch))) == StripWeak(server.Tag(fmt, nq, epoch))
  {
    KeyShape(server, nq);
    SearchTagShape(fmt, Key(server.sha, nq), epoch);
    var tag := server.Tag(fmt, nq, epoch);
    assert tag[2] == '\"';
    StripTwice(tag);
    assert StripWeak(tag) == tag[2..];
  }

  lemma HeldCarriable(server: Server, s: State, held: seq<string>)
    requires server.Valid() && Inv(s) && FromReplies(server, s.replies, held)
    ensures AllCarriable(held)
  {
    forall k | 0 <= k < |held| ensures Carriable(held[k]) {
      assert Held(server, s.replies, held[k]);
      var r :| r in s.replies && IsTagOf(server, r, held[k]);
      assert ReplyHolds(s, r);
      TagShape(server, r.fmt, r.nq, r.epoch);
    }
  }

  lemma WeaklyItself(server: Server, s: State, r: Reply, tag: string)
    requires server.Valid() && ReplyHolds(s, r) && IsTagOf(server, r, tag)
    ensures StripWeak(tag) == StripWeak(server.TagOf(r))
  {
    TagShape(server, r.fmt, r.nq, r.epoch);
  }

  /** What matches the header is the tag of an offered reply, and conversely. */
  lemma OfferedTag(server: Server, s: State, ask: Step, etag: string)
    requires server.Valid() && Inv(s) && ask.Ask? && FromReplies(server, s.replies, ask.held)
    ensures HeldWeakly(ask.held, etag)
      <==> exists r :: r in s.replies && Offers(server, ask, r) && StripWeak(server.TagOf(r)) == StripWeak(etag)
  {
    if HeldWeakly(ask.held, etag) {
      var k :| 0 <= k < |ask.held| && StripWeak(ask.held[k]) == StripWeak(etag);
      assert Held(server, s.replies, ask.held[k]);
      var r :| r in s.replies && IsTagOf(server, r, ask.held[k]);
      WeaklyItself(server, s, r, ask.held[k]);
      assert Offers(server, ask, r) && StripWeak(server.TagOf(r)) == StripWeak(etag);
    }
    if r :| r in s.replies && Offers(server, ask, r) && StripWeak(server.TagOf(r)) == StripWeak(etag) {
      var k :| 0 <= k < |ask.held| && IsTagOf(server, r, ask.held[k]);
      WeaklyItself(server, s, r, ask.held[k]);
    }
  }

  lemma Found(held: seq<string>, tag: string, etag: string)
    requires tag in held && StripWeak(tag) == StripWeak(etag)
    ensures HeldWeakly(held, etag)
  {
    var k :| 0 <= k < |held| && held[k] == tag;
    assert StripWeak(held[k]) == StripWeak(etag);
  }

  /**
   When a search is answered 304: caching is on and the client offers a reply to the same query, in the same
   format, made under the present epoch. Nothing else ever matches.
   */
  lemma Answers304Iff(server: Server, steps: seq<Step>, n: nat)
    requires server.Valid() && Run(server, steps) && n < |steps| && steps[n].Ask?
    ensures var s, ask := After(server, steps, n), steps[n];
      Answers304(server, s, ask) <==> (
        && server.cache.enabled
        && exists r :: (
             && r in s.replies && Offers(server, ask, r)
             && r.fmt == ask.fmt && SameQuery(r.nq, ask.nq) && r.epoch == s.epoch))
  {
    var s, ask := After(server, steps, n), steps[n];
    RunKeeps(server, steps, n);
    assert Enabled(server, s, ask);
    var etag := server.Tag(ask.fmt, ask.nq, s.epoch);
    HeldCarriable(server, s, ask.held);
    HeaderIff(server, s, ask, etag);
    OfferedTag(server, s, ask, etag);
    forall r | r in s.replies
      ensures StripWeak(server.TagOf(r)) == StripWeak(etag)
        <==> r.fmt == ask.fmt && SameQuery(r.nq, ask.nq) && r.epoch == s.epoch
    {
      assert ReplyHolds(s, r);
      TagsMatch(server, r, ask.fmt, ask.nq, s.epoch);
    }
  }

  lemma HeaderIff(server: Server, s: State, ask: Step, etag: string)
    requires ask.Ask? && AllCarriable(ask.held) && etag == server.Tag(ask.fmt, ask.nq, s.epoch)
    ensures Answers304(server, s, ask) <==> server.cache.enabled && HeldWeakly(ask.held, etag)
  {
    MatchesIffHeld(ask.held, etag);
    if ask.held != [] {
      assert Carriable(ask.held[0]);
      assert Join(ask.held, ", ") != "";
    }
  }

  /**
   304 freshness. In every interleaving, whatever reply a 304 tells the client to reuse is a reply to the same
   query in the same format, and its body shows every batch that reached the index and whose ingest had
   returned when the handler read the epoch.
   */
  lemma FreshWhenNotModified(server: Server, steps: seq<Step>, n: nat, r: Reply)
    requires server.Valid() && Run(server, steps) && n < |steps| && steps[n].Ask?
    requires Reused(server, After(server, steps, n), steps[n], r)
    ensures var s := After(server, steps, n);
      && r.fmt == steps[n].fmt && SameQuery(r.nq, steps[n].nq) && r.seen <= |s.log|
      && forall i :: i in s.ingests && s.ingests[i] == Returned(true) ==> i in s.log[..r.seen]
  {
    var s := After(server, steps, n);
    RunKeeps(server, steps, n);
    assert Enabled(server, s, steps[n]);
    assert ReplyHolds(s, r);
    TagsMatch(server, r, steps[n].fmt, steps[n].nq, s.epoch);
  }

  lemma StepAscends(server: Server, s: State, step: Step)
    ensures Apply(server, s, step).epoch == if step.Bump? then s.epoch + 1 else s.epoch
  {
  }

  /** The epoch never falls, and a bump before n has raised it. */
  lemma {:induction false} EpochAscends(server: Server, steps: seq<Step>, m: nat, n: nat)
    requires m < n <= |steps|
    ensures After(server, steps, m).epoch + (if steps[m].Bump? then 1 else 0) <= After(server, steps, n).epoch
    decreases n
  {
    StepAscends(server, After(server, steps, n - 1), steps[n - 1]);
    if m < n - 1 {
      EpochAscends(server, steps, m, n - 1);
    }
  }

  lemma OldEpochNotReused(server: Server, s: State, ask: Step, r: Reply)
    requires server.Valid() && ReplyHolds(s, r) && r.epoch < s.epoch
    requires ask.Ask? && IsFormat(ask.fmt) && ask.nq.WellFormed()
    ensures !Reused(server, s, ask, r)
  {
    TagsMatch(server, r, ask.fmt, ask.nq, s.epoch);
  }

  lemma ReplyEpoch(server: Server, steps: seq<Step>, n: nat, r: Reply)
    requires Run(server, steps) && n <= |steps| && r in After(server, steps, n).replies
    ensures ReplyHolds(After(server, steps, n), r)
  {
    RunKeeps(server, steps, n);
  }

  lemma NotAhead(server: Server, steps: seq<Step>, n: nat, r: Reply)
    requires Run(server, steps) && n <= |steps| && r in After(server, steps, n).replies
    ensures r.epoch <= After(server, steps, n).epoch
  {
    ReplyEpoch(server, steps, n, r);
  }

  lemma BumpLeavesBehind(server: Server, steps: seq<Step>, m: nat, n: nat, r: Reply)
    requires Run(server, steps) && m < n <= |steps| && steps[m].Bump? && r in After(server, steps, m).replies
    ensures r.epoch < After(server, steps, n).epoch
  {
    NotAhead(server, steps, m, r);
    EpochAscends(server, steps, m, n);
  }

  /** One bump retires every reply given before it, for every query and for good. */
  lemma BumpRetiresAll(server: Server, steps: seq<Step>, m: nat, n: nat, r: Reply)
    requires server.Valid() && Run(server, steps) && m < n < |steps| && steps[m].Bump? && steps[n].Ask?
    requires r in After(server, steps, m).replies
    ensures !Reused(server, After(server, steps, n), steps[n], r)
  {
    BumpLeavesBehind(server, steps, m, n, r);
    if r in After(server, steps, n).replies {
      ReplyEpoch(server, steps, n, r);
      AskedProperly(server, steps, n);
      OldEpochNotReused(server, After(server, steps, n), steps[n], r);
    }
  }

  lemma AskedProperly(server: Server, steps: seq<Step>, n: nat)
    requires Run(server, steps) && n < |steps| && steps[n].Ask?
    ensures IsFormat(steps[n].fmt) && steps[n].nq.WellFormed()
  {
    assert Enabled(server, After(server, steps, n), steps[n]);
  }

  /** Exactly what a reused body may miss: batches still between commit and bump, and those whose ingest raised. */
  lemma MissedOnlyUnbumped(server: Server, steps: seq<Step>, n: nat, r: Reply, i: int)
    requires server.Valid() && Run(server, steps) && n < |steps| && steps[n].Ask?
    requires Reused(server, After(server, steps, n), steps[n], r)
    requires i in After(server, steps, n).log
    ensures var s := After(server, steps, n);
      r.seen <= |s.log| && (i in s.log[..r.seen] || (
        i in s.ingests && (s.ingests[i] == Committed(true) || s.ingests[i] == Raised(true))))
  {
    var s := After(server, steps, n);
    RunKeeps(server, steps, n);
    FreshWhenNotModified(server, steps, n, r);
    assert ReplyHolds(s, r);
    TagsMatch(server, r, steps[n].fmt, steps[n].nq, s.epoch);
  }

  predicate Ended(p: Phase) {
    p.Returned? || p.Raised?
  }

  // ---------------------------------------------------------------- what has landed and what has raised, over a run

  /** The batch a step puts into the index. */
  function Landed(step: Step): seq<int> {
    if (step.Commit? || step.Raise?) && step.indexed then [step.i] else []
  }

  function RaisedBy(step: Step): set<int> {
    if step.Raise? && step.indexed then {step.i} else {}
  }

  function RaisedSet(s: State): set<int> {
    set i | i in s.ingests && s.ingests[i] == Raised(true)
  }

  /** The log before each step and after the last. */
  function Logs(server: Server, steps: seq<Step>): seq<seq<int>> {
    seq(|steps| + 1, n requires 0 <= n <= |steps| => After(server, steps, n).log)
  }

  function RaisedSets(server: Server, steps: seq<Step>): seq<set<int>> {
    seq(|steps| + 1, n requires 0 <= n <= |steps| => RaisedSet(After(server, steps, n)))
  }

  /** Every batch lands once, behind what was there. */
  predicate LogRun(steps: seq<Step>, logs: seq<seq<int>>) {
    && |logs| == |steps| + 1 && logs[0] == []
    && forall k :: 0 <= k < |steps| ==> LogStep(steps[k], logs[k], logs[k + 1])
  }

  predicate LogStep(step: Step, before: seq<int>, after: seq<int>) {
    after == before + Landed(step) && (Landed(step) != [] ==> Landed(step)[0] !in before)
  }

  predicate RaisedRun(steps: seq<Step>, raised: seq<set<int>>) {
    && |raised| == |steps| + 1 && raised[0] == {}
    && forall k :: 0 <= k < |steps| ==> raised[k + 1] == raised[k] + RaisedBy(steps[k])
  }

  lemma StepLands(server: Server, s: State, step: Step)
    requires Inv(s) && Enabled(server, s, step)
    ensures LogStep(step, s.log, Apply(server, s, step).log)
  {
    assert s.log + [] == s.log;
  }

  lemma StepRaises(server: Server, s: State, step: Step)
    requires Enabled(server, s, step)
    ensures RaisedSet(Apply(server, s, step)) == RaisedSet(s) + RaisedBy(step)
  {
  }

  lemma Taken(server: Server, steps: seq<Step>, k: nat)
    requires Run(server, steps) && k < |steps|
    ensures Enabled(server, After(server, steps, k), steps[k])
    ensures After(server, steps, k + 1) == Apply(server, After(server, steps, k), steps[k])
  {
  }

  lemma LogTaken(server: Server, steps: seq<Step>, k: nat)
    requires Run(server, steps) && k < |steps|
    ensures LogStep(steps[k], Logs(server, steps)[k], Logs(server, steps)[k + 1])
  {
    RunKeeps(server, steps, k);
    Taken(server, steps, k);
    StepLands(server, After(server, steps, k), steps[k]);
  }

  lemma RaisedTaken(server: Server, steps: seq<Step>, k: nat)
    requires Run(server, steps) && k < |steps|
    ensures RaisedSets(server, steps)[k + 1] == RaisedSets(server, steps)[k] + RaisedBy(steps[k])
  {
    Taken(server, steps, k);
    StepRaises(server, After(server, steps, k), steps[k]);
  }

  lemma RunsOf(server: Server, steps: seq<Step>)
    requires Run(server, steps)
    ensures LogRun(steps, Logs(server, steps)) && RaisedRun(steps, RaisedSets(server, steps))
  {
    var logs, raised := Logs(server, steps), RaisedSets(server, steps);
    forall k | 0 <= k < |steps| ensures LogStep(steps[k], logs[k], logs[k + 1]) {
      LogTaken(server, steps, k);
    }
    forall k | 0 <= k < |steps| ensures raised[k + 1] == raised[k] + RaisedBy(steps[k]) {
      RaisedTaken(server, steps, k);
    }
  }

  lemma {:induction false} LogGrows(steps: seq<Step>, logs: seq<seq<int>>, m: nat, n: nat)
    requires LogRun(steps, logs) && m <= n <= |steps|
    ensures logs[m] <= logs[n]
    decreases n
  {
    if m < n {
      LogGrows(steps, logs, m, n - 1);
      assert LogStep(steps[n - 1], logs[n - 1], logs[n - 1 + 1]);
    }
  }

  predicate Distinct(log: seq<int>) {
    forall a, b :: 0 <= a < b < |log| ==> log[a] != log[b]
  }

  lemma {:induction false} LogDistinct(steps: seq<Step>, logs: seq<seq<int>>, n: nat)
    requires LogRun(steps, logs) && n <= |steps|
    ensures Distinct(logs[n])
  {
    if n > 0 {
      LogDistinct(steps, logs, n - 1);
      assert LogStep(steps[n - 1], logs[n - 1], logs[n - 1 + 1]);
    }
  }

  /** An ingest has raised after committing exactly when some step made it, and it stays so. */
  lemma {:induction false} RaisedIff(steps: seq<Step>, raised: seq<set<int>>, n: nat, i: int)
    requires RaisedRun(steps, raised) && n <= |steps|
    ensures i in raised[n] <==> exists p :: 0 <= p < n && steps[p] == Raise(i, true)
  {
    if n > 0 {
      RaisedIff(steps, raised, n - 1, i);
      assert raised[n - 1 + 1] == raised[n - 1] + RaisedBy(steps[n - 1]);
    }
  }

  /** The bulk call of step p raises with its batch committed. */
  predicate RaisesLate(steps: seq<Step>, p: nat) {
    p < |steps| && steps[p].Raise? && steps[p].indexed
  }

  /** What lands after step q lies behind what was there, and what landed before is within. */
  lemma LandsWhere(steps: seq<Step>, logs: seq<seq<int>>, q: nat, p: nat, n: nat, i: int)
    requires LogRun(steps, logs) && p < n <= |steps| && q <= n && p != q && steps[p] == Raise(i, true)
    ensures i in logs[n] && |logs[q]| <= |logs[n]| && (i in logs[n][..|logs[q]|] <==> p < q)
  {
    LogGrows(steps, logs, q, n);
    LogGrows(steps, logs, p + 1, n);
    LogDistinct(steps, logs, n);
    assert LogStep(steps[p], logs[p], logs[p + 1]);
    if p < q {
      LogGrows(steps, logs, p + 1, q);
      InPrefix(logs[p] + [i], logs[q], logs[n], i);
    } else {
      LogGrows(steps, logs, q, p);
      BehindPrefix(logs[p], logs[n], |logs[q]|, i);
    }
  }

  lemma InPrefix(a: seq<int>, b: seq<int>, c: seq<int>, i: int)
    requires a <= b <= c && i in a
    ensures i in c && i in c[..|b|]
  {
    assert c[..|b|] == b;
  }

  lemma BehindPrefix(before: seq<int>, log: seq<int>, seen: nat, i: int)
    requires before + [i] <= log && Distinct(log) && seen <= |before|
    ensures i in log && i !in log[..seen]
  {
    assert log[|before|] == (before + [i])[|before|] == i;
  }

  /** Some batch of a raised ingest is behind the first part of the log exactly when a bulk call raised after it. */
  lemma RaisedBehindIff(steps: seq<Step>, logs: seq<seq<int>>, raised: seq<set<int>>, q: nat, n: nat)
    requires LogRun(steps, logs) && RaisedRun(steps, raised) && q < n <= |steps| && !steps[q].Raise?
    ensures |logs[q]| <= |logs[n]|
    ensures (exists i :: i in raised[n] && i !in logs[n][..|logs[q]|])
      <==> (exists p: nat :: q < p < n && RaisesLate(steps, p))
  {
    LogGrows(steps, logs, q, n);
    if i :| i in raised[n] && i !in logs[n][..|logs[q]|] {
      RaisedIff(steps, raised, n, i);
      var p: nat :| p < n && steps[p] == Raise(i, true);
      LandsWhere(steps, logs, q, p, n, i);
      assert RaisesLate(steps, p);
    }
    if p: nat :| q < p < n && RaisesLate(steps, p) {
      var i := steps[p].i;
      assert steps[p] == Raise(i, true);
      LandsWhere(steps, logs, q, p, n, i);
      RaisedIff(steps, raised, n, i);
    }
  }

  /** Step q asks the backend and thereby makes the reply. */
  predicate Makes(server: Server, steps: seq<Step>, q: nat, r: Reply) {
    q < |steps| && steps[q].Query? && MakesAt(After(server, steps, q), steps[q].h, r)
  }

  predicate MakesAt(s: State, h: int, r: Reply) {
    h in s.asked && r == Reply(s.asked[h].fmt, s.asked[h].nq, s.asked[h].epoch, |s.log|)
  }

  lemma StepReplies(server: Server, s: State, step: Step, r: Reply)
    ensures r in Apply(server, s, step).replies <==> r in s.replies || (step.Query? && MakesAt(s, step.h, r))
  {
  }

  lemma MadeAtOrBefore(server: Server, steps: seq<Step>, n: nat, r: Reply)
    requires Run(server, steps) && n < |steps| && r in After(server, steps, n + 1).replies
    ensures r in After(server, steps, n).replies || Makes(server, steps, n, r)
  {
    Taken(server, steps, n);
    StepReplies(server, After(server, steps, n), steps[n], r);
  }

  /** Every reply a client can hold was made by some step. */
  lemma {:induction false} EveryReplyMade(server: Server, steps: seq<Step>, n: nat, r: Reply) returns (q: nat)
    requires Run(server, steps) && n <= |steps| && r in After(server, steps, n).replies
    ensures q < n && Makes(server, steps, q, r)
  {
    var m := n - 1;
    MadeAtOrBefore(server, steps, m, r);
    q := m;
    if !Makes(server, steps, m, r) {
      q := EveryReplyMade(server, steps, m, r);
    }
  }

  // ---------------------------------------------------------------- the same, told on the steps

  /** How many of the first n steps are bumps. */
  function Bumps(steps: seq<Step>, n: nat): nat
    requires n <= |steps|
  {
    |set k: nat | k < n && steps[k].Bump?|
  }

  /** How many of them have put a batch into the index. */
  function Landings(steps: seq<Step>, n: nat): nat
    requires n <= |steps|
  {
    |set k: nat | k < n && Landing(steps[k])|
  }

  predicate Landing(step: Step) {
    (step.Commit? || step.Raise?) && step.indexed
  }

  lemma OneMoreStep(steps: seq<Step>, n: nat)
    requires n < |steps|
    ensures Bumps(steps, n + 1) == Bumps(steps, n) + (if steps[n].Bump? then 1 else 0)
    ensures Landings(steps, n + 1) == Landings(steps, n) + (if Landing(steps[n]) then 1 else 0)
  {
    assert (set k: nat | k < n + 1 && steps[k].Bump?)
        == (set k: nat | k < n && steps[k].Bump?) + (if steps[n].Bump? then {n} else {});
    assert (set k: nat | k < n + 1 && Landing(steps[k]))
        == (set k: nat | k < n && Landing(steps[k])) + (if Landing(steps[n]) then {n} else {});
  }

  /** The epoch counts the bumps, and the log is as long as there are landings. */
  lemma {:induction false} StateCounts(server: Server, steps: seq<Step>, n: nat)
    requires n <= |steps|
    ensures After(server, steps, n).epoch == Bumps(steps, n) && |After(server, steps, n).log| == Landings(steps, n)
  {
    if n > 0 {
      StateCounts(server, steps, n - 1);
      OneMoreStep(steps, n - 1);
      StepCounts(server, After(server, steps, n - 1), steps[n - 1]);
    }
  }

  lemma StepCounts(server: Server, s: State, step: Step)
    ensures Apply(server, s, step).epoch == s.epoch + (if step.Bump? then 1 else 0)
    ensures |Apply(server, s, step).log| == |s.log| + (if Landing(step) then 1 else 0)
  {
  }

  /** Handler h has read the epoch at step p, was not answered there, and has not asked the backend before step q. */
  predicate Waits(server: Server, steps: seq<Step>, p: nat, q: nat, h: int) {
    && p < q <= |steps| && steps[p].Ask? && steps[p].h == h && !Answers304(server, After(server, steps, p), steps[p])
    && forall j :: p < j < q ==> steps[j] != Query(h)
  }

  lemma StepAsked(server: Server, s: State, step: Step, h: int)
    requires Enabled(server, s, step) && h in Apply(server, s, step).asked
    ensures (step.Ask? && step.h == h && !Answers304(server, s, step)
             && Apply(server, s, step).asked[h] == Asked(step.fmt, step.nq, s.epoch))
      || (h in s.asked && Apply(server, s, step).asked[h] == s.asked[h] && step != Query(h))
  {
  }

  /** What it waits with: the search it was asked for and the epoch it has read. */
  predicate WaitsWith(server: Server, steps: seq<Step>, p: nat, q: nat, h: int, a: Asked) {
    Waits(server, steps, p, q, h) && a == Asked(steps[p].fmt, steps[p].nq, Bumps(steps, p))
  }

  predicate HasAsked(s: State, h: int, a: Asked) {
    h in s.asked && s.asked[h] == a
  }

  lemma WaitsOn(server: Server, steps: seq<Step>, p: nat, m: nat, h: int, a: Asked)
    requires WaitsWith(server, steps, p, m, h, a) && m < |steps| && steps[m] != Query(h)
    ensures WaitsWith(server, steps, p, m + 1, h, a)
  {
  }

  lemma AskedStep(server: Server, steps: seq<Step>, m: nat, h: int, a: Asked)
    requires Run(server, steps) && m < |steps| && HasAsked(After(server, steps, m + 1), h, a)
    ensures WaitsWith(server, steps, m, m + 1, h, a)
      || (HasAsked(After(server, steps, m), h, a) && steps[m] != Query(h))
  {
    Taken(server, steps, m);
    StepAsked(server, After(server, steps, m), steps[m], h);
    StateCounts(server, steps, m);
  }

  /** Going back from where something holds, one comes to where it began. */
  lemma {:induction false} Began(held: nat -> bool, since: (nat, nat) -> bool, n: nat) returns (p: nat)
    requires !held(0) && held(n)
    requires forall m: nat :: m < n && held(m + 1) ==> since(m, m + 1) || held(m)
    requires forall p: nat, m: nat :: m < n && held(m + 1) && !since(m, m + 1) && since(p, m) ==> since(p, m + 1)
    ensures since(p, n)
  {
    var m := n - 1;
    assert held(m + 1);
    if since(m, m + 1) {
      p := m;
    } else {
      p := Began(held, since, m);
      assert since(p, m + 1);
    }
  }

  /** The handler has just asked this after step m, or it had before and step m leaves that. */
  ghost predicate AskLaw(server: Server, steps: seq<Step>, h: int, a: Asked, m: nat) {
    m < |steps| && HasAsked(After(server, steps, m + 1), h, a) ==>
      || WaitsWith(server, steps, m, m + 1, h, a)
      || (HasAsked(After(server, steps, m), h, a) && steps[m] != Query(h))
  }

  lemma AskedSince(server: Server, steps: seq<Step>, n: nat, h: int, a: Asked) returns (p: nat)
    requires Run(server, steps) && n <= |steps| && HasAsked(After(server, steps, n), h, a)
    ensures WaitsWith(server, steps, p, n, h, a)
  {
    forall m: nat ensures AskLaw(server, steps, h, a, m) {
      if m < |steps| && HasAsked(After(server, steps, m + 1), h, a) {
        AskedStep(server, steps, m, h, a);
      }
    }
    p := AskedBegan(server, steps, n, h, a);
  }

  lemma AskedBegan(server: Server, steps: seq<Step>, n: nat, h: int, a: Asked) returns (p: nat)
    requires n <= |steps| && HasAsked(After(server, steps, n), h, a)
    requires forall m: nat :: AskLaw(server, steps, h, a, m)
    ensures WaitsWith(server, steps, p, n, h, a)
  {
    var held := (m: nat) => m <= |steps| && HasAsked(After(server, steps, m), h, a);
    var since := (p: nat, q: nat) => WaitsWith(server, steps, p, q, h, a);
    forall m: nat | m < n && held(m + 1) ensures since(m, m + 1) || (held(m) && steps[m] != Query(h)) {
      assert AskLaw(server, steps, h, a, m);
    }
    forall p: nat, m: nat | m < n && held(m + 1) && !since(m, m + 1) && since(p, m) ensures since(p, m + 1) {
      WaitsOn(server, steps, p, m, h, a);
    }
    p := Began(held, since, n);
  }

  /** Step p asked for this reply and step q got it: what was asked, the bumps before p and the landings before q. */
  predicate GotBy(server: Server, steps: seq<Step>, p: nat, q: nat, r: Reply) {
    && q < |steps| && steps[q].Query? && Waits(server, steps, p, q, steps[q].h)
    && r == Reply(steps[p].fmt, steps[p].nq, Bumps(steps, p), Landings(steps, q))
  }

  /** Every reply a client can hold was got so. */
  lemma ReplyMeans(server: Server, steps: seq<Step>, n: nat, r: Reply) returns (p: nat, q: nat)
    requires Run(server, steps) && n <= |steps| && r in After(server, steps, n).replies
    ensures q < n && GotBy(server, steps, p, q, r)
  {
    q := EveryReplyMade(server, steps, n, r);
    p := AskedSince(server, steps, q, steps[q].h, Asked(r.fmt, r.nq, r.epoch));
    StateCounts(server, steps, q);
  }

  lemma NoBumps(steps: seq<Step>, p: nat, n: nat)
    requires p <= n <= |steps| && forall j :: p <= j < n ==> !steps[j].Bump?
    ensures Bumps(steps, p) == Bumps(steps, n)
  {
    assert (set k: nat | k < p && steps[k].Bump?) == (set k: nat | k < n && steps[k].Bump?);
  }

  /**
   And a 304 is given whenever it can be: with caching on, a client that offers a reply is told to keep it as long as
   nothing has been bumped since that reply was asked for.
   */
  lemma UnchangedIs304(server: Server, steps: seq<Step>, p: nat, q: nat, n: nat, r: Reply)
    requires server.Valid() && server.cache.enabled && Run(server, steps) && q < n < |steps| && steps[n].Ask?
    requires GotBy(server, steps, p, q, r) && r in After(server, steps, n).replies
    requires Offers(server, steps[n], r) && r.fmt == steps[n].fmt && SameQuery(r.nq, steps[n].nq)
    requires forall j :: p <= j < n ==> !steps[j].Bump?
    ensures Answers304(server, After(server, steps, n), steps[n])
  {
    Answers304Iff(server, steps, n);
    StateCounts(server, steps, n);
    NoBumps(steps, p, n);
  }

  // ---------------------------------------------------------------- what ended batches a body shows

  /** The reply shows every batch in the index whose ingest has ended. */
  ghost predicate ShowsEnded(s: State, r: Reply) {
    forall i :: i in s.log && i in s.ingests && Ended(s.ingests[i]) ==> (r.seen <= |s.log| && i in s.log[..r.seen])
  }

  /** Of a reply that misses only unbumped batches, only the raised ones matter. */
  lemma ShowsEndedIff(s: State, r: Reply)
    requires r.seen <= |s.log| && Inv(s)
    requires forall i :: i in s.log ==> (
      || i in s.log[..r.seen]
      || (i in s.ingests && (s.ingests[i] == Committed(true) || s.ingests[i] == Raised(true))))
    ensures ShowsEnded(s, r) <==> !exists i :: i in RaisedSet(s) && i !in s.log[..r.seen]
  {
    forall i | i in RaisedSet(s) ensures i in s.log && Ended(s.ingests[i]) {
    }
  }

  lemma ReusedMisses(server: Server, steps: seq<Step>, n: nat, r: Reply)
    requires server.Valid() && Run(server, steps) && n < |steps| && steps[n].Ask?
    requires Reused(server, After(server, steps, n), steps[n], r) && r.seen <= |After(server, steps, n).log|
    ensures Inv(After(server, steps, n))
    ensures ShowsEnded(After(server, steps, n), r)
      <==> !exists i :: i in RaisedSet(After(server, steps, n)) && i !in After(server, steps, n).log[..r.seen]
  {
    var s := After(server, steps, n);
    RunKeeps(server, steps, n);
    forall i | i in s.log
      ensures i in s.log[..r.seen]
        || (i in s.ingests && (s.ingests[i] == Committed(true) || s.ingests[i] == Raised(true)))
    {
      MissedOnlyUnbumped(server, steps, n, r, i);
    }
    ShowsEndedIff(s, r);
  }

  /**
   When a reused body shows every ended batch: exactly when no bulk call raised after committing between the moment the
   body was made, at step q, and the moment it is confirmed, at step n.
   */
  lemma ReflectsEndedIff(server: Server, steps: seq<Step>, q: nat, n: nat, r: Reply)
    requires server.Valid() && Run(server, steps) && Makes(server, steps, q, r) && q < n < |steps| && steps[n].Ask?
    requires Reused(server, After(server, steps, n), steps[n], r)
    ensures ShowsEnded(After(server, steps, n), r) <==> forall p: nat :: q < p < n ==> !RaisesLate(steps, p)
  {
    var logs, raised := Logs(server, steps), RaisedSets(server, steps);
    RunsOf(server, steps);
    RaisedBehindIff(steps, logs, raised, q, n);
    ReusedMisses(server, steps, n, r);
  }

  /** The bulk call commits and raises between two searches for the same thing. */
  function RaisingRun(server: Server, fmt: string, nq: NormalizedQuery): seq<Step> {
    [Ask(0, fmt, nq, []), Query(0), Begin(0), Raise(0, true), Ask(1, fmt, nq, [server.Tag(fmt, nq, 0)])]
  }

  lemma RaisingStates(server: Server, fmt: string, nq: NormalizedQuery, n: nat)
    requires server.Valid() && IsFormat(fmt) && n <= 4
    ensures After(server, RaisingRun(server, fmt, nq), n)
      == if n == 0 then INITIAL
         else if n == 1 then INITIAL.(asked := map[0 := Asked(fmt, nq, 0)])
         else if n == 2 then INITIAL.(replies := {Reply(fmt, nq, 0, 0)})
         else if n == 3 then INITIAL.(replies := {Reply(fmt, nq, 0, 0)}, ingests := map[0 := Writing])
         else State(0, [0], map[0 := Raised(true)], map[], {Reply(fmt, nq, 0, 0)})
  {
    if n > 0 {
      RaisingStates(server, fmt, nq, n - 1);
      if n == 1 {
        HeaderIff(server, INITIAL, RaisingRun(server, fmt, nq)[0], server.Tag(fmt, nq, 0));
      }
    }
  }

  lemma RaisingEnabled(server: Server, fmt: string, nq: NormalizedQuery)
    requires server.Valid() && IsFormat(fmt) && nq.WellFormed()
    ensures Run(server, RaisingRun(server, fmt, nq))
  {
    var steps := RaisingRun(server, fmt, nq);
    forall n | 0 <= n < |steps| ensures Enabled(server, After(server, steps, n), steps[n]) {
      RaisingStates(server, fmt, nq, n);
      if n == 4 {
        assert IsTagOf(server, Reply(fmt, nq, 0, 0), steps[4].held[0]);
      }
    }
  }

  /** And that does happen: after the raise the epoch stays, and the old body is confirmed without the batch. */
  lemma StaleAfterRaise(server: Server, fmt: string, nq: NormalizedQuery)
    requires server.Valid() && server.cache.enabled && IsFormat(fmt) && nq.WellFormed()
    ensures var steps, r := RaisingRun(server, fmt, nq), Reply(fmt, nq, 0, 0);
      var s := After(server, steps, 4);
      && Run(server, steps)
      && Answers304(server, s, steps[4]) && Reused(server, s, steps[4], r)
      && s.ingests == map[0 := Raised(true)] && 0 in s.log && 0 !in s.log[..r.seen]
  {
    var steps, tag := RaisingRun(server, fmt, nq), server.Tag(fmt, nq, 0);
    RaisingEnabled(server, fmt, nq);
    RaisingStates(server, fmt, nq, 4);
    TagShape(server, fmt, nq, 0);
    HeaderIff(server, After(server, steps, 4), steps[4], tag);
    Found([tag], tag, tag);
  }

  // ---------------------------------------------------------------- the code that takes the ingest steps

  /** What `adapter.bulk_index` does with a batch: returns its counts, or raises with or without having committed. */
  datatype Bulk = Indexed(ingested: nat, failed: nat) | Failing(committed: bool)

  predicate Lands(bulk: Bulk) {
    if bulk.Indexed? then bulk.ingested > 0 else bulk.committed
  }

  /** The bumps of one ingest: one when the bulk call returns and has indexed something. */
  function BumpsOf(bulk: Bulk): nat {
    if bulk.Indexed? && bulk.ingested > 0 then 1 else 0
  }

  class Container {
    var indexEpoch: nat
    var backend: seq<int>

    constructor ()
      ensures indexEpoch == 0 && backend == []
    {
      indexEpoch, backend := 0, [];
    }

    /** `Container.ingest`: the epoch moves when the bulk call returns and has indexed something. */
    method Ingest(i: int, bulk: Bulk) returns (counts: Option<(nat, nat)>)
      modifies this
      ensures backend == old(backend) + (if Lands(bulk) then [i] else [])
      ensures indexEpoch == old(indexEpoch) + BumpsOf(bulk)
      ensures counts == if bulk.Indexed? then Some((bulk.ingested, bulk.failed)) else None
    {
      if Lands(bulk) {
        backend := backend + [i];
      }
      if bulk.Failing? {
        return None;
      }
      if bulk.ingested > 0 {
        indexEpoch := indexEpoch + 1;
      }
      counts := Some((bulk.ingested, bulk.failed));
    }
  }

  /** Run alone, the code does to epoch and index what the protocol's steps for one ingest do, and may take them. */
  lemma IngestTakesSteps(server: Server, s: State, i: int, bulk: Bulk)
    requires i !in s.ingests
    ensures Enabled(server, s, Begin(i))
    ensures var begun := Apply(server, s, Begin(i));
      if bulk.Failing? then
        var raised := Apply(server, begun, Raise(i, bulk.committed));
        && Enabled(server, begun, Raise(i, bulk.committed))
        && raised.epoch == s.epoch + BumpsOf(bulk) && raised.log == s.log + (if Lands(bulk) then [i] else [])
      else
        var committed := Apply(server, begun, Commit(i, bulk.ingested > 0));
        var bumped := if bulk.ingested > 0 then Apply(server, committed, Bump(i)) else committed;
        && Enabled(server, begun, Commit(i, bulk.ingested > 0))
        && (bulk.ingested > 0 ==> Enabled(server, committed, Bump(i)))
        && Enabled(server, bumped, Return(i))
        && bumped.epoch == s.epoch + BumpsOf(bulk)
        && bumped.log == s.log + (if Lands(bulk) then [i] else [])
  {
    assert s.log + [] == s.log;
  }
}
