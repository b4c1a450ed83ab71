/**
 The chunking loop every importer shares (app/importers/oaipmh.py `ingest`, app/importers/marc.py
 `ingest_marc_file`): documents go to `bulk_index` in chunks, and the totals add up what it reports.
 */
module Batching {
  import opened Wrappers
  import opened Json

  /** A backend document: a dict of JSON values. */
  type Doc = Value

  /** What `bulk_index` does with a chunk: counts, or an exception the importer turns into its error. */
  datatype Bulk = Counted(added: int, failed: int) | Raised(message: string)

  /** The outcome, and the chunks handed to `bulk_index` in order (the last may be the one that raised). */
  datatype Outcome = Outcome(ingested: int, failed: int, error: Option<string>, sent: seq<seq<Doc>>)

  function Concat(chunks: seq<seq<Doc>>): seq<Doc> {
    if chunks == [] then [] else Concat(chunks[..|chunks| - 1]) + chunks[|chunks| - 1]
  }

  function SumAdded(bulk: (nat, seq<Doc>) -> Bulk, sent: seq<seq<Doc>>): int {
    if sent == [] then 0
    else
      var k := |sent| - 1;
      SumAdded(bulk, sent[..k]) + (if bulk(k, sent[k]).Counted? then bulk(k, sent[k]).added else 0)
  }

  function SumFailed(bulk: (nat, seq<Doc>) -> Bulk, sent: seq<seq<Doc>>): int {
    if sent == [] then 0
    else
      var k := |sent| - 1;
      SumFailed(bulk, sent[..k]) + (if bulk(k, sent[k]).Counted? then bulk(k, sent[k]).failed else 0)
  }

  /** A chunk size below one acts as one: a chunk is never held back once it has a document. */
  function Size(chunkSize: int): (n: nat)
    ensures n >= 1
  {
    if chunkSize < 1 then 1 else chunkSize
  }

  predicate AllOfSize(chunks: seq<seq<Doc>>, n: nat) {
    forall k :: 0 <= k < |chunks| ==> |chunks[k]| == n
  }

  /** No chunk but possibly the last made `bulk_index` raise. */
  predicate OnlyLastRaises(bulk: (nat, seq<Doc>) -> Bulk, sent: seq<seq<Doc>>) {
    forall k :: 0 <= k < |sent| - 1 ==> bulk(k, sent[k]).Counted?
  }

  predicate LastRaises(bulk: (nat, seq<Doc>) -> Bulk, sent: seq<seq<Doc>>) {
    sent != [] && bulk(|sent| - 1, sent[|sent| - 1]).Raised?
  }

  /** The last chunk raised, and it was a full one: the run stopped within the stream. */
  predicate FullRaised(bulk: (nat, seq<Doc>) -> Bulk, sent: seq<seq<Doc>>, n: nat) {
    LastRaises(bulk, sent) && |sent[|sent| - 1]| == n
  }

  /**
   What reaches the backend of a stream of documents that ends well or with an error:
   - non-empty chunks, all of the chunk size except possibly the last, forming a prefix of the stream;
   - all of the stream, when nothing goes wrong;
   - its longest prefix of whole chunks, when the stream fails;
   - nothing behind the chunk `bulk_index` raises on, which is a full chunk or what was left at the end.
   The totals are the sums of what it reported, and the error is the first failure.
   */
  ghost predicate Conserves(docs: seq<Doc>, streamError: Option<string>, chunkSize: int,
                                     bulk: (nat, seq<Doc>) -> Bulk, r: Outcome) {
    var n, sent := Size(chunkSize), r.sent;
    && (forall k :: 0 <= k < |sent| ==> 1 <= |sent[k]| <= n)
    && (forall k :: 0 <= k < |sent| - 1 ==> |sent[k]| == n)
    && Concat(sent) <= docs
    && OnlyLastRaises(bulk, sent)
    && r.ingested == SumAdded(bulk, sent) && r.failed == SumFailed(bulk, sent)
    && (if LastRaises(bulk, sent) then
          && r.error == Some(bulk(|sent| - 1, sent[|sent| - 1]).message)
          && (|sent[|sent| - 1]| == n || (streamError.None? && Concat(sent) == docs))
        else if streamError.Some? then r.error == streamError && |Concat(sent)| == |docs| - |docs| % n
        else r.error == None && Concat(sent) == docs)
  }

  lemma SentSnoc(bulk: (nat, seq<Doc>) -> Bulk, sent: seq<seq<Doc>>, chunk: seq<Doc>)
    ensures (sent + [chunk])[..|sent|] == sent
    ensures Concat(sent + [chunk]) == Concat(sent) + chunk
    ensures SumAdded(bulk, sent + [chunk])
      == SumAdded(bulk, sent) + (if bulk(|sent|, chunk).Counted? then bulk(|sent|, chunk).added else 0)
    ensures SumFailed(bulk, sent + [chunk])
      == SumFailed(bulk, sent) + (if bulk(|sent|, chunk).Counted? then bulk(|sent|, chunk).failed else 0)
  {
    assert (sent + [chunk])[..|sent|] == sent;
  }

  lemma {:induction false} ConcatLength(chunks: seq<seq<Doc>>, n: nat)
    requires AllOfSize(chunks, n)
    ensures |Concat(chunks)| == |chunks| * n
  {
    if chunks != [] {
      ConcatLength(chunks[..|chunks| - 1], n);
      assert |chunks| * n == (|chunks| - 1) * n + n;
    }
  }

  lemma {:induction false} MultiplesApart(q: nat, k: nat, n: nat)
    requires q > k
    ensures q * n >= k * n + n
  {
    if q == k + 1 {
      Successor(k, n);
    } else {
      MultiplesApart(q - 1, k, n);
      Successor(q - 1, n);
    }
  }

  lemma Successor(k: nat, n: nat)
    ensures (k + 1) * n == k * n + n
  {
  }

  lemma RemainderIsChunk(total: nat, k: nat, rest: nat, n: nat)
    requires n >= 1 && total == k * n + rest && rest < n
    ensures k * n == total - total % n
  {
    var q := total / n;
    assert total == q * n + total % n;
    if q > k {
      MultiplesApart(q, k, n);
    } else if q < k {
      MultiplesApart(k, q, n);
    }
  }

  /** Where the loop is: the chunk that is filling, what has been sent, and what has been counted. */
  datatype Flow = Flow(chunk: seq<Doc>, sent: seq<seq<Doc>>, ingested: int, failed: int)

  const IDLE := Flow([], [], 0, 0)

  /** Between two documents: whole chunks are sent and counted, less than a chunk is waiting. */
  ghost predicate Flowing(seen: seq<Doc>, flow: Flow, n: nat, bulk: (nat, seq<Doc>) -> Bulk) {
    && AllOfSize(flow.sent, n) && |flow.chunk| < n
    && Concat(flow.sent) + flow.chunk == seen
    && (forall k :: 0 <= k < |flow.sent| ==> bulk(k, flow.sent[k]).Counted?)
    && flow.ingested == SumAdded(bulk, flow.sent) && flow.failed == SumFailed(bulk, flow.sent)
  }

  /** The run has been stopped by a chunk that raised. */
  ghost predicate Stopped(seen: seq<Doc>, chunkSize: int, bulk: (nat, seq<Doc>) -> Bulk, r: Outcome) {
    forall docs, streamError :: seen <= docs ==> Conserves(docs, streamError, chunkSize, bulk, r)
  }

  /** Handing the waiting chunk over, when `bulk_index` answers. */
  lemma SendCounted(seen: seq<Doc>, chunk: seq<Doc>, sent: seq<seq<Doc>>, bulk: (nat, seq<Doc>) -> Bulk)
    requires Concat(sent) + chunk == seen && bulk(|sent|, chunk).Counted?
    ensures Concat(sent + [chunk]) + [] == seen
    ensures SumAdded(bulk, sent + [chunk]) == SumAdded(bulk, sent) + bulk(|sent|, chunk).added
    ensures SumFailed(bulk, sent + [chunk]) == SumFailed(bulk, sent) + bulk(|sent|, chunk).failed
  {
    SentSnoc(bulk, sent, chunk);
  }

  lemma EndRaised(docs: seq<Doc>, streamError: Option<string>, chunkSize: int, bulk: (nat, seq<Doc>) -> Bulk,
                  chunk: seq<Doc>, sent: seq<seq<Doc>>)
    requires AllOfSize(sent, Size(chunkSize)) && 1 <= |chunk| <= Size(chunkSize)
    requires Concat(sent) + chunk <= docs
    requires |chunk| == Size(chunkSize) || (streamError.None? && Concat(sent) + chunk == docs)
    requires forall k :: 0 <= k < |sent| ==> bulk(k, sent[k]).Counted?
    requires bulk(|sent|, chunk).Raised?
    ensures Conserves(docs, streamError, chunkSize, bulk,
                      Outcome(SumAdded(bulk, sent), SumFailed(bulk, sent), Some(bulk(|sent|, chunk).message),
                              sent + [chunk]))
  {
    ShapeSnoc(sent, chunk, Size(chunkSize));
    SentSnoc(bulk, sent, chunk);
    assert LastRaises(bulk, sent + [chunk]);
  }

  lemma ShapeSnoc(sent: seq<seq<Doc>>, chunk: seq<Doc>, n: nat)
    requires AllOfSize(sent, n) && 1 <= |chunk| <= n
    ensures forall k :: 0 <= k < |sent| ==> (sent + [chunk])[k] == sent[k] && |(sent + [chunk])[k]| == n
    ensures forall k :: 0 <= k <= |sent| ==> 1 <= |(sent + [chunk])[k]| <= n
  {
  }

  lemma EndOfStream(docs: seq<Doc>, streamError: Option<string>, chunkSize: int, bulk: (nat, seq<Doc>) -> Bulk,
                    flow: Flow)
    requires Flowing(docs, flow, Size(chunkSize), bulk)
    requires streamError.Some? || flow.chunk == []
    ensures Conserves(docs, streamError, chunkSize, bulk, Outcome(flow.ingested, flow.failed, streamError, flow.sent))
  {
    ConcatLength(flow.sent, Size(chunkSize));
    RemainderIsChunk(|docs|, |flow.sent|, |flow.chunk|, Size(chunkSize));
    assert flow.chunk == [] ==> Concat(flow.sent) == docs;
  }

  lemma EndLeftover(docs: seq<Doc>, chunkSize: int, bulk: (nat, seq<Doc>) -> Bulk, flow: Flow)
    requires Flowing(docs, flow, Size(chunkSize), bulk)
    requires flow.chunk != [] && bulk(|flow.sent|, flow.chunk).Counted?
    ensures var last := bulk(|flow.sent|, flow.chunk);
      Conserves(docs, None, chunkSize, bulk,
                Outcome(flow.ingested + last.added, flow.failed + last.failed, None, flow.sent + [flow.chunk]))
  {
    SendCounted(docs, flow.chunk, flow.sent, bulk);
  }

  /** What is known when a full chunk has raised. */
  lemma StoppedFull(seen: seq<Doc>, chunkSize: int, bulk: (nat, seq<Doc>) -> Bulk, chunk: seq<Doc>, sent: seq<seq<Doc>>)
    requires AllOfSize(sent, Size(chunkSize)) && |chunk| == Size(chunkSize) && Concat(sent) + chunk == seen
    requires forall k :: 0 <= k < |sent| ==> bulk(k, sent[k]).Counted?
    requires bulk(|sent|, chunk).Raised?
    ensures Stopped(seen, chunkSize, bulk,
                    Outcome(SumAdded(bulk, sent), SumFailed(bulk, sent), Some(bulk(|sent|, chunk).message),
                            sent + [chunk]))
  {
    forall docs, streamError: Option<string> | seen <= docs
      ensures Conserves(docs, streamError, chunkSize, bulk,
        Outcome(SumAdded(bulk, sent), SumFailed(bulk, sent), Some(bulk(|sent|, chunk).message), sent + [chunk]))
    {
      EndRaised(docs, streamError, chunkSize, bulk, chunk, sent);
    }
  }

  /** The chunk is not full yet. */
  lemma Waits(seen: seq<Doc>, flow: Flow, doc: Doc, n: nat, bulk: (nat, seq<Doc>) -> Bulk)
    requires Flowing(seen, flow, n, bulk) && |flow.chunk| + 1 < n
    ensures Flowing(seen + [doc], flow.(chunk := flow.chunk + [doc]), n, bulk)
  {
    assert Concat(flow.sent) + (flow.chunk + [doc]) == seen + [doc];
  }

  /** The chunk is full, and `bulk_index` answers. */
  lemma Sends(seen: seq<Doc>, flow: Flow, doc: Doc, n: nat, bulk: (nat, seq<Doc>) -> Bulk)
    requires Flowing(seen, flow, n, bulk) && |flow.chunk| + 1 == n
    requires bulk(|flow.sent|, flow.chunk + [doc]).Counted?
    ensures var chunk := flow.chunk + [doc];
      var reply := bulk(|flow.sent|, chunk);
      var next := Flow([], flow.sent + [chunk], flow.ingested + reply.added, flow.failed + reply.failed);
      Flowing(seen + [doc], next, n, bulk)
  {
    var chunk := flow.chunk + [doc];
    assert Concat(flow.sent) + chunk == seen + [doc];
    SendCounted(seen + [doc], chunk, flow.sent, bulk);
  }

  /** The body of the loop: `bulk` is told which call this is. */
  method Push(ghost seen: seq<Doc>, flow: Flow, doc: Doc, chunkSize: int, bulk: (nat, seq<Doc>) -> Bulk)
    returns (next: Flow, stopped: Option<Outcome>)
    requires Flowing(seen, flow, Size(chunkSize), bulk)
    ensures stopped.None? ==> Flowing(seen + [doc], next, Size(chunkSize), bulk)
    ensures stopped.Some? ==> Stopped(seen + [doc], chunkSize, bulk, stopped.value)
    ensures stopped.Some? ==> FullRaised(bulk, stopped.value.sent, Size(chunkSize))
    ensures stopped.Some? ==> Concat(stopped.value.sent) == seen + [doc]
  {
    var chunk := flow.chunk + [doc];
    stopped := None;
    next := flow.(chunk := chunk);
    if |chunk| >= chunkSize {
      var reply := bulk(|flow.sent|, chunk);
      if reply.Raised? {
        assert Concat(flow.sent) + chunk == seen + [doc];
        StoppedFull(seen + [doc], chunkSize, bulk, chunk, flow.sent);
        SentSnoc(bulk, flow.sent, chunk);
        stopped := Some(Outcome(flow.ingested, flow.failed, Some(reply.message), flow.sent + [chunk]));
        return;
      }
      Sends(seen, flow, doc, Size(chunkSize), bulk);
      next := Flow([], flow.sent + [chunk], flow.ingested + reply.added, flow.failed + reply.failed);
    } else {
      Waits(seen, flow, doc, Size(chunkSize), bulk);
    }
  }

  /** Behind the loop: the leftover chunk is sent, unless the stream has failed. */
  method Finish(ghost docs: seq<Doc>, flow: Flow, streamError: Option<string>, chunkSize: int,
                bulk: (nat, seq<Doc>) -> Bulk)
    returns (r: Outcome)
    requires Flowing(docs, flow, Size(chunkSize), bulk)
    ensures Conserves(docs, streamError, chunkSize, bulk, r)
    ensures !FullRaised(bulk, r.sent, Size(chunkSize))
  {
    if streamError.Some? || flow.chunk == [] {
      EndOfStream(docs, streamError, chunkSize, bulk, flow);
      return Outcome(flow.ingested, flow.failed, streamError, flow.sent);
    }
    var reply := bulk(|flow.sent|, flow.chunk);
    if reply.Raised? {
      EndRaised(docs, streamError, chunkSize, bulk, flow.chunk, flow.sent);
      return Outcome(flow.ingested, flow.failed, Some(reply.message), flow.sent + [flow.chunk]);
    }
    EndLeftover(docs, chunkSize, bulk, flow);
    r := Outcome(flow.ingested + reply.added, flow.failed + reply.failed, None, flow.sent + [flow.chunk]);
  }

  lemma StoppedLater(seen: seq<Doc>, more: seq<Doc>, chunkSize: int, bulk: (nat, seq<Doc>) -> Bulk, r: Outcome)
    requires Stopped(seen, chunkSize, bulk, r)
    ensures Stopped(seen + more, chunkSize, bulk, r)
  {
    forall docs, streamError: Option<string> | seen + more <= docs
      ensures Conserves(docs, streamError, chunkSize, bulk, r)
    {
      PrefixOfPrefix(seen, seen + more, docs);
    }
  }

  /** `for doc in stream`, for the part of the stream that is there. */
  method PushAll(ghost seen: seq<Doc>, flow: Flow, docs: seq<Doc>, chunkSize: int, bulk: (nat, seq<Doc>) -> Bulk)
    returns (next: Flow, stopped: Option<Outcome>)
    requires Flowing(seen, flow, Size(chunkSize), bulk)
    ensures stopped.None? ==> Flowing(seen + docs, next, Size(chunkSize), bulk)
    ensures stopped.Some? ==> Stopped(seen + docs, chunkSize, bulk, stopped.value)
    ensures stopped.Some? ==> FullRaised(bulk, stopped.value.sent, Size(chunkSize))
    ensures stopped.Some? ==> |seen| < |Concat(stopped.value.sent)| <= |seen + docs|
  {
    next, stopped := flow, None;
    assert seen + docs[..0] == seen;
    for i := 0 to |docs|
      invariant Flowing(seen + docs[..i], next, Size(chunkSize), bulk)
      invariant stopped.None?
    {
      assert seen + docs[..i + 1] == seen + docs[..i] + [docs[i]];
      next, stopped := Push(seen + docs[..i], next, docs[i], chunkSize, bulk);
      if stopped.Some? {
        assert seen + docs == seen + docs[..i + 1] + docs[i + 1..];
        StoppedLater(seen + docs[..i + 1], docs[i + 1..], chunkSize, bulk, stopped.value);
        return;
      }
    }
    assert docs[..|docs|] == docs;
  }

  /** The loop and what comes behind it, over a stream that is already there. */
  method Run(docs: seq<Doc>, streamError: Option<string>, chunkSize: int, bulk: (nat, seq<Doc>) -> Bulk)
    returns (r: Outcome)
    ensures Conserves(docs, streamError, chunkSize, bulk, r)
  {
    var flow, stopped := PushAll([], IDLE, docs, chunkSize, bulk);
    assert [] + docs == docs;
    if stopped.Some? {
      return stopped.value;
    }
    r := Finish(docs, flow, streamError, chunkSize, bulk);
  }

  // ---------------------------------------------------------------- which chunks are sent

  lemma {:induction false} PrefixConcat(t: seq<seq<Doc>>, k: nat)
    requires k <= |t|
    ensures Concat(t[..k]) <= Concat(t)
    decreases |t|
  {
    if k < |t| {
      PrefixConcat(t[..|t| - 1], k);
      assert t[..|t| - 1][..k] == t[..k];
    } else {
      assert t[..k] == t;
    }
  }

  lemma ConcatStep(docs: seq<Doc>, sent: seq<seq<Doc>>, k: nat)
    requires k < |sent| && Concat(sent) <= docs
    ensures Concat(sent[..k]) + sent[k] <= docs
  {
    PrefixConcat(sent, k + 1);
    ConcatSnoc(sent, k);
    PrefixOfPrefix(Concat(sent[..k]) + sent[k], Concat(sent), docs);
  }

  lemma ConcatSnoc(sent: seq<seq<Doc>>, k: nat)
    requires k < |sent|
    ensures Concat(sent[..k + 1]) == Concat(sent[..k]) + sent[k]
  {
    assert sent[..k + 1][..k] == sent[..k];
  }

  lemma PrefixOfPrefix(a: seq<Doc>, b: seq<Doc>, c: seq<Doc>)
    requires a <= b && b <= c
    ensures a <= c
  {
  }

  lemma SliceOfPrefix(docs: seq<Doc>, a: seq<Doc>, b: seq<Doc>)
    requires a + b <= docs
    ensures |a| + |b| <= |docs| && docs[|a|..|a| + |b|] == b
  {
    assert (a + b)[|a|..] == b;
  }

  /** Chunk k of the stream: n documents, or what is left of them at the end. */
  function ChunkOf(docs: seq<Doc>, n: nat, k: nat): seq<Doc> {
    var from := k * n;
    if from >= |docs| then [] else if from + n >= |docs| then docs[from..] else docs[from..from + n]
  }

  /** How many chunks the stream has. */
  function ChunkCount(docs: seq<Doc>, n: nat): (count: nat)
    requires n >= 1
  {
    if |docs| == 0 then 0 else (|docs| - 1) / n + 1
  }

  lemma CountBounds(docs: seq<Doc>, n: nat)
    requires n >= 1
    ensures var count := ChunkCount(docs, n);
      |docs| <= count * n && (count > 0 ==> 0 <= (count - 1) * n < |docs|)
  {
    if |docs| > 0 {
      var q := (|docs| - 1) / n;
      assert |docs| - 1 == q * n + (|docs| - 1) % n;
      Successor(q, n);
    }
  }

  lemma Within(k: nat, count: nat, n: nat, total: nat)
    requires n >= 1 && k * n < total <= count * n
    ensures k < count
  {
    if k > count {
      MultiplesApart(k, count, n);
    }
  }

  lemma {:induction false} SentBound(sent: seq<seq<Doc>>, n: nat)
    requires forall k :: 0 <= k < |sent| ==> |sent[k]| <= n
    ensures |Concat(sent)| <= |sent| * n
  {
    if sent != [] {
      SentBound(sent[..|sent| - 1], n);
      assert |sent| * n == (|sent| - 1) * n + n;
    }
  }

  /** Whole chunks, then one of another size: no multiple of the chunk size. */
  lemma NoMultiple(q: nat, k: nat, rest: nat, n: nat)
    requires q * n == k * n + rest && rest < n
    ensures rest == 0
  {
    if q > k {
      MultiplesApart(q, k, n);
    } else if q < k {
      MultiplesApart(k, q, n);
    }
  }

  lemma CutAtWhole(total: nat, k: nat, rest: nat, n: nat)
    requires n >= 1 && k * n + rest == total - total % n && rest < n
    ensures rest == 0
  {
    assert total - total % n == total / n * n;
    NoMultiple(total / n, k, rest, n);
  }

  /** A chunk smaller than the others is the end of the stream. */
  lemma ShortIsLast(docs: seq<Doc>, streamError: Option<string>, chunkSize: int, bulk: (nat, seq<Doc>) -> Bulk,
                    r: Outcome)
    requires Conserves(docs, streamError, chunkSize, bulk, r) && r.sent != []
    requires |r.sent[|r.sent| - 1]| < Size(chunkSize)
    ensures Concat(r.sent) == docs && streamError.None?
  {
    var n, k := Size(chunkSize), |r.sent| - 1;
    if !LastRaises(bulk, r.sent) && streamError.Some? {
      ConcatLength(r.sent[..k], n);
      CutAtWhole(|docs|, k, |r.sent[k]|, n);
    }
  }

  /** What is sent is the chunks of the stream, from the first on. */
  lemma SentAreChunks(docs: seq<Doc>, streamError: Option<string>, chunkSize: int, bulk: (nat, seq<Doc>) -> Bulk,
                      r: Outcome,
                      k: nat)
    requires Conserves(docs, streamError, chunkSize, bulk, r) && k < |r.sent|
    ensures var n := Size(chunkSize); k < ChunkCount(docs, n) && r.sent[k] == ChunkOf(docs, n, k)
  {
    var n := Size(chunkSize);
    ConcatLength(r.sent[..k], n);
    ConcatStep(docs, r.sent, k);
    SliceOfPrefix(docs, Concat(r.sent[..k]), r.sent[k]);
    CountBounds(docs, n);
    Within(k, ChunkCount(docs, n), n, |docs|);
    if |r.sent[k]| < n {
      ShortIsLast(docs, streamError, chunkSize, bulk, r);
    }
  }

  lemma NoMoreThanAll(docs: seq<Doc>, streamError: Option<string>, chunkSize: int, bulk: (nat, seq<Doc>) -> Bulk,
                      r: Outcome)
    requires Conserves(docs, streamError, chunkSize, bulk, r)
    ensures |r.sent| <= ChunkCount(docs, Size(chunkSize))
  {
    if r.sent != [] {
      SentAreChunks(docs, streamError, chunkSize, bulk, r, |r.sent| - 1);
    }
  }

  lemma WholeIsAll(docs: seq<Doc>, sent: seq<seq<Doc>>, n: nat)
    requires n >= 1 && Concat(sent) == docs && forall k :: 0 <= k < |sent| ==> |sent[k]| <= n
    ensures ChunkCount(docs, n) <= |sent|
  {
    if docs != [] {
      CountBounds(docs, n);
      SentBound(sent, n);
      Within(ChunkCount(docs, n) - 1, |sent|, n, |docs|);
    }
  }

  lemma AllIsWhole(docs: seq<Doc>, streamError: Option<string>, chunkSize: int, bulk: (nat, seq<Doc>) -> Bulk,
                   r: Outcome)
    requires Conserves(docs, streamError, chunkSize, bulk, r) && |r.sent| == ChunkCount(docs, Size(chunkSize))
    ensures Concat(r.sent) == docs
  {
    var n, m := Size(chunkSize), |r.sent|;
    CountBounds(docs, n);
    if m > 0 {
      SentAreChunks(docs, streamError, chunkSize, bulk, r, m - 1);
      ConcatLength(r.sent[..m - 1], n);
      Successor(m - 1, n);
    }
  }

  /** The stream is sent in full exactly when all its chunks are. */
  lemma AllSentIff(docs: seq<Doc>, streamError: Option<string>, chunkSize: int, bulk: (nat, seq<Doc>) -> Bulk,
                   r: Outcome)
    requires Conserves(docs, streamError, chunkSize, bulk, r)
    ensures var count := ChunkCount(docs, Size(chunkSize));
      |r.sent| <= count && (Concat(r.sent) == docs <==> |r.sent| == count)
  {
    NoMoreThanAll(docs, streamError, chunkSize, bulk, r);
    if Concat(r.sent) == docs {
      WholeIsAll(docs, r.sent, Size(chunkSize));
    }
    if |r.sent| == ChunkCount(docs, Size(chunkSize)) {
      AllIsWhole(docs, streamError, chunkSize, bulk, r);
    }
  }

  /**
   When the remaining pages keep streaming, as the description of the OAI `ingest` promises. Of a stream that does not
   fail every document is sent exactly when `bulk_index` raises on no chunk but possibly the last, and the run ends
   without an error exactly when it raises on none.
   */
  lemma KeepsStreamingIff(docs: seq<Doc>, chunkSize: int, bulk: (nat, seq<Doc>) -> Bulk, r: Outcome)
    requires Conserves(docs, None, chunkSize, bulk, r)
    ensures var n := Size(chunkSize);
      var count := ChunkCount(docs, n);
      && (Concat(r.sent) == docs <==> forall k: nat :: k < count - 1 ==> bulk(k, ChunkOf(docs, n, k)).Counted?)
      && (r.error == None <==> forall k: nat :: k < count ==> bulk(k, ChunkOf(docs, n, k)).Counted?)
  {
    var n, m := Size(chunkSize), |r.sent|;
    var count := ChunkCount(docs, n);
    AllSentIff(docs, None, chunkSize, bulk, r);
    forall k: nat | k < m ensures r.sent[k] == ChunkOf(docs, n, k) {
      SentAreChunks(docs, None, chunkSize, bulk, r, k);
    }
    assert LastRaises(bulk, r.sent) ==> bulk(m - 1, ChunkOf(docs, n, m - 1)).Raised?;
  }

  lemma NotShorter(docs: seq<Doc>, streamError: Option<string>, chunkSize: int, bulk: (nat, seq<Doc>) -> Bulk,
                   r: Outcome,
                   other: Outcome)
    requires Conserves(docs, streamError, chunkSize, bulk, r) && Conserves(docs, streamError, chunkSize, bulk, other)
    ensures |r.sent| >= |other.sent|
  {
    var n, m := Size(chunkSize), |r.sent|;
    AllSentIff(docs, streamError, chunkSize, bulk, r);
    AllSentIff(docs, streamError, chunkSize, bulk, other);
    if m < |other.sent| {
      if m > 0 {
        SentAreChunks(docs, streamError, chunkSize, bulk, r, m - 1);
        SentAreChunks(docs, streamError, chunkSize, bulk, other, m - 1);
      }
      if !LastRaises(bulk, r.sent) && streamError.Some? {
        ShorterFails(docs, streamError, chunkSize, bulk, r, other);
      }
    }
  }

  /** A failing stream is sent up to its last whole chunk, by every run that `bulk_index` does not stop. */
  lemma ShorterFails(docs: seq<Doc>, streamError: Option<string>, chunkSize: int, bulk: (nat, seq<Doc>) -> Bulk,
                     r: Outcome,
                     other: Outcome)
    requires Conserves(docs, streamError, chunkSize, bulk, r) && Conserves(docs, streamError, chunkSize, bulk, other)
    requires streamError.Some? && !LastRaises(bulk, r.sent)
    ensures |other.sent| <= |r.sent|
  {
    var n, k := Size(chunkSize), |r.sent|;
    if k < |other.sent| {
      if |other.sent[|other.sent| - 1]| < n {
        ShortIsLast(docs, streamError, chunkSize, bulk, other);
      }
      if k > 0 && |r.sent[k - 1]| < n {
        ShortIsLast(docs, streamError, chunkSize, bulk, r);
      }
      ConcatLength(r.sent, n);
      ConcatLength(other.sent, n);
      MultiplesApart(|other.sent|, k, n);
    }
  }

  /** These promises leave nothing open: they determine the outcome. */
  lemma Determined(docs: seq<Doc>, streamError: Option<string>, chunkSize: int, bulk: (nat, seq<Doc>) -> Bulk,
                   r: Outcome,
                   other: Outcome)
    requires Conserves(docs, streamError, chunkSize, bulk, r) && Conserves(docs, streamError, chunkSize, bulk, other)
    ensures r == other
  {
    NotShorter(docs, streamError, chunkSize, bulk, r, other);
    NotShorter(docs, streamError, chunkSize, bulk, other, r);
    forall k: nat | k < |r.sent| ensures r.sent[k] == other.sent[k] {
      SentAreChunks(docs, streamError, chunkSize, bulk, r, k);
      SentAreChunks(docs, streamError, chunkSize, bulk, other, k);
    }
    assert r.sent == other.sent;
  }

  /** One chunk that raises loses the rest: here two chunks of one document, and the first one raises. */
  lemma RaiseLosesRest(first: Doc, second: Doc, message: string, r: Outcome)
    requires var bulk := (k: nat, chunk: seq<Doc>) => if k == 0 then Raised(message) else Counted(|chunk|, 0);
      Conserves([first, second], None, 1, bulk, r)
    ensures r == Outcome(0, 0, Some(message), [[first]]) && Concat(r.sent) != [first, second]
  {
    var bulk := (k: nat, chunk: seq<Doc>) => if k == 0 then Raised(message) else Counted(|chunk|, 0);
    var sent := [[first]];
    SentSnoc(bulk, [], [first]);
    assert [] + [[first]] == sent && [] + [first] == [first];
    assert [first] <= [first, second];
    Determined([first, second], None, 1, bulk, r, Outcome(0, 0, Some(message), sent));
  }

  // ---------------------------------------------------------------- what the totals count

  function HowMany(stored: Doc -> bool, docs: seq<Doc>): nat {
    if docs == [] then 0 else HowMany(stored, docs[..|docs| - 1]) + (if stored(docs[|docs| - 1]) then 1 else 0)
  }

  /** A backend that stores these documents and counts the others as failed. */
  ghost predicate StoresThese(bulk: (nat, seq<Doc>) -> Bulk, stored: Doc -> bool) {
    forall k, chunk :: bulk(k, chunk) == Counted(HowMany(stored, chunk), |chunk| - HowMany(stored, chunk))
  }

  lemma {:induction false} HowManyJoin(stored: Doc -> bool, a: seq<Doc>, b: seq<Doc>)
    ensures HowMany(stored, a + b) == HowMany(stored, a) + HowMany(stored, b)
    decreases |b|
  {
    if b == [] {
      assert a + b == a;
    } else {
      var n := |b| - 1;
      HowManyJoin(stored, a, b[..n]);
      assert (a + b)[..|a + b| - 1] == a + b[..n];
    }
  }

  lemma {:induction false} SumsAre(bulk: (nat, seq<Doc>) -> Bulk, stored: Doc -> bool, sent: seq<seq<Doc>>)
    requires StoresThese(bulk, stored)
    ensures SumAdded(bulk, sent) == HowMany(stored, Concat(sent))
    ensures SumFailed(bulk, sent) == |Concat(sent)| - HowMany(stored, Concat(sent))
  {
    if sent != [] {
      var k := |sent| - 1;
      SumsAre(bulk, stored, sent[..k]);
      HowManyJoin(stored, Concat(sent[..k]), sent[k]);
    }
  }

  /**
   When every document is either stored or counted as failed, the run reports how many of each the stream had,
   whatever the chunk size; of a stream that fails it counts whole chunks only.
   */
  lemma TotalsCountDocs(docs: seq<Doc>, streamError: Option<string>, chunkSize: int, bulk: (nat, seq<Doc>) -> Bulk,
                        stored: Doc -> bool, r: Outcome)
    requires Conserves(docs, streamError, chunkSize, bulk, r) && StoresThese(bulk, stored)
    ensures r.error == streamError
    ensures var size := if chunkSize < 1 then 1 else chunkSize;
      var counted := docs[..if streamError.None? then |docs| else |docs| - |docs| % size];
      r.ingested == HowMany(stored, counted) && r.failed == |counted| - HowMany(stored, counted)
  {
    NeverRaises(bulk, r.sent);
    SumsAre(bulk, stored, r.sent);
    IsStart(Concat(r.sent), docs);
    assert docs[..|docs|] == docs;
  }

  lemma NeverRaises(bulk: (nat, seq<Doc>) -> Bulk, sent: seq<seq<Doc>>)
    requires forall k, chunk :: bulk(k, chunk).Counted?
    ensures !LastRaises(bulk, sent)
  {
    assert sent != [] ==> bulk(|sent| - 1, sent[|sent| - 1]).Counted?;
  }

  lemma IsStart(a: seq<Doc>, docs: seq<Doc>)
    requires a <= docs
    ensures a == docs[..|a|]
  {
  }
}
