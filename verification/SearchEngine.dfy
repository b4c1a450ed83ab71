/**
 The search index as the program relies on it: documents with unique ids, a query that selects some of
 them, and a sort made of one ranked field with the id as tie-breaker. Scores, field values and matching
 belong to the engine and stay uninterpreted.
 */
module SearchEngine {
  import opened Wrappers
  import opened Text
  import opened Json
  import opened Cursor

  datatype Doc = Doc(id: string, body: Value)

  /** One state of the index, in storage order. */
  type Index = seq<Doc>

  predicate DistinctIds(index: Index) {
    forall i, j :: 0 <= i < j < |index| ==> index[i].id != index[j].id
  }

  datatype SortClause = SortClause(field: string, desc: bool)

  datatype Clause =
    | MatchAll
    | SimpleQuery(text: string)
    | Terms(field: string, values: seq<string>)
    | Flag(field: string, on: bool)
    | AtMost(field: string, bound: string)
    | AtLeast(field: string, bound: string)

  /** `from`, or `search_after` */
  datatype Position = From(n: int) | After(tail: Tail)

  datatype Body = Body(
    size: int,
    must: seq<Clause>,
    filters: seq<Clause>,
    sort: seq<SortClause>,
    position: Position,
    aggs: seq<string>
  )

  /** A document in a result list, with the sort values that placed it there. */
  datatype Hit = Hit(doc: Doc, sort: Tail)

  datatype Page = Page(hits: seq<Hit>, total: nat)

  datatype Engine = Engine(
    le: (Value, Value) -> bool,
    matches: (seq<Clause>, seq<Clause>, Doc) -> bool,
    key: (seq<Clause>, string, Doc) -> Value,
    place: (string, Tail) -> Option<Tail>,
    lookup: (Index, string) -> Result<Option<Doc>>,
    readers: Readers
  ) {
    /** `le` ranks all sort values, ties allowed; sort values are JSON; `match_all` takes every document
        and scores them alike; a position the engine has handed out is taken back as it is. */
    ghost predicate Lawful() {
      && Ranks() && readers.Faithful()
      && forall must, field, d {:trigger KeyOf(must, field, d)} :: Takes(field, KeyOf(must, field, d))
    }

    ghost predicate Ranks() {
      && (forall x, y :: le(x, y) || le(y, x))
      && (forall x, y, z :: le(x, y) && le(y, z) ==> le(x, z))
      && (forall must, field, d :: Valid(key(must, field, d)))
      && (forall d :: matches([MatchAll], [], d))
      && (forall c, d :: key([MatchAll], "_score", c) == key([MatchAll], "_score", d))
    }

    /** The value of the ranked field, then the id. */
    predicate IsKey(t: Tail) {
      |t| == 2 && t[1].Str?
    }

    /** What the engine reports as `hit.sort`. */
    function KeyOf(must: seq<Clause>, field: string, d: Doc): Tail {
      [key(must, field, d), Str(d.id)]
    }

    /** The position `search_after` values stand for in this sort; None when the engine refuses them. */
    function Placed(field: string, tail: Tail): (p: Option<Tail>)
      ensures p.Some? ==> IsKey(p.value)
    {
      match place(field, tail)
      case Some(t) => if IsKey(t) then Some(t) else None
      case None => None
    }

    predicate Takes(field: string, tail: Tail) {
      Placed(field, tail) == Some(tail)
    }

    /** Position a comes strictly before position b. */
    predicate Before(desc: bool, a: Tail, b: Tail)
      requires IsKey(a) && IsKey(b)
    {
      var ab, ba := le(a[0], b[0]), le(b[0], a[0]);
      if ab && ba then Less(a[1].s, b[1].s) else if desc then ba else ab
    }

    function HitOf(body: Body, d: Doc): (h: Hit)
      requires body.sort != []
      ensures IsKey(h.sort) && h.doc == d && h.sort[1].s == d.id
    {
      Hit(d, KeyOf(body.must, body.sort[0].field, d))
    }

    function Insert(desc: bool, h: Hit, hits: seq<Hit>): (r: seq<Hit>)
      requires IsKey(h.sort) && forall g :: g in hits ==> IsKey(g.sort)
      ensures multiset(r) == multiset(hits) + multiset{h}
      ensures forall g :: g in r <==> g == h || g in hits
    {
      if hits == [] then [h]
      else if Before(desc, h.sort, hits[0].sort) then [h] + hits
      else
        assert hits == [hits[0]] + hits[1..];
        [hits[0]] + Insert(desc, h, hits[1..])
    }

    /** The hits of a query on an index, in sort order. */
    function Ranked(body: Body, index: Index): (r: seq<Hit>)
      requires body.sort != []
      ensures forall h :: h in r ==> IsKey(h.sort) && h == HitOf(body, h.doc) && h.doc in index
    {
      if index == [] then []
      else
        var rest := Ranked(body, index[1..]);
        if matches(body.must, body.filters, index[0])
        then Insert(body.sort[0].desc, HitOf(body, index[0]), rest)
        else rest
    }

    function Beyond(desc: bool, after: Tail, hits: seq<Hit>): (r: seq<Hit>)
      requires IsKey(after) && forall h :: h in hits ==> IsKey(h.sort)
      ensures forall h :: h in r <==> h in hits && Before(desc, after, h.sort)
    {
      if hits == [] then []
      else
        assert hits == [hits[0]] + hits[1..];
        var rest := Beyond(desc, after, hits[1..]);
        if Before(desc, after, hits[0].sort) then [hits[0]] + rest else rest
    }

    /** One search request. A negative window or a position the engine refuses is its HTTP 400. */
    function Search(body: Body, index: Index): Result<Page>
      requires body.sort != []
    {
      var ranked := Ranked(body, index);
      if body.size < 0 then Err("backend_unavailable")
      else
        match body.position
        case From(n) =>
          if n < 0 then Err("backend_unavailable")
          else Ok(Page(Window(ranked, n, body.size), |ranked|))
        case After(tail) =>
          match Placed(body.sort[0].field, tail)
          case None => Err("backend_unavailable")
          case Some(at) => Ok(Page(Window(Beyond(body.sort[0].desc, at, ranked), 0, body.size), |ranked|))
    }

    // ---------------------------------------------------------------- order

    ghost predicate Sorted(desc: bool, hits: seq<Hit>) {
      && (forall h :: h in hits ==> IsKey(h.sort))
      && forall i, j :: 0 <= i < j < |hits| ==> Before(desc, hits[i].sort, hits[j].sort)
    }

    /** The id tie-breaker makes the ranking total: two positions with different ids are always ordered. */
    lemma BeforeTotal(desc: bool, a: Tail, b: Tail)
      requires Ranks() && IsKey(a) && IsKey(b)
      ensures !Before(desc, a, a)
      ensures a[1].s != b[1].s ==> (Before(desc, a, b) <==> !Before(desc, b, a))
    {
      LessIrreflexive(a[1].s);
      LessTotal(a[1].s, b[1].s);
      if Less(a[1].s, b[1].s) && Less(b[1].s, a[1].s) {
        LessTransitive(a[1].s, b[1].s, a[1].s);
      }
    }

    lemma BeforeTransitive(desc: bool, a: Tail, b: Tail, c: Tail)
      requires Ranks() && IsKey(a) && IsKey(b) && IsKey(c)
      requires Before(desc, a, b) && Before(desc, b, c)
      ensures Before(desc, a, c)
    {
      if Less(a[1].s, b[1].s) && Less(b[1].s, c[1].s) {
        LessTransitive(a[1].s, b[1].s, c[1].s);
      }
    }

    ghost predicate AllAfter(desc: bool, h: Hit, hits: seq<Hit>)
      requires IsKey(h.sort)
    {
      forall k :: 0 <= k < |hits| ==> IsKey(hits[k].sort) && Before(desc, h.sort, hits[k].sort)
    }

    lemma ConsSorted(desc: bool, h: Hit, hits: seq<Hit>)
      requires IsKey(h.sort) && Sorted(desc, hits) && AllAfter(desc, h, hits)
      ensures Sorted(desc, [h] + hits)
    {
    }

    lemma TailSorted(desc: bool, hits: seq<Hit>)
      requires Sorted(desc, hits) && hits != []
      ensures IsKey(hits[0].sort) && Sorted(desc, hits[1..]) && AllAfter(desc, hits[0], hits[1..])
    {
      assert hits[0] in hits;
    }

    lemma {:induction false} InsertSorted(desc: bool, h: Hit, hits: seq<Hit>)
      requires Ranks() && IsKey(h.sort) && Sorted(desc, hits)
      requires forall g :: g in hits ==> g.sort[1].s != h.sort[1].s
      ensures Sorted(desc, Insert(desc, h, hits))
    {
      if hits != [] {
        var g := hits[0];
        assert g in hits;
        TailSorted(desc, hits);
        BeforeTotal(desc, h.sort, g.sort);
        if Before(desc, h.sort, g.sort) {
          forall k | 0 <= k < |hits| ensures IsKey(hits[k].sort) && Before(desc, h.sort, hits[k].sort) {
            if k > 0 {
              assert hits[k] == hits[1..][k - 1];
              BeforeTransitive(desc, h.sort, g.sort, hits[k].sort);
            }
          }
          ConsSorted(desc, h, hits);
        } else {
          InsertSorted(desc, h, hits[1..]);
          BehindFirst(desc, g, h, hits[1..]);
          ConsSorted(desc, g, Insert(desc, h, hits[1..]));
        }
      }
    }

    lemma BehindFirst(desc: bool, g: Hit, h: Hit, rest: seq<Hit>)
      requires IsKey(g.sort) && IsKey(h.sort) && Before(desc, g.sort, h.sort)
      requires (forall f :: f in rest ==> IsKey(f.sort)) && AllAfter(desc, g, rest)
      ensures AllAfter(desc, g, Insert(desc, h, rest))
    {
      var r := Insert(desc, h, rest);
      forall k | 0 <= k < |r| ensures IsKey(r[k].sort) && Before(desc, g.sort, r[k].sort) {
        assert r[k] in r;
        if r[k] != h {
          var j :| 0 <= j < |rest| && rest[j] == r[k];
        }
      }
    }

    lemma {:induction false} RankedSorted(body: Body, index: Index)
      requires Ranks() && body.sort != [] && DistinctIds(index)
      ensures Sorted(body.sort[0].desc, Ranked(body, index))
    {
      if index != [] {
        RankedSorted(body, index[1..]);
        if matches(body.must, body.filters, index[0]) {
          InsertSorted(body.sort[0].desc, HitOf(body, index[0]), Ranked(body, index[1..]));
        }
      }
    }

    /** Every matching document is ranked, and nothing else is. */
    lemma {:induction false} RankedComplete(body: Body, index: Index)
      requires body.sort != []
      ensures forall d :: d in index && matches(body.must, body.filters, d) <==> HitOf(body, d) in Ranked(body, index)
      ensures (forall d :: d in index ==> matches(body.must, body.filters, d)) ==> |Ranked(body, index)| == |index|
    {
      if index != [] {
        RankedComplete(body, index[1..]);
        assert index == [index[0]] + index[1..];
        assert forall d, e :: HitOf(body, d) == HitOf(body, e) ==> d == e;
        if matches(body.must, body.filters, index[0]) {
          var rest := Ranked(body, index[1..]);
          var r := Insert(body.sort[0].desc, HitOf(body, index[0]), rest);
          assert |multiset(r)| == |multiset(rest)| + 1;
        }
      }
    }

    /** Earlier hits have the smaller value of the ranked field, or the larger one descending; ties go up by id. */
    lemma RankedMeans(body: Body, index: Index, i: nat, j: nat)
      requires Ranks() && body.sort != [] && DistinctIds(index) && i < j < |Ranked(body, index)|
      ensures var a, b := Ranked(body, index)[i].doc, Ranked(body, index)[j].doc;
        var x, y := key(body.must, body.sort[0].field, a), key(body.must, body.sort[0].field, b);
        && a in index && matches(body.must, body.filters, a)
        && (if body.sort[0].desc then le(y, x) else le(x, y))
        && (le(x, y) && le(y, x) ==> Less(a.id, b.id))
    {
      RankedSorted(body, index);
      RankedComplete(body, index);
      var hits := Ranked(body, index);
      assert hits[i] in hits && hits[j] in hits;
      assert Before(body.sort[0].desc, hits[i].sort, hits[j].sort);
      assert HitOf(body, hits[i].doc) == hits[i];
    }

    lemma {:induction false} BeyondKeepsOrder(desc: bool, after: Tail, hits: seq<Hit>)
      requires Sorted(desc, hits) && IsKey(after)
      ensures Sorted(desc, Beyond(desc, after, hits))
    {
      if hits != [] {
        TailSorted(desc, hits);
        BeyondKeepsOrder(desc, after, hits[1..]);
        var rest := Beyond(desc, after, hits[1..]);
        forall k | 0 <= k < |rest| ensures IsKey(rest[k].sort) && Before(desc, hits[0].sort, rest[k].sort) {
          assert rest[k] in rest;
        }
        ConsSorted(desc, hits[0], rest);
      }
    }

    /** Past the position of the k-th hit lie exactly the hits ranked after it. */
    lemma {:induction false} BeyondSorted(desc: bool, hits: seq<Hit>, k: nat)
      requires Ranks() && Sorted(desc, hits) && k < |hits|
      ensures Beyond(desc, hits[k].sort, hits) == hits[k + 1..]
    {
      SortedAround(desc, hits, k);
      BeyondParts(desc, hits[k].sort, hits, hits[..k + 1], hits[k + 1..]);
    }

    lemma BeyondParts(desc: bool, after: Tail, hits: seq<Hit>, low: seq<Hit>, high: seq<Hit>)
      requires Ranks() && IsKey(after) && hits == low + high
      requires forall h :: h in hits ==> IsKey(h.sort)
      requires forall h :: h in low ==> h.sort == after || Before(desc, h.sort, after)
      requires forall h :: h in high ==> Before(desc, after, h.sort)
      ensures Beyond(desc, after, hits) == high
    {
      BeyondNone(desc, after, low, high);
    }

    lemma SortedAround(desc: bool, hits: seq<Hit>, k: nat)
      requires Sorted(desc, hits) && k < |hits|
      ensures IsKey(hits[k].sort) && hits == hits[..k + 1] + hits[k + 1..]
      ensures forall h :: h in hits[..k + 1] ==> h.sort == hits[k].sort || Before(desc, h.sort, hits[k].sort)
      ensures forall h :: h in hits[k + 1..] ==> Before(desc, hits[k].sort, h.sort)
    {
      assert hits[k] in hits && hits == hits[..k + 1] + hits[k + 1..];
      forall h | h in hits[..k + 1] ensures h.sort == hits[k].sort || Before(desc, h.sort, hits[k].sort) {
        var j :| 0 <= j <= k && hits[j] == h;
      }
      forall h | h in hits[k + 1..] ensures Before(desc, hits[k].sort, h.sort) {
        var j :| k < j < |hits| && hits[j] == h;
      }
    }

    lemma {:induction false} BeyondNone(desc: bool, after: Tail, low: seq<Hit>, high: seq<Hit>)
      requires Ranks() && IsKey(after)
      requires forall h :: h in low + high ==> IsKey(h.sort)
      requires forall h :: h in low ==> h.sort == after || Before(desc, h.sort, after)
      requires forall h :: h in high ==> Before(desc, after, h.sort)
      ensures Beyond(desc, after, low + high) == high
      decreases |low| + |high|
    {
      BeforeTotal(desc, after, after);
      if low != [] {
        var h := low[0];
        assert h in low && low + high == [h] + (low[1..] + high);
        if Before(desc, after, h.sort) && Before(desc, h.sort, after) {
          BeforeTransitive(desc, after, h.sort, after);
        }
        BeyondNone(desc, after, low[1..], high);
      } else if high != [] {
        assert low + high == high && high == [high[0]] + high[1..];
        assert high[0] in high;
        BeyondNone(desc, after, [], high[1..]);
        assert [] + high[1..] == high[1..];
      } else {
        assert low + high == [];
      }
    }

    lemma HitTaken(body: Body, index: Index, h: Hit)
      requires Lawful() && body.sort != [] && h in Ranked(body, index)
      ensures Takes(body.sort[0].field, h.sort)
    {
      assert h.sort == KeyOf(body.must, body.sort[0].field, h.doc);
    }

    /** `search_after` with a hit's own position: the window that starts right behind that hit. */
    lemma SearchAfterHit(body: Body, index: Index, k: nat)
      requires Lawful() && body.sort != [] && DistinctIds(index) && body.size >= 0
      requires k < |Ranked(body, index)| && body.position == After(Ranked(body, index)[k].sort)
      ensures var ranked := Ranked(body, index);
        Search(body, index) == Ok(Page(Window(ranked, k + 1, body.size), |ranked|))
    {
      var ranked := Ranked(body, index);
      RankedSorted(body, index);
      BeyondSorted(body.sort[0].desc, ranked, k);
      assert ranked[k] in ranked;
      HitTaken(body, index, ranked[k]);
      WindowOfRest(ranked, k + 1, body.size);
    }
  }

  /** `hits[n : n + size]`, cut off at the end of the list. */
  function Window(hits: seq<Hit>, n: nat, size: nat): (r: seq<Hit>)
    ensures forall h :: h in r ==> h in hits
  {
    if n >= |hits| then [] else if n + size >= |hits| then hits[n..] else hits[n..n + size]
  }

  lemma WindowOfRest(hits: seq<Hit>, n: nat, size: nat)
    requires n <= |hits|
    ensures Window(hits[n..], 0, size) == Window(hits, n, size)
  {
  }

  // ---------------------------------------------------------------- over several requests

  /** The state the index is in when the i-th request comes. */
  type History = nat -> Index

  /** Ids are unique in every state of the index; beyond that it may change freely. */
  ghost predicate AlwaysDistinct(history: History) {
    forall i: nat :: DistinctIds(history(i))
  }

  predicate Delivered(hits: seq<Hit>, id: string) {
    exists k :: 0 <= k < |hits| && hits[k].doc.id == id
  }

  lemma Find(hits: seq<Hit>, h: Hit)
    requires h in hits
    ensures Delivered(hits, h.doc.id)
  {
    var k :| 0 <= k < |hits| && hits[k] == h;
    assert hits[k].doc.id == h.doc.id;
  }

  lemma DeliveredJoin(a: seq<Hit>, b: seq<Hit>, id: string)
    ensures Delivered(a, id) || Delivered(b, id) ==> Delivered(a + b, id)
  {
    if Delivered(a, id) {
      var k :| 0 <= k < |a| && a[k].doc.id == id;
      assert (a + b)[k].doc.id == id;
    } else if Delivered(b, id) {
      var k :| 0 <= k < |b| && b[k].doc.id == id;
      assert (a + b)[|a| + k].doc.id == id;
    }
  }

  lemma WindowPart(all: seq<Hit>, size: nat)
    ensures var hits := Window(all, 0, size);
      |hits| <= |all| && forall k :: 0 <= k < |hits| ==> hits[k] == all[k]
  {
  }
}
