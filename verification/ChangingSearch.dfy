/**
 The `next_cursor` chain of `GET /v1/search` while the index changes between its requests (app/public_api/routes.py).
 Documents come and go as they like; what they must not do is move within the sort of the query.
 */
module ChangingSearch {
  import opened Wrappers
  import opened Cursor
  import opened Query
  import opened SearchEngine
  import opened Adapter
  import opened PublicSearch

  // ---------------------------------------------------------------- a chain of pages

  /** What page i holds when it starts behind a position. */
  type Pages = (nat, Option<Tail>) -> seq<Hit>

  /** Where page k starts, if the chain gets that far. */
  function StartOf(pages: Pages, size: nat, k: nat): Option<Option<Tail>> {
    if k == 0 then Some(None)
    else
      match StartOf(pages, size, k - 1)
      case None => None
      case Some(start) =>
        var next := NextTail(pages(k - 1, start), size);
        if next.Some? then Some(next) else None
  }

  function PageRead(pages: Pages, size: nat, k: nat): seq<Hit> {
    var start := StartOf(pages, size, k);
    if start.Some? then pages(k, start.value) else []
  }

  /** The first k pages, one after the other. */
  function Read(pages: Pages, size: nat, k: nat): seq<Hit> {
    if k == 0 then [] else Read(pages, size, k - 1) + PageRead(pages, size, k - 1)
  }

  type Order = (Tail, Tail) -> bool

  ghost predicate IsStrict(before: Order) {
    && (forall t :: !before(t, t))
    && forall a, b, c :: before(a, b) && before(b, c) ==> before(a, c)
  }

  predicate Ascends(before: Order, hits: seq<Hit>) {
    forall j, k :: 0 <= j < k < |hits| ==> before(hits[j].sort, hits[k].sort)
  }

  predicate Ahead(before: Order, start: Option<Tail>, t: Tail) {
    start.Some? ==> before(start.value, t)
  }

  predicate AllAhead(before: Order, start: Option<Tail>, hits: seq<Hit>) {
    forall k :: 0 <= k < |hits| ==> Ahead(before, start, hits[k].sort)
  }

  /** Every hit is where its id always is. */
  predicate InPlace(at: string -> Tail, hits: seq<Hit>) {
    forall k :: 0 <= k < |hits| ==> hits[k].sort == at(hits[k].doc.id) != []
  }

  predicate AllFrom(index: Index, matches: Doc -> bool, hits: seq<Hit>) {
    forall k :: 0 <= k < |hits| ==> hits[k].doc in index && matches(hits[k].doc)
  }

  /** A document of this id is in the index and matches. */
  predicate Matching(index: Index, matches: Doc -> bool, id: string) {
    exists k :: 0 <= k < |index| && index[k].id == id && matches(index[k])
  }

  /** Not on this page, which is full and ends before it. */
  predicate Later(before: Order, hits: seq<Hit>, size: nat, t: Tail) {
    NextTail(hits, size).Some? && before(NextTail(hits, size).value, t)
  }

  /**
   What one page promises: matching documents of the index in sort order, behind the start; and a matching document
   behind the start that it leaves out comes after a full page.
   */
  ghost predicate PageLaw(before: Order, at: string -> Tail, matches: Doc -> bool, hits: seq<Hit>, index: Index,
                          start: Option<Tail>, size: nat) {
    && Ascends(before, hits) && AllAhead(before, start, hits) && InPlace(at, hits) && AllFrom(index, matches, hits)
    && forall id :: Matching(index, matches, id) && Ahead(before, start, at(id)) ==>
         Delivered(hits, id) || Later(before, hits, size, at(id))
  }

  /** Every page read keeps the law. */
  ghost predicate Lawful(before: Order, at: string -> Tail, matches: Doc -> bool, pages: Pages, history: History,
                         size: nat) {
    forall k: nat :: KeepsLaw(before, at, matches, pages, history, size, k)
  }

  ghost predicate KeepsLaw(before: Order, at: string -> Tail, matches: Doc -> bool, pages: Pages, history: History,
                           size: nat, k: nat) {
    StartOf(pages, size, k).Some? ==>
      PageLaw(before, at, matches, PageRead(pages, size, k), history(k), StartOf(pages, size, k).value, size)
  }

  /** The last hit read is where the next page starts. */
  predicate EndsAt(hits: seq<Hit>, start: Option<Tail>) {
    if hits == [] then start.None? else start == Some(hits[|hits| - 1].sort)
  }

  lemma JoinAscends(before: Order, a: seq<Hit>, b: seq<Hit>, start: Option<Tail>)
    requires IsStrict(before) && Ascends(before, a) && Ascends(before, b)
    requires EndsAt(a, start) && AllAhead(before, start, b)
    ensures Ascends(before, a + b)
  {
    forall j, k | 0 <= j < |a| && 0 <= k < |b| ensures before(a[j].sort, b[k].sort) {
      assert Ahead(before, start, b[k].sort);
      if j < |a| - 1 {
        assert before(a[j].sort, a[|a| - 1].sort);
      }
    }
  }

  lemma JoinEnds(a: seq<Hit>, b: seq<Hit>, size: nat)
    requires NextTail(b, size).Some?
    ensures EndsAt(a + b, NextTail(b, size))
  {
  }

  lemma EndsNext(pages: Pages, size: nat, k: nat)
    requires k > 0
    ensures StartOf(pages, size, k).Some? ==> EndsAt(Read(pages, size, k), StartOf(pages, size, k).value)
  {
    if StartOf(pages, size, k).Some? {
      JoinEnds(Read(pages, size, k - 1), PageRead(pages, size, k - 1), size);
    }
  }

  /** What has been read ascends, and the chain goes on right behind it. */
  lemma {:induction false} ReadAscends(before: Order, at: string -> Tail, matches: Doc -> bool, pages: Pages,
                                       history: History, size: nat, k: nat)
    requires IsStrict(before) && Lawful(before, at, matches, pages, history, size)
    ensures Ascends(before, Read(pages, size, k))
    ensures StartOf(pages, size, k).Some? ==> EndsAt(Read(pages, size, k), StartOf(pages, size, k).value)
  {
    if k > 0 {
      ReadAscends(before, at, matches, pages, history, size, k - 1);
      assert KeepsLaw(before, at, matches, pages, history, size, k - 1);
      var sofar, page := Read(pages, size, k - 1), PageRead(pages, size, k - 1);
      if StartOf(pages, size, k - 1).Some? {
        JoinAscends(before, sofar, page, StartOf(pages, size, k - 1).value);
        EndsNext(pages, size, k);
      } else {
        assert sofar + [] == sofar;
      }
    }
  }

  /** The document of this hit was in the index, and matched, when one of the first k requests came. */
  ghost predicate WasMatching(matches: Doc -> bool, history: History, h: Hit, k: nat) {
    exists j: nat :: j < k && h.doc in history(j) && matches(h.doc)
  }

  lemma {:induction false} ReadInPlace(before: Order, at: string -> Tail, matches: Doc -> bool, pages: Pages,
                                       history: History, size: nat, k: nat)
    requires Lawful(before, at, matches, pages, history, size)
    ensures InPlace(at, Read(pages, size, k))
    ensures forall h :: h in Read(pages, size, k) ==> WasMatching(matches, history, h, k)
  {
    if k > 0 {
      ReadInPlace(before, at, matches, pages, history, size, k - 1);
      assert KeepsLaw(before, at, matches, pages, history, size, k - 1);
      var sofar, page := Read(pages, size, k - 1), PageRead(pages, size, k - 1);
      forall h | h in sofar + page ensures WasMatching(matches, history, h, k) {
        if h in sofar {
          assert WasMatching(matches, history, h, k - 1);
        } else {
          assert h.doc in history(k - 1);
        }
      }
    }
  }

  /** There, and matching, at each of the first k requests that the chain makes. */
  ghost predicate Stays(matches: Doc -> bool, pages: Pages, history: History, size: nat, id: string, k: nat) {
    forall j: nat :: j < k && StartOf(pages, size, j).Some? ==> Matching(history(j), matches, id)
  }

  /** What stays has been read, or lies where the chain goes on. */
  lemma {:induction false} ReadOrAhead(before: Order, at: string -> Tail, matches: Doc -> bool, pages: Pages,
                                       history: History, size: nat, id: string, k: nat)
    requires Lawful(before, at, matches, pages, history, size) && Stays(matches, pages, history, size, id, k)
    ensures var start := StartOf(pages, size, k);
      Delivered(Read(pages, size, k), id) || (start.Some? && Ahead(before, start.value, at(id)))
  {
    if k > 0 {
      ReadOrAhead(before, at, matches, pages, history, size, id, k - 1);
      assert KeepsLaw(before, at, matches, pages, history, size, k - 1);
      var sofar, page := Read(pages, size, k - 1), PageRead(pages, size, k - 1);
      DeliveredJoin(sofar, page, id);
    }
  }

  lemma AscendingDiffer(before: Order, at: string -> Tail, hits: seq<Hit>)
    requires IsStrict(before) && Ascends(before, hits) && InPlace(at, hits)
    ensures forall i, j :: 0 <= i < j < |hits| ==> hits[i].doc.id != hits[j].doc.id
  {
    forall i, j | 0 <= i < j < |hits| ensures hits[i].doc.id != hits[j].doc.id {
      assert before(hits[i].sort, hits[j].sort) && !before(hits[i].sort, hits[i].sort);
    }
  }

  // ---------------------------------------------------------------- the chain over HTTP

  function TokenOf(encode: Tail -> string, start: Option<Tail>): Option<string> {
    if start.Some? then Some(encode(start.value)) else None
  }

  /** The response holds these hits, and a token for the last of them exactly when the page is full. */
  predicate IsPage(r: Result<Response>, hits: seq<Hit>, encode: Tail -> string, size: nat) {
    r.Ok? && r.value.hits == hits && r.value.nextCursor == TokenOf(encode, NextTail(hits, size))
  }

  predicate AnswersAt(server: Server, pages: Pages, encode: Tail -> string, size: nat, k: nat) {
    StartOf(pages, size, k).Some? ==>
      IsPage(server(k, TokenOf(encode, StartOf(pages, size, k).value)), PageRead(pages, size, k), encode, size)
  }

  ghost predicate Answers(server: Server, pages: Pages, encode: Tail -> string, size: nat) {
    forall k: nat :: AnswersAt(server, pages, encode, size, k)
  }

  /** Sending back the tokens follows the chain of positions. */
  lemma {:induction false} FollowsStarts(server: Server, pages: Pages, encode: Tail -> string, size: nat, k: nat)
    requires Answers(server, pages, encode, size)
    ensures var start := StartOf(pages, size, k);
      Follow(server, k) == if start.Some? then Some(server(k, TokenOf(encode, start.value))) else None
  {
    if k > 0 {
      FollowsStarts(server, pages, encode, size, k - 1);
      assert AnswersAt(server, pages, encode, size, k - 1);
    }
  }

  lemma {:induction false} CollectsPages(server: Server, pages: Pages, encode: Tail -> string, size: nat, k: nat)
    requires Answers(server, pages, encode, size)
    ensures Collected(server, k) == Read(pages, size, k)
  {
    if k > 0 {
      CollectsPages(server, pages, encode, size, k - 1);
      FollowsStarts(server, pages, encode, size, k - 1);
      assert AnswersAt(server, pages, encode, size, k - 1);
    }
  }

  // ---------------------------------------------------------------- the pages of a query

  function FieldOf(query: NormalizedQuery): string {
    ParseSort(query.sort)[0].field
  }

  function DescOf(query: NormalizedQuery): bool {
    ParseSort(query.sort)[0].desc
  }

  predicate Selects(engine: Engine, query: NormalizedQuery, d: Doc) {
    engine.matches(MustClauses(query), FilterClauses(query), d)
  }

  function Selected(engine: Engine, query: NormalizedQuery): Doc -> bool {
    (d: Doc) => Selects(engine, query, d)
  }

  /** What lies behind the start. */
  function Candidates(engine: Engine, index: Index, query: NormalizedQuery, start: Option<Tail>): (hits: seq<Hit>)
    requires start.Some? ==> engine.IsKey(start.value)
    ensures forall h :: h in hits ==> h in RankedFor(engine, index, query)
  {
    if start.Some? then engine.Beyond(DescOf(query), start.value, RankedFor(engine, index, query))
    else RankedFor(engine, index, query)
  }

  function PagesOf(engine: Engine, history: History, query: NormalizedQuery): Pages
    requires query.pageSize >= 1
  {
    (i: nat, start: Option<Tail>) =>
      if start.Some? && !engine.IsKey(start.value) then []
      else Window(Candidates(engine, history(i), query, start), 0, query.pageSize)
  }

  /** A position the server hands out, and takes back as it is. */
  predicate IsGood(engine: Engine, query: NormalizedQuery, start: Option<Tail>) {
    start.Some? ==> engine.Takes(FieldOf(query), start.value) && ValidTail(start.value)
  }

  lemma RankedGood(engine: Engine, index: Index, query: NormalizedQuery, h: Hit)
    requires engine.Lawful() && h in RankedFor(engine, index, query)
    ensures IsGood(engine, query, Some(h.sort)) && h.sort != []
  {
    engine.HitTaken(BodyAt(query, From(0)), index, h);
  }

  lemma PageHit(engine: Engine, history: History, query: NormalizedQuery, i: nat, start: Option<Tail>, h: Hit)
    requires query.pageSize >= 1 && h in PagesOf(engine, history, query)(i, start)
    ensures h in RankedFor(engine, history(i), query)
  {
    if start.Some? ==> engine.IsKey(start.value) {
      assert h in Window(Candidates(engine, history(i), query, start), 0, query.pageSize);
      assert h in Candidates(engine, history(i), query, start);
    }
  }

  /** Where a page starts is a position that a page has handed out. */
  lemma StartGood(engine: Engine, history: History, query: NormalizedQuery, k: nat)
    requires engine.Lawful() && query.pageSize >= 1
    ensures var start := StartOf(PagesOf(engine, history, query), query.pageSize, k);
      start.Some? ==> IsGood(engine, query, start.value)
  {
    var pages := PagesOf(engine, history, query);
    if k > 0 && StartOf(pages, query.pageSize, k).Some? {
      var start, h := LastOfPage(pages, query.pageSize, k);
      PageHit(engine, history, query, k - 1, start, h);
      RankedGood(engine, history(k - 1), query, h);
    }
  }

  lemma LastOfPage(pages: Pages, size: nat, k: nat) returns (start: Option<Tail>, h: Hit)
    requires k > 0 && StartOf(pages, size, k).Some?
    ensures h in pages(k - 1, start) && StartOf(pages, size, k) == Some(Some(h.sort))
  {
    start := StartOf(pages, size, k - 1).value;
    h := pages(k - 1, start)[|pages(k - 1, start)| - 1];
  }

  lemma CandidatesEncode(engine: Engine, index: Index, query: NormalizedQuery, encode: Tail -> string,
                         start: Option<Tail>)
    requires engine.Lawful() && DistinctIds(index) && (start.Some? ==> engine.IsKey(start.value))
    requires encode == Encoder()
    ensures Encodes(encode, Candidates(engine, index, query, start))
  {
    RankedEncodes(engine, index, query);
  }

  lemma SearchFrom(engine: Engine, index: Index, query: NormalizedQuery, start: Option<Tail>, cursor: Option<string>)
    requires engine.Lawful() && query.pageSize >= 1 && IsGood(engine, query, start)
    requires if start.Some? then cursor == Some(EncodeCursor(start.value)) else cursor == None
    ensures Search(engine, index, query.(page := 1, cursor := cursor))
      == Ok(Page(Window(Candidates(engine, index, query, start), 0, query.pageSize),
                 |RankedFor(engine, index, query)|))
  {
    var q := query.(page := 1, cursor := cursor);
    if start.Some? {
      CursorRoundTrip(start.value);
      assert BodyOf(engine.readers.cursor, q) == Ok(BodyAt(q, After(start.value)));
      RankedIgnoresWindow(engine, index, BodyAt(query, From(0)), BodyAt(q, After(start.value)));
    } else {
      assert BodyOf(engine.readers.cursor, q) == Ok(BodyAt(q, From(0)));
      RankedIgnoresWindow(engine, index, BodyAt(query, From(0)), BodyAt(q, From(0)));
    }
  }

  lemma RespondsPage(engine: Engine, index: Index, query: NormalizedQuery, hits: seq<Hit>, encode: Tail -> string,
                     total: nat)
    requires engine.Lawful() && query.pageSize >= 1 && Encodes(encode, hits)
    requires Search(engine, index, query) == Ok(Page(Window(hits, 0, query.pageSize), total))
    ensures IsPage(Respond(engine, index, query), Window(hits, 0, query.pageSize), encode, query.pageSize)
  {
    WindowEncodes(encode, hits, 0, query.pageSize);
  }

  /** Each request of the chain is answered with the page it asks for. */
  lemma Answered(engine: Engine, index: Index, query: NormalizedQuery, encode: Tail -> string, start: Option<Tail>)
    requires engine.Lawful() && DistinctIds(index) && query.pageSize >= 1 && IsGood(engine, query, start)
    requires encode == Encoder()
    ensures IsPage(Respond(engine, index, query.(page := 1, cursor := TokenOf(encode, start))),
                   Window(Candidates(engine, index, query, start), 0, query.pageSize), encode, query.pageSize)
  {
    SearchFrom(engine, index, query, start, TokenOf(encode, start));
    CandidatesEncode(engine, index, query, encode, start);
    RespondsPage(engine, index, query.(page := 1, cursor := TokenOf(encode, start)),
                 Candidates(engine, index, query, start), encode, |RankedFor(engine, index, query)|);
  }

  lemma QueryAnswers(engine: Engine, history: History, query: NormalizedQuery, encode: Tail -> string)
    requires engine.Lawful() && AlwaysDistinct(history) && query.pageSize >= 1 && encode == Encoder()
    ensures Answers(ServerOf(engine, history, query), PagesOf(engine, history, query), encode, query.pageSize)
  {
    var server, pages := ServerOf(engine, history, query), PagesOf(engine, history, query);
    forall k: nat ensures AnswersAt(server, pages, encode, query.pageSize, k) {
      var start := StartOf(pages, query.pageSize, k);
      if start.Some? {
        StartGood(engine, history, query, k);
        Answered(engine, history(k), query, encode, start.value);
      }
    }
  }

  // ---------------------------------------------------------------- what a page promises

  /** The order of the sort, between positions. */
  function BeforeOf(engine: Engine, query: NormalizedQuery): Order {
    (a: Tail, b: Tail) => engine.IsKey(a) && engine.IsKey(b) && engine.Before(DescOf(query), a, b)
  }

  lemma BeforeStrict(engine: Engine, query: NormalizedQuery)
    requires engine.Lawful()
    ensures IsStrict(BeforeOf(engine, query))
  {
    var before := BeforeOf(engine, query);
    forall t | engine.IsKey(t) ensures !before(t, t) {
      engine.BeforeTotal(DescOf(query), t, t);
    }
    forall a, b, c | before(a, b) && before(b, c) ensures before(a, c) {
      engine.BeforeTransitive(DescOf(query), a, b, c);
    }
  }

  /** Documents may come, go and change, but a matching document of an id always sorts at the same position. */
  ghost predicate KeepsPlaces(engine: Engine, history: History, query: NormalizedQuery, at: string -> Tail) {
    forall i: nat :: InPlaceIn(engine, history(i), query, at)
  }

  ghost predicate InPlaceIn(engine: Engine, index: Index, query: NormalizedQuery, at: string -> Tail) {
    forall d :: d in index && Selects(engine, query, d) ==>
      engine.KeyOf(MustClauses(query), FieldOf(query), d) == at(d.id)
  }

  lemma CandidateLaw(engine: Engine, index: Index, query: NormalizedQuery, at: string -> Tail, start: Option<Tail>,
                     h: Hit)
    requires engine.Lawful() && InPlaceIn(engine, index, query, at) && (start.Some? ==> engine.IsKey(start.value))
    requires h in Candidates(engine, index, query, start)
    ensures h.doc in index && Selects(engine, query, h.doc) && engine.IsKey(h.sort) && h.sort == at(h.doc.id)
    ensures Ahead(BeforeOf(engine, query), start, h.sort)
  {
    var body := BodyAt(query, From(0));
    assert h == engine.HitOf(body, h.doc);
    engine.RankedComplete(body, index);
  }

  lemma CandidatesAscend(engine: Engine, index: Index, query: NormalizedQuery, start: Option<Tail>)
    requires engine.Lawful() && DistinctIds(index) && (start.Some? ==> engine.IsKey(start.value))
    ensures Ascends(BeforeOf(engine, query), Candidates(engine, index, query, start))
  {
    RankedForIsSorted(engine, index, query);
    if start.Some? {
      engine.BeyondKeepsOrder(DescOf(query), start.value, RankedFor(engine, index, query));
    }
    SortedAscends(engine, query, Candidates(engine, index, query, start));
  }

  lemma SortedAscends(engine: Engine, query: NormalizedQuery, hits: seq<Hit>)
    requires engine.Sorted(DescOf(query), hits)
    ensures Ascends(BeforeOf(engine, query), hits)
  {
    forall j, k | 0 <= j < k < |hits| ensures BeforeOf(engine, query)(hits[j].sort, hits[k].sort) {
      assert hits[j] in hits && hits[k] in hits;
    }
  }

  lemma MatchingIsCandidate(engine: Engine, index: Index, query: NormalizedQuery, at: string -> Tail,
                            start: Option<Tail>, id: string)
    requires engine.Lawful() && InPlaceIn(engine, index, query, at) && (start.Some? ==> engine.IsKey(start.value))
    requires Matching(index, Selected(engine, query), id) && Ahead(BeforeOf(engine, query), start, at(id))
    ensures Delivered(Candidates(engine, index, query, start), id)
  {
    var k :| 0 <= k < |index| && index[k].id == id && Selects(engine, query, index[k]);
    var body := BodyAt(query, From(0));
    var h := engine.HitOf(body, index[k]);
    assert index[k] in index;
    engine.RankedComplete(body, index);
    assert h in Candidates(engine, index, query, start);
    Find(Candidates(engine, index, query, start), h);
  }

  /** The head of an ascending list: what it leaves out comes after it. */
  lemma FirstOf(before: Order, at: string -> Tail, all: seq<Hit>, size: nat, id: string)
    requires size >= 1 && Ascends(before, all) && InPlace(at, all) && Delivered(all, id)
    ensures var hits := Window(all, 0, size); Delivered(hits, id) || Later(before, hits, size, at(id))
  {
    var hits := Window(all, 0, size);
    var k :| 0 <= k < |all| && all[k].doc.id == id;
    if k < |hits| {
      assert hits[k].doc.id == id;
    } else {
      assert before(all[size - 1].sort, all[k].sort);
    }
  }

  lemma PageKeepsLaw(engine: Engine, index: Index, query: NormalizedQuery, at: string -> Tail, start: Option<Tail>)
    requires engine.Lawful() && DistinctIds(index) && query.pageSize >= 1
    requires InPlaceIn(engine, index, query, at) && (start.Some? ==> engine.IsKey(start.value))
    ensures PageLaw(BeforeOf(engine, query), at, Selected(engine, query),
                    Window(Candidates(engine, index, query, start), 0, query.pageSize), index, start, query.pageSize)
  {
    var all, before, size := Candidates(engine, index, query, start), BeforeOf(engine, query), query.pageSize;
    CandidatesAscend(engine, index, query, start);
    WindowPart(all, size);
    forall k | 0 <= k < |all|
      ensures all[k].doc in index && Selects(engine, query, all[k].doc) && all[k].sort == at(all[k].doc.id) != []
      ensures Ahead(before, start, all[k].sort)
    {
      CandidateLaw(engine, index, query, at, start, all[k]);
    }
    forall id | Matching(index, Selected(engine, query), id) && Ahead(before, start, at(id))
      ensures Delivered(Window(all, 0, size), id) || Later(before, Window(all, 0, size), size, at(id))
    {
      MatchingIsCandidate(engine, index, query, at, start, id);
      FirstOf(before, at, all, size, id);
    }
  }

  lemma PagesLawful(engine: Engine, history: History, query: NormalizedQuery, at: string -> Tail)
    requires engine.Lawful() && AlwaysDistinct(history) && query.pageSize >= 1
    requires KeepsPlaces(engine, history, query, at)
    ensures Lawful(BeforeOf(engine, query), at, Selected(engine, query), PagesOf(engine, history, query), history,
                   query.pageSize)
  {
    var pages := PagesOf(engine, history, query);
    forall k: nat
      ensures KeepsLaw(BeforeOf(engine, query), at, Selected(engine, query), pages, history, query.pageSize, k)
    {
      var start := StartOf(pages, query.pageSize, k);
      if start.Some? {
        StartGood(engine, history, query, k);
        assert InPlaceIn(engine, history(k), query, at);
        PageKeepsLaw(engine, history(k), query, at, start.value);
      }
    }
  }

  // ---------------------------------------------------------------- every id once

  /** At each of the first k requests that the chain makes, a matching document of this id is in the index. */
  ghost predicate MatchesThroughout(engine: Engine, history: History, query: NormalizedQuery, id: string, k: nat)
    requires engine.Lawful()
  {
    forall j: nat :: j < k && Follow(ServerOf(engine, history, query), j).Some? ==>
      Matching(history(j), Selected(engine, query), id)
  }

  /**
   Every id once. While documents come and go between the requests, but none moves within the sort of the query, the
   `next_cursor` chain delivers no id twice, in sort order, and nothing that was not in the index and matching; and
   when it has ended it has delivered every id that was there and matching at each of its requests.
   */
  lemma ChainDeliversOnce(engine: Engine, history: History, query: NormalizedQuery, at: string -> Tail, k: nat)
    requires engine.Lawful() && AlwaysDistinct(history) && query.pageSize >= 1 && query.cursor == None
    requires KeepsPlaces(engine, history, query, at)
    ensures var server := ServerOf(engine, history, query);
      var hits := Collected(server, k);
      && Ascends(BeforeOf(engine, query), hits)
      && (forall i, j :: 0 <= i < j < |hits| ==> hits[i].doc.id != hits[j].doc.id)
      && (forall h :: h in hits ==> WasMatching(Selected(engine, query), history, h, k))
      && (Follow(server, k).None? ==>
            forall id :: MatchesThroughout(engine, history, query, id, k) ==> Delivered(hits, id))
  {
    var server, pages, encode := ServerOf(engine, history, query), PagesOf(engine, history, query), Encoder();
    var before, matches, size := BeforeOf(engine, query), Selected(engine, query), query.pageSize;
    QueryAnswers(engine, history, query, encode);
    CollectsPages(server, pages, encode, size, k);
    FollowsStarts(server, pages, encode, size, k);
    BeforeStrict(engine, query);
    PagesLawful(engine, history, query, at);
    ReadAscends(before, at, matches, pages, history, size, k);
    ReadInPlace(before, at, matches, pages, history, size, k);
    AscendingDiffer(before, at, Read(pages, size, k));
    if Follow(server, k).None? {
      forall id | MatchesThroughout(engine, history, query, id, k) ensures Delivered(Read(pages, size, k), id) {
        forall j: nat | j < k && StartOf(pages, size, j).Some? ensures Matching(history(j), matches, id) {
          FollowsStarts(server, pages, encode, size, j);
        }
        ReadOrAhead(before, at, matches, pages, history, size, id, k);
      }
    }
  }
}
