/**
 A harvest without tokens: pages of the index are read one behind the other. `pages(i, start)` is what page i
 holds when it starts behind a position; everything here is proved from what one page promises.
 */
module HarvestWalk {
  import opened Wrappers
  import opened Text
  import opened Json
  import opened Cursor
  import opened SearchEngine
  import opened OaiProvider
  import H = OaiHarvest

  type Pages = (nat, Option<Tail>) -> seq<Hit>

  datatype Run = Run(hits: seq<Hit>, end: H.End, pages: nat)

  function LastSort(hits: seq<Hit>): Tail
    requires hits != []
  {
    hits[|hits| - 1].sort
  }

  /** From page i on, starting behind a position. */
  function Walk(pages: Pages, start: Option<Tail>, i: nat, maxPages: nat): Run
    decreases maxPages - i
  {
    if i >= maxPages then Run([], H.TooManyPages, i)
    else
      var hits := pages(i, start);
      if hits == [] && start.None? then Run([], H.Upstream, i + 1)
      else if |hits| < DEFAULT_PAGE_SIZE then Run(hits, H.Complete, i + 1)
      else Joined(hits, Walk(pages, Some(LastSort(hits)), i + 1, maxPages))
  }

  function Joined(hits: seq<Hit>, rest: Run): Run {
    Run(hits + rest.hits, rest.end, rest.pages)
  }

  // ---------------------------------------------------------------- the same over HTTP

  function RequestFor(start: Option<Tail>): H.Params
    requires start.Some? ==> ValidTail(start.value)
  {
    RequestOf("ListRecords", start)
  }

  function RequestOf(verb: string, start: Option<Tail>): H.Params
    requires start.Some? ==> ValidTail(start.value)
  {
    if start.Some? then NextRequest(verb, ResumeAt(start.value)) else FirstRequest(verb, DUBLIN_CORE)
  }

  predicate AllValid(hits: seq<Hit>) {
    forall k :: 0 <= k < |hits| ==> ValidTail(hits[k].sort)
  }

  /** What the harvester receives for a page: its records, and the token of its last hit when it is full. */
  function PageFetch(hits: seq<Hit>, start: Option<Tail>): H.Fetch
    requires AllValid(hits)
  {
    if hits == [] && start.None? then H.ProtocolError("noRecordsMatch")
    else H.Listing(Records(hits), if |hits| == DEFAULT_PAGE_SIZE then ResumeAt(LastSort(hits)) else "")
  }

  /** A position the harvest can be at: printable, and one of those the index hands out. */
  predicate StartOk(good: Tail -> bool, start: Option<Tail>) {
    start.None? || (ValidTail(start.value) && good(start.value))
  }

  predicate ServedAs(fetch: H.Fetch, hits: seq<Hit>, start: Option<Tail>, good: Tail -> bool) {
    && |hits| <= DEFAULT_PAGE_SIZE
    && AllValid(hits)
    && (forall k :: 0 <= k < |hits| ==> good(hits[k].sort))
    && fetch == PageFetch(hits, start)
    && (|hits| == DEFAULT_PAGE_SIZE ==> ResumeAt(LastSort(hits)) != "")
  }

  /** Each request, with or without a token, is answered with the page it asks for. */
  ghost predicate Serves(server: (nat, H.Params) -> H.Fetch, pages: Pages, good: Tail -> bool) {
    forall i: nat, start: Option<Tail> {:trigger pages(i, start)} ::
      StartOk(good, start) ==> ServedAs(server(i, RequestFor(start)), pages(i, start), start, good)
  }

  lemma {:induction false} ParseAppend(parser: Doc -> seq<Value>, a: seq<Doc>, b: seq<Doc>)
    ensures H.ParseAll(parser, a + b) == H.ParseAll(parser, a) + H.ParseAll(parser, b)
  {
    if b == [] {
      assert a + b == a;
    } else {
      assert (a + b)[..|a + b| - 1] == a + b[..|b| - 1];
      ParseAppend(parser, a, b[..|b| - 1]);
    }
  }

  /** What a harvest delivers for the hits of a walk. */
  function Delivery(parser: Doc -> seq<Value>, run: Run): H.Harvest {
    H.Harvest(H.ParseAll(parser, Records(run.hits)), run.end, run.pages)
  }

  lemma DeliveryJoined(parser: Doc -> seq<Value>, hits: seq<Hit>, rest: Run)
    ensures Delivery(parser, Joined(hits, rest)) == H.Prepend(H.ParseAll(parser, Records(hits)), Delivery(parser, rest))
  {
    assert Records(hits + rest.hits) == Records(hits) + Records(rest.hits);
    ParseAppend(parser, Records(hits), Records(rest.hits));
  }

  lemma CrawlStops(server: (nat, H.Params) -> H.Fetch, parser: Doc -> seq<Value>, hits: seq<Hit>, start: Option<Tail>,
                   i: nat, maxPages: nat)
    requires i < maxPages && (start.Some? ==> ValidTail(start.value)) && |hits| < DEFAULT_PAGE_SIZE && AllValid(hits)
    requires server(i, RequestFor(start)) == PageFetch(hits, start)
    ensures H.Crawl(server, parser, RequestFor(start), i, maxPages)
      == Delivery(parser, Run(hits, if hits == [] && start.None? then H.Upstream else H.Complete, i + 1))
  {
    assert Records([]) == [];
  }

  lemma CrawlGoesOn(server: (nat, H.Params) -> H.Fetch, parser: Doc -> seq<Value>, hits: seq<Hit>, start: Option<Tail>,
                    i: nat, maxPages: nat)
    requires i < maxPages && (start.Some? ==> ValidTail(start.value)) && |hits| == DEFAULT_PAGE_SIZE && AllValid(hits)
    requires server(i, RequestFor(start)) == PageFetch(hits, start) && ResumeAt(LastSort(hits)) != ""
    ensures H.Crawl(server, parser, RequestFor(start), i, maxPages)
      == H.Prepend(H.ParseAll(parser, Records(hits)),
                   H.Crawl(server, parser, RequestFor(Some(LastSort(hits))), i + 1, maxPages))
  {
    H.CrawlOn(server, parser, RequestFor(start), i, maxPages, Records(hits), ResumeAt(LastSort(hits)));
  }

  lemma WalkGoesOn(pages: Pages, start: Option<Tail>, i: nat, maxPages: nat)
    requires i < maxPages && |pages(i, start)| >= DEFAULT_PAGE_SIZE
    ensures Walk(pages, start, i, maxPages)
      == Joined(pages(i, start), Walk(pages, Some(LastSort(pages(i, start))), i + 1, maxPages))
  {
  }

  lemma WalkStops(pages: Pages, start: Option<Tail>, i: nat, maxPages: nat)
    requires i < maxPages && |pages(i, start)| < DEFAULT_PAGE_SIZE
    ensures var hits := pages(i, start);
      Walk(pages, start, i, maxPages) == Run(hits, if hits == [] && start.None? then H.Upstream else H.Complete, i + 1)
  {
  }

  /** A full page, and a rest that is delivered as it is walked. */
  lemma CrawlJoins(server: (nat, H.Params) -> H.Fetch, parser: Doc -> seq<Value>, hits: seq<Hit>, start: Option<Tail>,
                   i: nat, maxPages: nat, rest: Run)
    requires i < maxPages && (start.Some? ==> ValidTail(start.value)) && |hits| == DEFAULT_PAGE_SIZE && AllValid(hits)
    requires server(i, RequestFor(start)) == PageFetch(hits, start) && ResumeAt(LastSort(hits)) != ""
    requires H.Crawl(server, parser, RequestFor(Some(LastSort(hits))), i + 1, maxPages) == Delivery(parser, rest)
    ensures H.Crawl(server, parser, RequestFor(start), i, maxPages) == Delivery(parser, Joined(hits, rest))
  {
    CrawlGoesOn(server, parser, hits, start, i, maxPages);
    DeliveryJoined(parser, hits, rest);
  }

  lemma CrawlAtCeiling(server: (nat, H.Params) -> H.Fetch, pages: Pages, parser: Doc -> seq<Value>, params: H.Params,
                       start: Option<Tail>, i: nat, maxPages: nat)
    requires i >= maxPages
    ensures H.Crawl(server, parser, params, i, maxPages) == Delivery(parser, Walk(pages, start, i, maxPages))
  {
    assert Records([]) == [];
  }

  /** The harvest over HTTP, tokens and all, delivers what the walk over positions does. */
  lemma {:induction false} CrawlIsWalk(server: (nat, H.Params) -> H.Fetch, pages: Pages, good: Tail -> bool,
                                       parser: Doc -> seq<Value>, start: Option<Tail>, i: nat, maxPages: nat)
    requires Serves(server, pages, good) && StartOk(good, start)
    ensures H.Crawl(server, parser, RequestFor(start), i, maxPages) == Delivery(parser, Walk(pages, start, i, maxPages))
    decreases maxPages - i
  {
    var hits := pages(i, start);
    assert ServedAs(server(i, RequestFor(start)), hits, start, good);
    if i >= maxPages {
      CrawlAtCeiling(server, pages, parser, RequestFor(start), start, i, maxPages);
    } else if |hits| < DEFAULT_PAGE_SIZE {
      CrawlStops(server, parser, hits, start, i, maxPages);
      WalkStops(pages, start, i, maxPages);
    } else {
      var next := Some(LastSort(hits));
      CrawlIsWalk(server, pages, good, parser, next, i + 1, maxPages);
      CrawlJoins(server, parser, hits, start, i, maxPages, Walk(pages, next, i + 1, maxPages));
      WalkGoesOn(pages, start, i, maxPages);
    }
  }

  // ---------------------------------------------------------------- exactly once

  predicate HasId(index: Index, id: string) {
    exists k :: 0 <= k < |index| && index[k].id == id
  }

  predicate IdsAscend(hits: seq<Hit>) {
    forall j, k :: 0 <= j < k < |hits| ==> Less(hits[j].doc.id, hits[k].doc.id)
  }

  /** The last delivered id, when the harvest is under way. */
  predicate Behind(last: Option<string>, id: string) {
    last.Some? ==> Less(last.value, id)
  }

  predicate AllBehind(last: Option<string>, hits: seq<Hit>) {
    forall k :: 0 <= k < |hits| ==> Behind(last, hits[k].doc.id)
  }

  predicate AllIn(index: Index, hits: seq<Hit>) {
    forall k :: 0 <= k < |hits| ==> hits[k].doc in index
  }

  function LastId(hits: seq<Hit>): string
    requires hits != []
  {
    hits[|hits| - 1].doc.id
  }

  /**
   What one page behind `last` promises: records of the index, by ascending id, behind that id; and a record it
   leaves out lies behind its last one, and then the page is full.
   */
  ghost predicate PageLaw(hits: seq<Hit>, index: Index, last: Option<string>) {
    && IdsAscend(hits) && AllBehind(last, hits) && AllIn(index, hits)
    && forall id :: HasId(index, id) && Behind(last, id) ==>
         Delivered(hits, id) || (|hits| == DEFAULT_PAGE_SIZE && Less(LastId(hits), id))
  }

  function IdOf(idOf: Tail -> string, start: Option<Tail>): Option<string> {
    if start.Some? then Some(idOf(start.value)) else None
  }

  /** The position of a hit tells its id. */
  predicate Tells(hits: seq<Hit>, good: Tail -> bool, idOf: Tail -> string) {
    forall k :: 0 <= k < |hits| ==> good(hits[k].sort) && idOf(hits[k].sort) == hits[k].doc.id
  }

  ghost predicate Lawful(pages: Pages, history: History, good: Tail -> bool, idOf: Tail -> string) {
    forall i: nat, start: Option<Tail> {:trigger pages(i, start)} :: (start.Some? ==> good(start.value)) ==>
      PageLaw(pages(i, start), history(i), IdOf(idOf, start)) && Tells(pages(i, start), good, idOf)
  }

  lemma JoinAscending(a: seq<Hit>, b: seq<Hit>, last: Option<string>)
    requires a != [] && IdsAscend(a) && AllBehind(last, a) && IdsAscend(b) && AllBehind(Some(LastId(a)), b)
    ensures IdsAscend(a + b) && AllBehind(last, a + b)
  {
    forall j, k | 0 <= j < |a| && 0 <= k < |b| ensures Less(a[j].doc.id, b[k].doc.id) {
      if j < |a| - 1 {
        LessTransitive(a[j].doc.id, LastId(a), b[k].doc.id);
      }
    }
    if last.Some? {
      forall k | 0 <= k < |b| ensures Less(last.value, b[k].doc.id) {
        LessTransitive(last.value, LastId(a), b[k].doc.id);
      }
    }
  }

  /** The whole walk delivers by ascending id, from its start on. */
  lemma {:induction false} WalkAscends(pages: Pages, history: History, good: Tail -> bool, idOf: Tail -> string,
                                       start: Option<Tail>, i: nat, maxPages: nat)
    requires Lawful(pages, history, good, idOf) && (start.Some? ==> good(start.value))
    ensures IdsAscend(Walk(pages, start, i, maxPages).hits)
    ensures AllBehind(IdOf(idOf, start), Walk(pages, start, i, maxPages).hits)
    decreases maxPages - i
  {
    var hits := pages(i, start);
    assert PageLaw(hits, history(i), IdOf(idOf, start)) && Tells(hits, good, idOf);
    if i < maxPages && |hits| >= DEFAULT_PAGE_SIZE {
      var next := Some(LastSort(hits));
      WalkAscends(pages, history, good, idOf, next, i + 1, maxPages);
      JoinAscending(hits, Walk(pages, next, i + 1, maxPages).hits, IdOf(idOf, start));
    }
  }

  predicate Comes(history: History, h: Hit, j: nat) {
    h.doc in history(j)
  }

  ghost predicate WasThere(history: History, h: Hit) {
    exists j: nat :: Comes(history, h, j)
  }

  /** Nothing is delivered that was not in the index when some page was read. */
  lemma {:induction false} WalkDelivers(pages: Pages, history: History, good: Tail -> bool, idOf: Tail -> string,
                                        start: Option<Tail>, i: nat, maxPages: nat, k: nat)
    requires Lawful(pages, history, good, idOf) && (start.Some? ==> good(start.value))
    requires k < |Walk(pages, start, i, maxPages).hits|
    ensures WasThere(history, Walk(pages, start, i, maxPages).hits[k])
    decreases maxPages - i
  {
    var hits := pages(i, start);
    assert PageLaw(hits, history(i), IdOf(idOf, start)) && Tells(hits, good, idOf);
    if k < |hits| {
      assert Walk(pages, start, i, maxPages).hits[k] == hits[k];
      assert Comes(history, hits[k], i);
    } else {
      var next := Some(LastSort(hits));
      WalkDelivers(pages, history, good, idOf, next, i + 1, maxPages, k - |hits|);
      assert Walk(pages, start, i, maxPages).hits[k] == Walk(pages, next, i + 1, maxPages).hits[k - |hits|];
    }
  }

  /** A record of this id is there whenever one of these pages is read. */
  ghost predicate PresentBetween(history: History, id: string, i: nat, pages: nat) {
    forall j: nat :: i <= j < pages ==> HasId(history(j), id)
  }

  lemma {:induction false} PagesAhead(pages: Pages, start: Option<Tail>, i: nat, maxPages: nat)
    ensures Walk(pages, start, i, maxPages).pages >= (if i < maxPages then i + 1 else i)
    decreases maxPages - i
  {
    if i < maxPages && |pages(i, start)| >= DEFAULT_PAGE_SIZE {
      PagesAhead(pages, Some(LastSort(pages(i, start))), i + 1, maxPages);
    }
  }

  /** A record that stays, and lies behind the start, is delivered unless the harvest is cut short first. */
  lemma {:induction false} WalkComplete(pages: Pages, history: History, good: Tail -> bool, idOf: Tail -> string,
                                        start: Option<Tail>, i: nat, maxPages: nat, id: string)
    requires Lawful(pages, history, good, idOf) && (start.Some? ==> good(start.value))
    requires Behind(IdOf(idOf, start), id)
    requires Walk(pages, start, i, maxPages).end == H.Complete
    requires PresentBetween(history, id, i, Walk(pages, start, i, maxPages).pages)
    ensures Delivered(Walk(pages, start, i, maxPages).hits, id)
    decreases maxPages - i
  {
    var hits := pages(i, start);
    assert PageLaw(hits, history(i), IdOf(idOf, start)) && Tells(hits, good, idOf);
    PagesAhead(pages, start, i, maxPages);
    assert HasId(history(i), id);
    if |hits| >= DEFAULT_PAGE_SIZE {
      var next := Some(LastSort(hits));
      var rest := Walk(pages, next, i + 1, maxPages);
      if !Delivered(hits, id) {
        WalkComplete(pages, history, good, idOf, next, i + 1, maxPages, id);
      }
      DeliveredJoin(hits, rest.hits, id);
    }
  }

  /**
   What a walk from the beginning delivers: no id twice, nothing that was never there, and, when it ends without
   an error, every record that was there whenever a page was read.
   */
  ghost predicate DeliversOnce(history: History, walk: Run) {
    && (forall i, j :: 0 <= i < j < |walk.hits| ==> walk.hits[i].doc.id != walk.hits[j].doc.id)
    && (forall k :: 0 <= k < |walk.hits| ==> WasThere(history, walk.hits[k]))
    && (walk.end == H.Complete ==>
          forall id :: PresentBetween(history, id, 0, walk.pages) ==> Delivered(walk.hits, id))
  }

  lemma AscendingDiffer(hits: seq<Hit>)
    requires IdsAscend(hits)
    ensures forall i, j :: 0 <= i < j < |hits| ==> hits[i].doc.id != hits[j].doc.id
  {
    forall i, j | 0 <= i < j < |hits| ensures hits[i].doc.id != hits[j].doc.id {
      LessIrreflexive(hits[i].doc.id);
    }
  }

  lemma WalkDeliversOnce(pages: Pages, history: History, good: Tail -> bool, idOf: Tail -> string, maxPages: nat)
    requires Lawful(pages, history, good, idOf)
    ensures DeliversOnce(history, Walk(pages, None, 0, maxPages))
  {
    var walk := Walk(pages, None, 0, maxPages);
    WalkAscends(pages, history, good, idOf, None, 0, maxPages);
    AscendingDiffer(walk.hits);
    forall k | 0 <= k < |walk.hits| ensures WasThere(history, walk.hits[k]) {
      WalkDelivers(pages, history, good, idOf, None, 0, maxPages, k);
    }
    if walk.end == H.Complete {
      forall id | PresentBetween(history, id, 0, walk.pages) ensures Delivered(walk.hits, id) {
        WalkComplete(pages, history, good, idOf, None, 0, maxPages, id);
      }
    }
  }

  // ---------------------------------------------------------------- an index that does not change

  /** Where the page after k full pages starts. */
  function StartAt(ranked: seq<Hit>, k: nat): Option<Tail>
    requires DEFAULT_PAGE_SIZE * k <= |ranked|
  {
    if k == 0 then None else Some(ranked[DEFAULT_PAGE_SIZE * k - 1].sort)
  }

  /** Every page is the window of one ranking that comes next. */
  ghost predicate Frozen(pages: Pages, ranked: seq<Hit>) {
    forall k: nat {:trigger StartAt(ranked, k)} :: DEFAULT_PAGE_SIZE * k <= |ranked| ==>
      pages(k, StartAt(ranked, k)) == Window(ranked, DEFAULT_PAGE_SIZE * k, DEFAULT_PAGE_SIZE)
  }

  /** What a harvest of n records in all has delivered when it ends, given its ceiling of pages. */
  function Reach(n: nat, maxPages: nat): nat {
    if n < DEFAULT_PAGE_SIZE * maxPages then n else DEFAULT_PAGE_SIZE * maxPages
  }

  function FrozenEnd(n: nat, maxPages: nat): H.End {
    if n < DEFAULT_PAGE_SIZE * maxPages then H.Complete else H.TooManyPages
  }

  function FrozenPages(n: nat, maxPages: nat): nat {
    if n < DEFAULT_PAGE_SIZE * maxPages then n / DEFAULT_PAGE_SIZE + 1 else maxPages
  }

  /** What is left to deliver after k full pages. */
  function FrozenRun(ranked: seq<Hit>, k: nat, maxPages: nat): Run
    requires k <= maxPages && DEFAULT_PAGE_SIZE * k <= |ranked|
  {
    Run(ranked[DEFAULT_PAGE_SIZE * k..Reach(|ranked|, maxPages)], FrozenEnd(|ranked|, maxPages),
        FrozenPages(|ranked|, maxPages))
  }

  lemma FrozenRunStep(ranked: seq<Hit>, k: nat, maxPages: nat)
    requires k < maxPages && DEFAULT_PAGE_SIZE * (k + 1) <= |ranked|
    ensures FrozenRun(ranked, k, maxPages)
      == Joined(ranked[DEFAULT_PAGE_SIZE * k..DEFAULT_PAGE_SIZE * (k + 1)], FrozenRun(ranked, k + 1, maxPages))
  {
    SliceJoin(ranked, DEFAULT_PAGE_SIZE * k, DEFAULT_PAGE_SIZE * (k + 1), Reach(|ranked|, maxPages));
  }

  lemma SliceJoin(hits: seq<Hit>, a: nat, b: nat, c: nat)
    requires a <= b <= c <= |hits|
    ensures hits[a..b] + hits[b..c] == hits[a..c]
  {
  }

  lemma FullWindow(ranked: seq<Hit>, k: nat)
    requires DEFAULT_PAGE_SIZE * (k + 1) <= |ranked|
    ensures var hits := Window(ranked, DEFAULT_PAGE_SIZE * k, DEFAULT_PAGE_SIZE);
      && hits == ranked[DEFAULT_PAGE_SIZE * k..DEFAULT_PAGE_SIZE * (k + 1)] && |hits| == DEFAULT_PAGE_SIZE
      && Some(LastSort(hits)) == StartAt(ranked, k + 1)
  {
  }

  lemma {:induction false} FrozenWalk(pages: Pages, ranked: seq<Hit>, k: nat, maxPages: nat)
    requires Frozen(pages, ranked) && ranked != [] && k <= maxPages && DEFAULT_PAGE_SIZE * k <= |ranked|
    ensures Walk(pages, StartAt(ranked, k), k, maxPages) == FrozenRun(ranked, k, maxPages)
    decreases maxPages - k
  {
    var hits := Window(ranked, DEFAULT_PAGE_SIZE * k, DEFAULT_PAGE_SIZE);
    assert pages(k, StartAt(ranked, k)) == hits;
    if k < maxPages && DEFAULT_PAGE_SIZE * (k + 1) <= |ranked| {
      FullWindow(ranked, k);
      FrozenWalk(pages, ranked, k + 1, maxPages);
      FrozenRunStep(ranked, k, maxPages);
    } else if k < maxPages {
      assert hits == ranked[DEFAULT_PAGE_SIZE * k..];
    }
  }
}
