/**
 The provider and the harvester together: one harvest reads the index in pages while the index may be
 changed arbitrarily between any two of them.
 */
module HarvestProtocol {
  import opened Wrappers
  import opened Text
  import opened Json
  import opened Cursor
  import opened SearchEngine
  import opened OaiProvider
  import opened Gathering
  import opened HarvestWalk
  import H = OaiHarvest

  /** What a client makes of the reply to its list request: a 503 is unreachable, the token text is stripped. */
  function AsFetch(reply: Reply): H.Fetch {
    match reply
    case Error(code) => H.ProtocolError(code)
    case Listing(records, _, token, _) => H.Listing(records, if token.Some? then Strip(token.value) else "")
    case Record(_) => H.NoListing
    case OtherVerb(_) => H.NoListing
    case Down => H.Unreachable
  }

  /** The provider as a server: the i-th request meets the i-th state of the index. */
  function Server(engine: Engine, history: History): (nat, H.Params) -> H.Fetch
    requires engine.Lawful()
  {
    (i: nat, params: H.Params) => AsFetch(Handle(engine, history(i), params))
  }

  /** The same to a client that makes the same requests with another verb. */
  function ServerFor(engine: Engine, history: History, verb: string): (nat, H.Params) -> H.Fetch
    requires engine.Lawful()
  {
    (i: nat, params: H.Params) => AsFetch(Handle(engine, history(i), params["verb" := verb]))
  }

  /** The pages the provider cuts from the index. */
  function PagesOf(engine: Engine, history: History): Pages {
    (i: nat, start: Option<Tail>) =>
      if start.Some? && !engine.IsKey(start.value) then [] else PageHits(engine, history(i), start)
  }

  // ---------------------------------------------------------------- the provider serves pages

  lemma RequestServed(engine: Engine, index: Index, verb: string, start: Option<Tail>)
    requires engine.Lawful() && IsListVerb(verb)
    requires start.Some? ==> IsResumable(engine, start.value) && ValidTail(start.value)
    ensures Handle(engine, index, RequestOf(verb, start))
      == PageReply(engine, index, start, verb == "ListIdentifiers")
  {
    if start.Some? {
      ResumedPage(engine, index, verb, start.value);
    } else {
      FirstPage(engine, index, verb);
    }
  }

  predicate PageShape(engine: Engine, hits: seq<Hit>) {
    |hits| <= DEFAULT_PAGE_SIZE && AllValid(hits) && forall k :: 0 <= k < |hits| ==> IsResumable(engine, hits[k].sort)
  }

  lemma PageHitsShape(engine: Engine, index: Index, start: Option<Tail>)
    requires engine.Lawful() && (start.Some? ==> engine.IsKey(start.value))
    ensures PageShape(engine, PageHits(engine, index, start))
  {
    var hits := PageHits(engine, index, start);
    HitsValid(engine, index, start);
    forall k | 0 <= k < |hits| ensures ValidTail(hits[k].sort) && IsResumable(engine, hits[k].sort) {
      assert hits[k] in hits;
    }
  }

  lemma ListingFetched(hits: seq<Hit>, start: Option<Tail>, headersOnly: bool, total: nat)
    requires AllValid(hits) && (hits != [] || start.Some?)
    ensures var token := if |hits| == DEFAULT_PAGE_SIZE then Some(ResumeAt(LastSort(hits))) else None;
      AsFetch(Listing(Records(hits), headersOnly, token, total)) == PageFetch(hits, start)
  {
    if |hits| == DEFAULT_PAGE_SIZE {
      TokenIsPlain(LastSort(hits));
    }
  }

  lemma ReplyFetched(engine: Engine, index: Index, start: Option<Tail>, headersOnly: bool)
    requires engine.Lawful() && (start.Some? ==> engine.IsKey(start.value))
    requires AllValid(PageHits(engine, index, start))
    ensures AsFetch(PageReply(engine, index, start, headersOnly)) == PageFetch(PageHits(engine, index, start), start)
  {
    var hits := PageHits(engine, index, start);
    if hits != [] || start.Some? {
      ListingFetched(hits, start, headersOnly, |HarvestOrder(engine, index)|);
    }
  }

  lemma PageServed(engine: Engine, index: Index, verb: string, start: Option<Tail>)
    requires engine.Lawful() && IsListVerb(verb)
    requires start.Some? ==> IsResumable(engine, start.value) && ValidTail(start.value)
    ensures ServedAs(AsFetch(Handle(engine, index, RequestOf(verb, start))), PageHits(engine, index, start), start,
                     t => IsResumable(engine, t))
  {
    var hits := PageHits(engine, index, start);
    PageHitsShape(engine, index, start);
    RequestServed(engine, index, verb, start);
    ReplyFetched(engine, index, start, verb == "ListIdentifiers");
    if |hits| == DEFAULT_PAGE_SIZE {
      TokenIsPlain(LastSort(hits));
    }
  }

  lemma ProviderServes(engine: Engine, history: History)
    requires engine.Lawful()
    ensures Serves(Server(engine, history), PagesOf(engine, history), t => IsResumable(engine, t))
  {
    var server, pages, good := Server(engine, history), PagesOf(engine, history), (t: Tail) => IsResumable(engine, t);
    forall i: nat, start: Option<Tail> | StartOk(good, start)
      ensures ServedAs(server(i, RequestFor(start)), pages(i, start), start, good)
    {
      PageServed(engine, history(i), "ListRecords", start);
    }
  }

  lemma OtherVerb(verb: string, start: Option<Tail>)
    requires start.Some? ==> ValidTail(start.value)
    ensures RequestFor(start)["verb" := verb] == RequestOf(verb, start)
  {
  }

  lemma ProviderServesFor(engine: Engine, history: History, verb: string)
    requires engine.Lawful() && IsListVerb(verb)
    ensures Serves(ServerFor(engine, history, verb), PagesOf(engine, history), t => IsResumable(engine, t))
  {
    var server, pages := ServerFor(engine, history, verb), PagesOf(engine, history);
    var good := (t: Tail) => IsResumable(engine, t);
    forall i: nat, start: Option<Tail> | StartOk(good, start)
      ensures ServedAs(server(i, RequestFor(start)), pages(i, start), start, good)
    {
      OtherVerb(verb, start);
      PageServed(engine, history(i), verb, start);
    }
  }

  // ---------------------------------------------------------------- what a page promises

  /** A position of the harvest: all documents score alike under match_all, so it is an id. */
  ghost predicate AtScore(engine: Engine, t: Tail) {
    engine.IsKey(t) && forall d: Doc :: t[0] == engine.key([MatchAll], "_score", d)
  }

  function TailId(t: Tail): string {
    if |t| == 2 && t[1].Str? then t[1].s else ""
  }

  lemma BeforeById(engine: Engine, s: Tail, t: Tail, d: Doc)
    requires engine.Lawful() && AtScore(engine, s) && AtScore(engine, t)
    ensures engine.Before(true, s, t) <==> Less(TailId(s), TailId(t))
  {
    assert s[0] == engine.key([MatchAll], "_score", d) && t[0] == engine.key([MatchAll], "_score", d);
  }

  lemma HitAtScore(engine: Engine, index: Index, h: Hit)
    requires engine.Lawful() && h in HarvestOrder(engine, index)
    ensures AtScore(engine, h.sort) && TailId(h.sort) == h.doc.id && h.doc in index
  {
    assert h == engine.HitOf(HarvestBody(From(0)), h.doc);
  }

  /** What the page is cut from: the whole ranking, or what lies behind the start. */
  function Candidates(engine: Engine, index: Index, start: Option<Tail>): seq<Hit>
    requires start.Some? ==> engine.IsKey(start.value)
  {
    if start.Some? then engine.Beyond(true, start.value, HarvestOrder(engine, index)) else HarvestOrder(engine, index)
  }

  lemma CandidatesSorted(engine: Engine, index: Index, start: Option<Tail>)
    requires engine.Lawful() && DistinctIds(index) && (start.Some? ==> engine.IsKey(start.value))
    ensures engine.Sorted(true, Candidates(engine, index, start))
  {
    engine.RankedSorted(HarvestBody(From(0)), index);
    if start.Some? {
      engine.BeyondKeepsOrder(true, start.value, HarvestOrder(engine, index));
    }
  }

  lemma CandidateLaw(engine: Engine, index: Index, start: Option<Tail>, h: Hit)
    requires engine.Lawful() && (start.Some? ==> AtScore(engine, start.value))
    requires h in Candidates(engine, index, start)
    ensures AtScore(engine, h.sort) && TailId(h.sort) == h.doc.id && h.doc in index
    ensures start.Some? ==> Less(TailId(start.value), h.doc.id)
  {
    HitAtScore(engine, index, h);
    if start.Some? {
      BeforeById(engine, start.value, h.sort, h.doc);
    }
  }

  /** The candidates are the records behind the start, by ascending id. */
  lemma CandidatesAscend(engine: Engine, index: Index, start: Option<Tail>)
    requires engine.Lawful() && DistinctIds(index) && (start.Some? ==> AtScore(engine, start.value))
    ensures IdsAscend(Candidates(engine, index, start))
  {
    var all := Candidates(engine, index, start);
    CandidatesSorted(engine, index, start);
    forall j, k | 0 <= j < k < |all| ensures Less(all[j].doc.id, all[k].doc.id) {
      assert all[j] in all && all[k] in all;
      CandidateLaw(engine, index, start, all[j]);
      CandidateLaw(engine, index, start, all[k]);
      BeforeById(engine, all[j].sort, all[k].sort, all[j].doc);
    }
  }

  lemma PresentIsCandidate(engine: Engine, index: Index, start: Option<Tail>, id: string)
    requires engine.Lawful() && (start.Some? ==> AtScore(engine, start.value))
    requires HasId(index, id) && (start.Some? ==> Less(TailId(start.value), id))
    ensures Delivered(Candidates(engine, index, start), id)
  {
    var k :| 0 <= k < |index| && index[k].id == id;
    var h := engine.HitOf(HarvestBody(From(0)), index[k]);
    assert index[k] in index;
    engine.RankedComplete(HarvestBody(From(0)), index);
    HitAtScore(engine, index, h);
    if start.Some? {
      BeforeById(engine, start.value, h.sort, h.doc);
    }
    Find(Candidates(engine, index, start), h);
  }

  /** The first hundred of an ascending list: what they leave out comes after them. */
  lemma FirstHundred(all: seq<Hit>, id: string)
    requires IdsAscend(all) && Delivered(all, id)
    ensures var hits := Window(all, 0, DEFAULT_PAGE_SIZE);
      Delivered(hits, id) || (|hits| == DEFAULT_PAGE_SIZE && Less(LastId(hits), id))
  {
    var hits := Window(all, 0, DEFAULT_PAGE_SIZE);
    var k :| 0 <= k < |all| && all[k].doc.id == id;
    if k < |hits| {
      assert hits[k].doc.id == id;
    } else {
      assert Less(all[DEFAULT_PAGE_SIZE - 1].doc.id, all[k].doc.id);
    }
  }

  lemma PageKeepsLaw(engine: Engine, index: Index, start: Option<Tail>, last: Option<string>, good: Tail -> bool)
    requires engine.Lawful() && DistinctIds(index) && (start.Some? ==> AtScore(engine, start.value))
    requires last == if start.Some? then Some(TailId(start.value)) else None
    requires forall t :: AtScore(engine, t) ==> good(t)
    ensures PageLaw(PageHits(engine, index, start), index, last)
    ensures Tells(PageHits(engine, index, start), good, t => TailId(t))
  {
    var all := Candidates(engine, index, start);
    var hits := Window(all, 0, DEFAULT_PAGE_SIZE);
    assert hits == PageHits(engine, index, start);
    CandidatesAscend(engine, index, start);
    WindowPart(all, DEFAULT_PAGE_SIZE);
    forall k | 0 <= k < |hits|
      ensures good(hits[k].sort) && TailId(hits[k].sort) == hits[k].doc.id && hits[k].doc in index
      ensures Behind(last, hits[k].doc.id)
    {
      assert all[k] in all;
      CandidateLaw(engine, index, start, all[k]);
    }
    forall id | HasId(index, id) && Behind(last, id)
      ensures Delivered(hits, id) || (|hits| == DEFAULT_PAGE_SIZE && Less(LastId(hits), id))
    {
      PresentIsCandidate(engine, index, start, id);
      FirstHundred(all, id);
    }
  }

  lemma PagesLawful(engine: Engine, history: History, good: Tail -> bool)
    requires engine.Lawful() && AlwaysDistinct(history)
    requires forall t :: good(t) <==> AtScore(engine, t)
    ensures HarvestWalk.Lawful(PagesOf(engine, history), history, good, t => TailId(t))
  {
    var pages, idOf := PagesOf(engine, history), (t: Tail) => TailId(t);
    forall i: nat, start: Option<Tail> | start.Some? ==> good(start.value)
      ensures PageLaw(pages(i, start), history(i), IdOf(idOf, start)) && Tells(pages(i, start), good, idOf)
    {
      PageKeepsLaw(engine, history(i), start, IdOf(idOf, start), good);
    }
  }

  /** The harvest is the walk over the provider's pages. */
  lemma HarvestIsWalk(engine: Engine, history: History, server: (nat, H.Params) -> H.Fetch,
                      parser: Doc -> seq<Value>, maxPages: nat)
    requires Serves(server, PagesOf(engine, history), t => IsResumable(engine, t))
    ensures H.Crawl(server, parser, H.First(DUBLIN_CORE, None), 0, maxPages)
      == Delivery(parser, Walk(PagesOf(engine, history), None, 0, maxPages))
  {
    assert H.First(DUBLIN_CORE, None) == RequestFor(None);
    CrawlIsWalk(server, PagesOf(engine, history), t => IsResumable(engine, t), parser, None, 0, maxPages);
  }

  lemma ProviderDeliversOnce(engine: Engine, history: History, maxPages: nat)
    requires engine.Lawful() && AlwaysDistinct(history)
    ensures DeliversOnce(history, Walk(PagesOf(engine, history), None, 0, maxPages))
  {
    ghost var good: Tail -> bool := t => AtScore(engine, t);
    PagesLawful(engine, history, good);
    WalkDeliversOnce(PagesOf(engine, history), history, good, t => TailId(t), maxPages);
  }

  /** Every document the parser makes of the record of every hit, in order. */
  ghost predicate DocsOfHits(parser: Doc -> seq<Value>, hits: seq<Hit>, docs: seq<Value>) {
    Gathers(docs, seq(|hits|, k requires 0 <= k < |hits| => parser(hits[k].doc)))
  }

  lemma DeliveryDocs(parser: Doc -> seq<Value>, run: Run)
    ensures DocsOfHits(parser, run.hits, Delivery(parser, run).docs)
  {
    var hits, records := run.hits, Records(run.hits);
    H.ParsesAll(parser, records);
    assert seq(|records|, k requires 0 <= k < |records| => parser(records[k]))
        == seq(|hits|, k requires 0 <= k < |hits| => parser(hits[k].doc));
  }

  /**
   The documents harvested are all those of some hits: no two of one id, each of a record that was in the index when a
   page was read, and, when the harvest ends without an error, one for every id that was there whenever a page was read.
   */
  ghost predicate HarvestsOnce(history: History, parser: Doc -> seq<Value>, crawl: H.Harvest, hits: seq<Hit>) {
    && DocsOfHits(parser, hits, crawl.docs)
    && (forall i, j :: 0 <= i < j < |hits| ==> hits[i].doc.id != hits[j].doc.id)
    && (forall k :: 0 <= k < |hits| ==> WasThere(history, hits[k]))
    && (crawl.end == H.Complete ==> forall id :: PresentBetween(history, id, 0, crawl.pages) ==> Delivered(hits, id))
  }

  ghost predicate IsOnceHarvest(history: History, parser: Doc -> seq<Value>, crawl: H.Harvest) {
    exists hits :: HarvestsOnce(history, parser, crawl, hits)
  }

  lemma ServedOnce(engine: Engine, history: History, server: (nat, H.Params) -> H.Fetch, parser: Doc -> seq<Value>,
                   maxPages: nat)
    requires engine.Lawful() && AlwaysDistinct(history)
    requires Serves(server, PagesOf(engine, history), t => IsResumable(engine, t))
    ensures IsOnceHarvest(history, parser, H.Crawl(server, parser, H.First(DUBLIN_CORE, None), 0, maxPages))
  {
    var walk := Walk(PagesOf(engine, history), None, 0, maxPages);
    HarvestIsWalk(engine, history, server, parser, maxPages);
    ProviderDeliversOnce(engine, history, maxPages);
    DeliveryDocs(parser, walk);
    assert HarvestsOnce(history, parser, Delivery(parser, walk), walk.hits);
  }

  /**
   Exactly once. However the index changes between pages, the harvest delivers no record twice and none that was
   never there, each with all its documents; and when it ends without an error it has delivered every record that was
   there throughout.
   */
  lemma ExactlyOnce(engine: Engine, history: History, parser: Doc -> seq<Value>, maxPages: nat)
    requires engine.Lawful() && AlwaysDistinct(history)
    ensures IsOnceHarvest(history, parser,
                          H.Crawl(Server(engine, history), parser, H.First("oai_dc", None), 0, maxPages))
  {
    ProviderServes(engine, history);
    ServedOnce(engine, history, Server(engine, history), parser, maxPages);
  }

  /** The same for a client that lists identifiers: `parser` is what it makes of a header. */
  lemma IdentifiersOnce(engine: Engine, history: History, parser: Doc -> seq<Value>, maxPages: nat)
    requires engine.Lawful() && AlwaysDistinct(history)
    ensures IsOnceHarvest(history, parser,
                          H.Crawl(ServerFor(engine, history, "ListIdentifiers"), parser, H.First("oai_dc", None), 0,
                                  maxPages))
  {
    ProviderServesFor(engine, history, "ListIdentifiers");
    ServedOnce(engine, history, ServerFor(engine, history, "ListIdentifiers"), parser, maxPages);
  }

  // ---------------------------------------------------------------- an index that does not change

  /** Behind a hit in harvest order comes the window that starts right after it. */
  lemma PageBehind(engine: Engine, index: Index, from: nat)
    requires engine.Lawful() && DistinctIds(index) && 1 <= from <= |HarvestOrder(engine, index)|
    ensures var ranked := HarvestOrder(engine, index);
      && engine.IsKey(ranked[from - 1].sort)
      && PageHits(engine, index, Some(ranked[from - 1].sort)) == Window(ranked, from, DEFAULT_PAGE_SIZE)
  {
    BeyondHit(engine, index, from - 1);
    WindowOfRest(HarvestOrder(engine, index), from, DEFAULT_PAGE_SIZE);
  }

  lemma BeyondHit(engine: Engine, index: Index, p: nat)
    requires engine.Lawful() && DistinctIds(index) && p < |HarvestOrder(engine, index)|
    ensures var ranked := HarvestOrder(engine, index);
      engine.IsKey(ranked[p].sort) && engine.Beyond(true, ranked[p].sort, ranked) == ranked[p + 1..]
  {
    var ranked := HarvestOrder(engine, index);
    engine.RankedSorted(HarvestBody(From(0)), index);
    assert ranked[p] in ranked;
    engine.BeyondSorted(true, ranked, p);
  }

  lemma PageFrozen(engine: Engine, index: Index, k: nat, from: nat)
    requires engine.Lawful() && DistinctIds(index) && from == DEFAULT_PAGE_SIZE * k <= |HarvestOrder(engine, index)|
    ensures var ranked := HarvestOrder(engine, index);
      && (StartAt(ranked, k).Some? ==> engine.IsKey(StartAt(ranked, k).value))
      && PageHits(engine, index, StartAt(ranked, k)) == Window(ranked, from, DEFAULT_PAGE_SIZE)
  {
    StartIs(HarvestOrder(engine, index), k, from);
    PageFrom(engine, index, from);
  }

  lemma PageFrom(engine: Engine, index: Index, from: nat)
    requires engine.Lawful() && DistinctIds(index) && from <= |HarvestOrder(engine, index)|
    ensures var ranked := HarvestOrder(engine, index);
      var start := if from == 0 then None else Some(ranked[from - 1].sort);
      && (start.Some? ==> engine.IsKey(start.value))
      && PageHits(engine, index, start) == Window(ranked, from, DEFAULT_PAGE_SIZE)
  {
    if from > 0 {
      PageBehind(engine, index, from);
    }
  }

  lemma StartIs(ranked: seq<Hit>, k: nat, from: nat)
    requires from == DEFAULT_PAGE_SIZE * k <= |ranked|
    ensures StartAt(ranked, k) == if from == 0 then None else Some(ranked[from - 1].sort)
  {
  }

  lemma PagesFrozen(engine: Engine, history: History, index: Index)
    requires engine.Lawful() && DistinctIds(index) && forall i: nat :: history(i) == index
    ensures Frozen(PagesOf(engine, history), HarvestOrder(engine, index))
  {
    var pages, ranked := PagesOf(engine, history), HarvestOrder(engine, index);
    forall k: nat | DEFAULT_PAGE_SIZE * k <= |ranked|
      ensures pages(k, StartAt(ranked, k)) == Window(ranked, DEFAULT_PAGE_SIZE * k, DEFAULT_PAGE_SIZE)
    {
      PageFrozen(engine, index, k, DEFAULT_PAGE_SIZE * k);
      PageAt(engine, history, index, k, StartAt(ranked, k));
    }
  }

  lemma PageAt(engine: Engine, history: History, index: Index, i: nat, start: Option<Tail>)
    requires (start.Some? ==> engine.IsKey(start.value)) && history(i) == index
    ensures PagesOf(engine, history)(i, start) == PageHits(engine, index, start)
  {
  }

  /** Harvest order is the records of the index, once each, by ascending id. */
  lemma HarvestOrderMeans(engine: Engine, index: Index)
    requires engine.Lawful() && DistinctIds(index)
    ensures var ranked := HarvestOrder(engine, index);
      && |ranked| == |index| && IdsAscend(ranked)
      && (forall d :: d in index <==> exists k :: 0 <= k < |ranked| && ranked[k].doc == d)
  {
    var ranked := HarvestOrder(engine, index);
    RankedAll(engine, index);
    CandidatesAscend(engine, index, None);
    forall d | d in index ensures exists k :: 0 <= k < |ranked| && ranked[k].doc == d {
      RankedHas(engine, index, d);
    }
    forall k | 0 <= k < |ranked| ensures ranked[k].doc in index {
      assert ranked[k] in ranked;
      HitAtScore(engine, index, ranked[k]);
    }
  }

  lemma RankedHas(engine: Engine, index: Index, d: Doc)
    requires engine.Lawful() && d in index
    ensures var ranked := HarvestOrder(engine, index); exists k :: 0 <= k < |ranked| && ranked[k].doc == d
  {
    var ranked, h := HarvestOrder(engine, index), engine.HitOf(HarvestBody(From(0)), d);
    engine.RankedComplete(HarvestBody(From(0)), index);
    assert engine.matches(HarvestBody(From(0)).must, HarvestBody(From(0)).filters, d);
    assert h in ranked;
    var k :| 0 <= k < |ranked| && ranked[k] == h;
    assert ranked[k].doc == d;
  }

  /**
   A harvest of an index of n records, given in harvest order: all documents of the records up to the ceiling of pages,
   n / 100 + 1 pages and no error when the ceiling is not reached.
   */
  ghost predicate HarvestsAll(ranked: seq<Hit>, parser: Doc -> seq<Value>, maxPages: nat, crawl: H.Harvest) {
    var n := |ranked|;
    if n == 0 then crawl == H.Harvest([], H.Upstream, 1)
    else if n < 100 * maxPages then
      DocsOfHits(parser, ranked, crawl.docs) && crawl.end == H.Complete && crawl.pages == n / 100 + 1
    else
      DocsOfHits(parser, ranked[..100 * maxPages], crawl.docs) && crawl.end == H.TooManyPages && crawl.pages == maxPages
  }

  lemma ServedFrozen(engine: Engine, history: History, index: Index, server: (nat, H.Params) -> H.Fetch,
                     parser: Doc -> seq<Value>, maxPages: nat)
    requires engine.Lawful() && DistinctIds(index) && maxPages >= 1 && forall i: nat :: history(i) == index
    requires Serves(server, PagesOf(engine, history), t => IsResumable(engine, t))
    ensures HarvestsAll(HarvestOrder(engine, index), parser, maxPages,
                        H.Crawl(server, parser, H.First(DUBLIN_CORE, None), 0, maxPages))
  {
    PagesFrozen(engine, history, index);
    HarvestIsWalk(engine, history, server, parser, maxPages);
    FrozenDelivery(PagesOf(engine, history), HarvestOrder(engine, index), parser, maxPages);
  }

  /**
   On an index of n >= 1 records that does not change, the harvest yields all documents of all records in order of their
   ids, in n / 100 + 1 pages, and ends without error exactly when n < 100 * maxPages; otherwise it stops at the
   ceiling with the first 100 * maxPages records. An empty index is answered with an error.
   */
  lemma FrozenHarvest(engine: Engine, history: History, index: Index, parser: Doc -> seq<Value>, maxPages: nat)
    requires engine.Lawful() && DistinctIds(index) && maxPages >= 1 && forall i: nat :: history(i) == index
    ensures HarvestsAll(HarvestOrder(engine, index), parser, maxPages,
                        H.Crawl(Server(engine, history), parser, H.First("oai_dc", None), 0, maxPages))
  {
    ProviderServes(engine, history);
    ServedFrozen(engine, history, index, Server(engine, history), parser, maxPages);
  }

  /** Following the tokens of ListIdentifiers lists every record of the index once, in the same pages. */
  lemma FrozenIdentifiers(engine: Engine, history: History, index: Index, parser: Doc -> seq<Value>, maxPages: nat)
    requires engine.Lawful() && DistinctIds(index) && maxPages >= 1 && forall i: nat :: history(i) == index
    ensures HarvestsAll(HarvestOrder(engine, index), parser, maxPages,
                        H.Crawl(ServerFor(engine, history, "ListIdentifiers"), parser, H.First("oai_dc", None), 0,
                                maxPages))
  {
    ProviderServesFor(engine, history, "ListIdentifiers");
    ServedFrozen(engine, history, index, ServerFor(engine, history, "ListIdentifiers"), parser, maxPages);
  }

  lemma FrozenDelivery(pages: Pages, ranked: seq<Hit>, parser: Doc -> seq<Value>, maxPages: nat)
    requires Frozen(pages, ranked) && maxPages >= 1
    ensures HarvestsAll(ranked, parser, maxPages, Delivery(parser, Walk(pages, None, 0, maxPages)))
  {
    assert StartAt(ranked, 0) == None;
    if ranked != [] {
      FrozenWalk(pages, ranked, 0, maxPages);
      assert ranked[0..Reach(|ranked|, maxPages)] == ranked[..Reach(|ranked|, maxPages)];
      assert ranked[..|ranked|] == ranked;
      DeliveryDocs(parser, Walk(pages, None, 0, maxPages));
    } else {
      assert Records([]) == [];
    }
  }
}
