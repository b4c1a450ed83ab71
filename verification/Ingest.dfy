/** Whole import runs: a stream of documents, batched into the backend (app/importers/oaipmh.py and marc.py). */
module Ingest {
  import opened Wrappers
  import opened Json
  import opened Batching
  import opened Gathering
  import H = OaiHarvest
  import E = SearchEngine
  import OaiProvider
  import HarvestWalk
  import HarvestProtocol
  import Marc
  import MarcRoundTrip

  const MAX_PAGES: nat := 10000

  function StreamError(end: H.End): Option<string> {
    match end
    case Complete => None
    case Upstream => Some("upstream")
    case TooManyPages => Some("too many pages")
  }

  /** The whole harvest. */
  function Harvested(server: (nat, H.Params) -> H.Fetch, parser: E.Doc -> seq<Value>, first: H.Params): H.Harvest {
    H.Crawl(server, parser, first, 0, MAX_PAGES)
  }

  /** The documents of the first n pages of a harvest. */
  function PageDocs(server: (nat, H.Params) -> H.Fetch, parser: E.Doc -> seq<Value>, first: H.Params, n: nat)
    : seq<Value>
  {
    if n == 0 then []
    else
      var request := H.RequestAt(server, first, n - 1);
      PageDocs(server, parser, first, n - 1)
      + (if request.Some? && server(n - 1, request.value).Listing?
         then H.ParseAll(parser, server(n - 1, request.value).records) else [])
  }

  /** The n-th page is the one that brings the harvest to this many documents. */
  predicate CompletedOn(server: (nat, H.Params) -> H.Fetch, parser: E.Doc -> seq<Value>, first: H.Params, n: nat,
                        count: nat)
    requires n >= 1
  {
    |PageDocs(server, parser, first, n - 1)| < count <= |PageDocs(server, parser, first, n)|
  }

  /**
   The documents of the harvest have been batched; all its pages were requested unless a full chunk raised, and then
   none behind the page that completed that chunk.
   */
  ghost predicate Ingests(server: (nat, H.Params) -> H.Fetch, parser: E.Doc -> seq<Value>, first: H.Params,
                          chunkSize: int, bulk: (nat, seq<Value>) -> Bulk, r: Outcome, pages: nat) {
    var crawl := Harvested(server, parser, first);
    && H.IsHarvest(server, parser, first, MAX_PAGES, crawl)
    && Conserves(crawl.docs, StreamError(crawl.end), chunkSize, bulk, r)
    && pages <= crawl.pages
    && (if FullRaised(bulk, r.sent, Size(chunkSize))
        then pages >= 1 && CompletedOn(server, parser, first, pages, |Concat(r.sent)|)
        else pages == crawl.pages)
  }

  /**
   `ingest` in app/importers/oaipmh.py. Every document is pushed as the harvest yields it, so a chunk is sent before the
   next page is requested.
   */
  method IngestOai(server: (nat, H.Params) -> H.Fetch, parser: E.Doc -> seq<Value>, prefix: string,
                   setSpec: Option<string>, chunkSize: int, bulk: (nat, seq<Value>) -> Bulk)
    returns (r: Outcome, pages: nat)
    ensures Ingests(server, parser, H.First(prefix, setSpec), chunkSize, bulk, r, pages)
  {
    var params := H.First(prefix, setSpec);
    ghost var first := params;
    ghost var seen: seq<Value> := [];
    var flow := IDLE;
    Begins(server, parser, first);
    for page := 0 to MAX_PAGES
      invariant Harvesting(server, parser, first, page, params, seen)
      invariant Flowing(seen, flow, Size(chunkSize), bulk)
    {
      var fetched := server(page, params);
      if !fetched.Listing? {
        r := Finish(seen, flow, if fetched.NoListing? then None else Some("upstream"), chunkSize, bulk);
        PageFails(server, parser, first, page, params, seen);
        Finished(server, parser, first, chunkSize, bulk, r, page + 1, Harvested(server, parser, first));
        return r, page + 1;
      }
      var parsed := H.ParsePage(parser, fetched.records);
      var next, stopped := PushAll(seen, flow, parsed, chunkSize, bulk);
      if stopped.Some? {
        StopsOn(server, parser, first, page, params, seen, parsed, chunkSize, bulk, stopped.value);
        return stopped.value, page + 1;
      }
      PageTaken(server, parser, first, page, params, seen, parsed);
      flow, seen := next, seen + parsed;
      if fetched.token == "" {
        r := Finish(seen, flow, None, chunkSize, bulk);
        Finished(server, parser, first, chunkSize, bulk, r, page + 1, Harvested(server, parser, first));
        return r, page + 1;
      }
      params := H.Resume(fetched.token);
    }
    r := Finish(seen, flow, StreamError(H.TooManyPages), chunkSize, bulk);
    Ceiling(server, parser, first, params, seen);
    Finished(server, parser, first, chunkSize, bulk, r, MAX_PAGES, Harvested(server, parser, first));
    pages := MAX_PAGES;
  }

  /** Between two pages: what has been seen, and the request that comes next. */
  ghost predicate Harvesting(server: (nat, H.Params) -> H.Fetch, parser: E.Doc -> seq<Value>, first: H.Params,
                             page: nat, params: H.Params, seen: seq<Value>) {
    && H.RequestAt(server, first, page) == Some(params) && seen == PageDocs(server, parser, first, page)
    && Harvested(server, parser, first) == H.Prepend(seen, H.Crawl(server, parser, params, page, MAX_PAGES))
  }

  lemma PageFails(server: (nat, H.Params) -> H.Fetch, parser: E.Doc -> seq<Value>, first: H.Params, page: nat,
                  params: H.Params, seen: seq<Value>)
    requires page < MAX_PAGES && Harvesting(server, parser, first, page, params, seen) && !server(page, params).Listing?
    ensures Harvested(server, parser, first)
      == H.Harvest(seen, if server(page, params).NoListing? then H.Complete else H.Upstream, page + 1)
  {
    assert seen + [] == seen;
  }

  lemma Ceiling(server: (nat, H.Params) -> H.Fetch, parser: E.Doc -> seq<Value>, first: H.Params, params: H.Params,
                seen: seq<Value>)
    requires Harvesting(server, parser, first, MAX_PAGES, params, seen)
    ensures Harvested(server, parser, first) == H.Harvest(seen, H.TooManyPages, MAX_PAGES)
  {
    assert seen + [] == seen;
  }

  lemma Begins(server: (nat, H.Params) -> H.Fetch, parser: E.Doc -> seq<Value>, first: H.Params)
    ensures Harvesting(server, parser, first, 0, first, [])
  {
    var crawl := Harvested(server, parser, first);
    assert [] + crawl.docs == crawl.docs;
  }

  /** The stream has ended with page n. */
  lemma Finished(server: (nat, H.Params) -> H.Fetch, parser: E.Doc -> seq<Value>, first: H.Params, chunkSize: int,
                 bulk: (nat, seq<Value>) -> Bulk, r: Outcome, n: nat, crawl: H.Harvest)
    requires crawl == Harvested(server, parser, first) && crawl.pages == n
    requires Conserves(crawl.docs, StreamError(crawl.end), chunkSize, bulk, r)
    requires !FullRaised(bulk, r.sent, Size(chunkSize))
    ensures Ingests(server, parser, first, chunkSize, bulk, r, n)
  {
    H.CrawlIsHarvest(server, parser, first, MAX_PAGES);
  }

  /** A full chunk has raised on this page. */
  lemma StopsOn(server: (nat, H.Params) -> H.Fetch, parser: E.Doc -> seq<Value>, first: H.Params, page: nat,
                params: H.Params, seen: seq<Value>, parsed: seq<Value>, chunkSize: int,
                bulk: (nat, seq<Value>) -> Bulk, r: Outcome)
    requires page < MAX_PAGES && Harvesting(server, parser, first, page, params, seen) && server(page, params).Listing?
    requires parsed == H.ParseAll(parser, server(page, params).records)
    requires Stopped(seen + parsed, chunkSize, bulk, r) && FullRaised(bulk, r.sent, Size(chunkSize))
    requires |seen| < |Concat(r.sent)| <= |seen + parsed|
    ensures Ingests(server, parser, first, chunkSize, bulk, r, page + 1)
  {
    PageTaken(server, parser, first, page, params, seen, parsed);
    H.CrawlIsHarvest(server, parser, first, MAX_PAGES);
  }

  /** One page of the harvest, and what follows it. */
  lemma PageTaken(server: (nat, H.Params) -> H.Fetch, parser: E.Doc -> seq<Value>, first: H.Params, page: nat,
                  params: H.Params, seen: seq<Value>, parsed: seq<Value>)
    requires page < MAX_PAGES && Harvesting(server, parser, first, page, params, seen) && server(page, params).Listing?
    requires parsed == H.ParseAll(parser, server(page, params).records)
    ensures var fetched, crawl := server(page, params), Harvested(server, parser, first);
      && seen + parsed == PageDocs(server, parser, first, page + 1)
      && seen + parsed <= crawl.docs && page + 1 <= crawl.pages
      && (fetched.token == "" ==> crawl == H.Harvest(seen + parsed, H.Complete, page + 1))
      && (fetched.token != "" ==>
            Harvesting(server, parser, first, page + 1, H.Resume(fetched.token), seen + parsed))
  {
    var fetched := server(page, params);
    H.CrawlPages(server, parser, params, page, MAX_PAGES);
    Yields(server, parser, params, page, seen, fetched.records, fetched.token);
    PageDocsNext(server, parser, first, page, params);
    if fetched.token != "" {
      assert H.RequestAt(server, first, page + 1) == Some(H.Resume(fetched.token));
    }
  }

  lemma PageDocsNext(server: (nat, H.Params) -> H.Fetch, parser: E.Doc -> seq<Value>, first: H.Params, page: nat,
                     params: H.Params)
    requires H.RequestAt(server, first, page) == Some(params) && server(page, params).Listing?
    ensures PageDocs(server, parser, first, page + 1)
      == PageDocs(server, parser, first, page) + H.ParseAll(parser, server(page, params).records)
  {
  }

  lemma Yields(server: (nat, H.Params) -> H.Fetch, parser: E.Doc -> seq<Value>, params: H.Params, page: nat,
               seen: seq<Value>, records: seq<E.Doc>, token: string)
    requires page < MAX_PAGES && server(page, params) == H.Listing(records, token)
    ensures var parsed := H.ParseAll(parser, records);
      var crawl := H.Prepend(seen, H.Crawl(server, parser, params, page, MAX_PAGES));
      && seen + parsed <= crawl.docs
      && (token == "" ==> crawl == H.Harvest(seen + parsed, H.Complete, page + 1))
      && (token != "" ==>
            crawl == H.Prepend(seen + parsed, H.Crawl(server, parser, H.Resume(token), page + 1, MAX_PAGES)))
  {
    var parsed := H.ParseAll(parser, records);
    if token != "" {
      H.PrependTwice(seen, parsed, H.Crawl(server, parser, H.Resume(token), page + 1, MAX_PAGES));
    }
  }

  /**
   A whole collection moves from one installation to another: harvesting an index that does not change, into a backend
   that answers every call, reports no error exactly when it holds 1 to 999 999 records, and then what is sent is
   exactly the documents of all its records, in harvest order.
   */
  lemma CollectionMoves(engine: E.Engine, history: E.History, index: E.Index, parser: E.Doc -> seq<Value>,
                        chunkSize: int, bulk: (nat, seq<Value>) -> Bulk, r: Outcome)
    requires engine.Lawful() && E.DistinctIds(index) && (forall i: nat :: history(i) == index)
    requires forall k, chunk :: bulk(k, chunk).Counted?
    requires var first := H.First(OaiProvider.DUBLIN_CORE, None);
      var crawl := H.Crawl(HarvestProtocol.Server(engine, history), parser, first, 0, MAX_PAGES);
      Conserves(crawl.docs, StreamError(crawl.end), chunkSize, bulk, r)
    ensures r.error == if index == [] then Some("upstream")
                       else if |index| < 1000000 then None else Some("too many pages")
    ensures r.error == None ==> var ranked := OaiProvider.HarvestOrder(engine, index);
      && |ranked| == |index| && HarvestWalk.IdsAscend(ranked)
      && (forall d :: d in index <==> exists k :: 0 <= k < |ranked| && ranked[k].doc == d)
      && HarvestProtocol.DocsOfHits(parser, ranked, Concat(r.sent))
  {
    HarvestProtocol.FrozenHarvest(engine, history, index, parser, MAX_PAGES);
    HarvestProtocol.HarvestOrderMeans(engine, index);
    NeverRaises(bulk, r.sent);
  }

  /** The documents of those records that map to one (a record without a control field 001 does not). */
  function MarcDocs(toDoc: Marc.Record -> Option<Value>, records: seq<Marc.Record>): seq<Value> {
    if records == [] then []
    else
      var last := toDoc(records[|records| - 1]);
      MarcDocs(toDoc, records[..|records| - 1]) + (if last.Some? then [last.value] else [])
  }

  /** One document for each of the records that map to one, in order. */
  ghost predicate DocsOfRecords(toDoc: Marc.Record -> Option<Value>, records: seq<Marc.Record>, docs: seq<Value>) {
    Gathers(docs, seq(|records|, k requires 0 <= k < |records| =>
      if toDoc(records[k]).Some? then [toDoc(records[k]).value] else []))
  }

  lemma {:induction false} MarcDocsOf(toDoc: Marc.Record -> Option<Value>, records: seq<Marc.Record>)
    ensures DocsOfRecords(toDoc, records, MarcDocs(toDoc, records))
  {
    var pieces := seq(|records|, k requires 0 <= k < |records| =>
      if toDoc(records[k]).Some? then [toDoc(records[k]).value] else []);
    if records == [] {
      GathersNone<Value>();
      assert pieces == [];
    } else {
      var init := records[..|records| - 1];
      MarcDocsOf(toDoc, init);
      var before := seq(|init|, k requires 0 <= k < |init| =>
        if toDoc(init[k]).Some? then [toDoc(init[k]).value] else []);
      GathersSnoc(MarcDocs(toDoc, init), before, pieces[|init|]);
      assert pieces == before + [pieces[|init|]];
    }
  }

  /** What is found at the path: nothing, a file that cannot be read, or bytes. */
  datatype File = Missing | Unreadable(reason: string) | Bytes(data: string)

  /** `ingest_marc_file` */
  method IngestMarcFile(file: File, toDoc: Marc.Record -> Option<Value>, chunkSize: int,
                        bulk: (nat, seq<Value>) -> Bulk)
    returns (r: Outcome)
    ensures file.Missing? ==> r == Outcome(0, 0, Some("MARC file not found"), [])
    ensures file.Unreadable? ==> r == Outcome(0, 0, Some("Could not read MARC file: " + file.reason), [])
    ensures file.Bytes? ==> Conserves(MarcDocs(toDoc, Marc.Records(file.data)), None, chunkSize, bulk, r)
    ensures file.Bytes? ==> DocsOfRecords(toDoc, Marc.Records(file.data), MarcDocs(toDoc, Marc.Records(file.data)))
  {
    if file.Missing? {
      return Outcome(0, 0, Some("MARC file not found"), []);
    }
    if file.Unreadable? {
      return Outcome(0, 0, Some("Could not read MARC file: " + file.reason), []);
    }
    var records := Marc.IterRecords(file.data);
    var docs: seq<Value> := [];
    for k := 0 to |records|
      invariant docs == MarcDocs(toDoc, records[..k])
    {
      assert records[..k + 1][..k] == records[..k];
      var doc := toDoc(records[k]);
      if doc.Some? {
        docs := docs + [doc.value];
      }
    }
    assert records[..|records|] == records;
    MarcDocsOf(toDoc, records);
    r := Run(docs, None, chunkSize, bulk);
  }

  /** A catalogue file loses nothing on its way in: what is sent is the documents of its printed records, the
      refused pieces between them left out. */
  lemma CatalogueMoves(pieces: seq<MarcRoundTrip.Piece>, toDoc: Marc.Record -> Option<Value>, chunkSize: int,
                       bulk: (nat, seq<Value>) -> Bulk, r: Outcome)
    requires forall k :: 0 <= k < |pieces| ==> MarcRoundTrip.PieceFits(pieces[k])
    requires forall k, chunk :: bulk(k, chunk).Counted?
    requires Conserves(MarcDocs(toDoc, Marc.Records(MarcRoundTrip.FileOf(pieces))), None, chunkSize, bulk, r)
    ensures r.error == None && DocsOfRecords(toDoc, MarcRoundTrip.RecordsOf(pieces), Concat(r.sent))
  {
    MarcRoundTrip.FileRoundTrip(pieces);
    MarcDocsOf(toDoc, MarcRoundTrip.RecordsOf(pieces));
  }
}
