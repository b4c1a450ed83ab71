/** The OAI-PMH client loop (app/importers/oaipmh.py, `iter_records`). */
module OaiHarvest {
  import opened Wrappers
  import opened Json
  import opened SearchEngine
  import opened Gathering

  type Params = map<string, string>

  /** What one request comes back as. The token is the trimmed text of its element, empty when there is none. */
  datatype Fetch =
    | Unreachable
    | NotXml
    | ProtocolError(code: string)
    | NoListing
    | Listing(records: seq<Doc>, token: string)

  /** How a harvest ends: the list is complete, an upstream error stops it, or the page ceiling does. */
  datatype End = Complete | Upstream | TooManyPages

  datatype Harvest = Harvest(docs: seq<Value>, end: End, pages: nat)

  /** A parser turns one record into no document, one, or several. */
  function ParseAll(parser: Doc -> seq<Value>, records: seq<Doc>): seq<Value> {
    if records == [] then [] else ParseAll(parser, records[..|records| - 1]) + parser(records[|records| - 1])
  }

  function First(prefix: string, setSpec: Option<string>): Params {
    if setSpec.Some? && setSpec.value != ""
    then map["verb" := "ListRecords", "metadataPrefix" := prefix, "set" := setSpec.value]
    else map["verb" := "ListRecords", "metadataPrefix" := prefix]
  }

  /** What the first request asks for: the set only when one is given. */
  lemma FirstAsks(prefix: string, setSpec: Option<string>)
    ensures var params := First(prefix, setSpec);
      && params["verb"] == "ListRecords" && params["metadataPrefix"] == prefix
      && ("set" in params <==> setSpec.Some? && setSpec.value != "")
      && ("set" in params ==> params["set"] == setSpec.value)
      && params.Keys <= {"verb", "metadataPrefix", "set"}
  {
  }

  function Resume(token: string): Params {
    map["verb" := "ListRecords", "resumptionToken" := token]
  }

  function Prepend(docs: seq<Value>, rest: Harvest): Harvest {
    Harvest(docs + rest.docs, rest.end, rest.pages)
  }

  lemma PrependTwice(a: seq<Value>, b: seq<Value>, rest: Harvest)
    ensures Prepend(a, Prepend(b, rest)) == Prepend(a + b, rest)
  {
    assert a + (b + rest.docs) == (a + b) + rest.docs;
  }

  /** Asking a server, page by page from page i on: it may answer each request as it likes. */
  function Crawl(server: (nat, Params) -> Fetch, parser: Doc -> seq<Value>, params: Params, i: nat,
                 maxPages: nat): Harvest
    decreases maxPages - i
  {
    if i >= maxPages then Harvest([], TooManyPages, i)
    else
      match server(i, params)
      case Listing(records, token) =>
        if token == "" then Harvest(ParseAll(parser, records), Complete, i + 1)
        else Prepend(ParseAll(parser, records), Crawl(server, parser, Resume(token), i + 1, maxPages))
      case NoListing => Harvest([], Complete, i + 1)
      case _ => Harvest([], Upstream, i + 1)
  }

  lemma CrawlOn(server: (nat, Params) -> Fetch, parser: Doc -> seq<Value>, params: Params, i: nat, maxPages: nat,
                records: seq<Doc>, token: string)
    requires i < maxPages && server(i, params) == Listing(records, token) && token != ""
    ensures Crawl(server, parser, params, i, maxPages)
      == Prepend(ParseAll(parser, records), Crawl(server, parser, Resume(token), i + 1, maxPages))
  {
  }

  lemma {:induction false} CrawlPages(server: (nat, Params) -> Fetch, parser: Doc -> seq<Value>, params: Params, i: nat,
                                      maxPages: nat)
    ensures Crawl(server, parser, params, i, maxPages).pages >= (if i < maxPages then i + 1 else i)
    decreases maxPages - i
  {
    if i < maxPages && server(i, params).Listing? && server(i, params).token != "" {
      CrawlPages(server, parser, Resume(server(i, params).token), i + 1, maxPages);
    }
  }

  /** Every document the parser makes of every record is there, in the order of the records. */
  ghost predicate DocsOf(parser: Doc -> seq<Value>, records: seq<Doc>, docs: seq<Value>) {
    Gathers(docs, seq(|records|, k requires 0 <= k < |records| => parser(records[k])))
  }

  lemma {:induction false} ParsesAll(parser: Doc -> seq<Value>, records: seq<Doc>)
    ensures DocsOf(parser, records, ParseAll(parser, records))
  {
    if records == [] {
      GathersNone<Value>();
      assert seq(0, k requires 0 <= k < |records| => parser(records[k])) == [];
    } else {
      var init := records[..|records| - 1];
      var pieces := seq(|init|, k requires 0 <= k < |init| => parser(init[k]));
      ParsesAll(parser, init);
      GathersSnoc(ParseAll(parser, init), pieces, parser(records[|init|]));
      assert pieces + [parser(records[|init|])] == seq(|records|, k requires 0 <= k < |records| => parser(records[k]));
    }
  }

  lemma DocsJoin(parser: Doc -> seq<Value>, a: seq<Doc>, b: seq<Doc>, x: seq<Value>, y: seq<Value>)
    requires DocsOf(parser, a, x) && DocsOf(parser, b, y)
    ensures DocsOf(parser, a + b, x + y)
  {
    var ps := seq(|a|, k requires 0 <= k < |a| => parser(a[k]));
    var qs := seq(|b|, k requires 0 <= k < |b| => parser(b[k]));
    GathersJoin(x, y, ps, qs);
    assert ps + qs == seq(|a + b|, k requires 0 <= k < |a + b| => parser((a + b)[k]));
  }

  // ---------------------------------------------------------------- a harvest, request by request

  function Listed(f: Fetch): seq<Doc> {
    if f.Listing? then f.records else []
  }

  /** Another request comes after this reply. */
  predicate GoesOn(f: Fetch) {
    f.Listing? && f.token != ""
  }

  /** From request i on, each request sends back the token of the reply before, and nothing else. */
  predicate Follows(server: (nat, Params) -> Fetch, i: nat, asked: seq<Params>) {
    forall k :: 0 <= k < |asked| - 1 ==>
      && GoesOn(server(i + k, asked[k]))
      && asked[k + 1] == map["verb" := "ListRecords", "resumptionToken" := server(i + k, asked[k]).token]
  }

  /** The ending is told by the last reply: its token is missing, it is an error, or the ceiling is reached first. */
  predicate EndsAs(last: Option<Fetch>, ceiling: bool, end: End) {
    match end
    case Complete => last.Some? && (last.value.NoListing? || (last.value.Listing? && last.value.token == ""))
    case Upstream => last.Some? && (last.value.Unreachable? || last.value.NotXml? || last.value.ProtocolError?)
    case TooManyPages => ceiling && (last.Some? ==> GoesOn(last.value))
  }

  function LastReply(server: (nat, Params) -> Fetch, i: nat, asked: seq<Params>): Option<Fetch> {
    if asked == [] then None else Some(server(i + |asked| - 1, asked[|asked| - 1]))
  }

  /** The requests made from request i on, and the records their replies list, account for what is harvested. */
  ghost predicate HarvestedBy(server: (nat, Params) -> Fetch, parser: Doc -> seq<Value>, first: Params, i: nat,
                              maxPages: nat, h: Harvest, asked: seq<Params>, records: seq<Doc>) {
    && (asked != [] ==> asked[0] == first) && (asked == [] ==> i >= maxPages)
    && Follows(server, i, asked)
    && h.pages == i + |asked| && (i <= maxPages ==> h.pages <= maxPages)
    && EndsAs(LastReply(server, i, asked), h.pages >= maxPages, h.end)
    && RecordsOf(server, i, asked, records) && DocsOf(parser, records, h.docs)
  }

  predicate ListedPages(server: (nat, Params) -> Fetch, i: nat, asked: seq<Params>, pages: seq<seq<Doc>>) {
    |pages| == |asked| && forall k :: 0 <= k < |asked| ==> pages[k] == Listed(server(i + k, asked[k]))
  }

  /** All records of all replies, page by page. */
  ghost predicate RecordsOf(server: (nat, Params) -> Fetch, i: nat, asked: seq<Params>, records: seq<Doc>) {
    exists pages :: ListedPages(server, i, asked, pages) && Gathers(records, pages)
  }

  /** `h` is the harvest that starts with this request. */
  ghost predicate IsHarvest(server: (nat, Params) -> Fetch, parser: Doc -> seq<Value>, first: Params, maxPages: nat,
                            h: Harvest) {
    exists asked, records :: HarvestedBy(server, parser, first, 0, maxPages, h, asked, records)
  }

  lemma HarvestedLast(server: (nat, Params) -> Fetch, parser: Doc -> seq<Value>, params: Params, i: nat, maxPages: nat)
    requires i < maxPages && !GoesOn(server(i, params))
    ensures HarvestedBy(server, parser, params, i, maxPages, Crawl(server, parser, params, i, maxPages), [params],
                        Listed(server(i, params)))
  {
    var fetched := server(i, params);
    GathersSingle(Listed(fetched));
    assert ListedPages(server, i, [params], [Listed(fetched)]);
    ParsesAll(parser, Listed(fetched));
  }

  lemma HarvestedNone(server: (nat, Params) -> Fetch, parser: Doc -> seq<Value>, params: Params, i: nat, maxPages: nat)
    requires i >= maxPages
    ensures HarvestedBy(server, parser, params, i, maxPages, Crawl(server, parser, params, i, maxPages), [], [])
  {
    GathersNone<Doc>();
    assert ListedPages(server, i, [], []);
    ParsesAll(parser, []);
  }

  lemma FollowsCons(server: (nat, Params) -> Fetch, i: nat, params: Params, asked: seq<Params>)
    requires GoesOn(server(i, params)) && Follows(server, i + 1, asked)
    requires asked != [] ==> asked[0] == Resume(server(i, params).token)
    ensures Follows(server, i, [params] + asked)
    ensures LastReply(server, i, [params] + asked)
      == if asked == [] then Some(server(i, params)) else LastReply(server, i + 1, asked)
  {
    var all := [params] + asked;
    forall k | 0 <= k < |all| - 1
      ensures GoesOn(server(i + k, all[k]))
      ensures all[k + 1] == map["verb" := "ListRecords", "resumptionToken" := server(i + k, all[k]).token]
    {
      if k > 0 {
        assert all[k] == asked[k - 1] && all[k + 1] == asked[k] && i + k == i + 1 + (k - 1);
      }
    }
  }

  lemma HarvestedCons(server: (nat, Params) -> Fetch, parser: Doc -> seq<Value>, params: Params, i: nat, maxPages: nat,
                      rest: Harvest, asked: seq<Params>, records: seq<Doc>)
    requires i < maxPages && GoesOn(server(i, params))
    requires HarvestedBy(server, parser, Resume(server(i, params).token), i + 1, maxPages, rest, asked, records)
    ensures HarvestedBy(server, parser, params, i, maxPages,
                        Prepend(ParseAll(parser, server(i, params).records), rest), [params] + asked,
                        server(i, params).records + records)
  {
    var page := server(i, params).records;
    FollowsCons(server, i, params, asked);
    RecordsCons(server, i, params, asked, records);
    ParsesAll(parser, page);
    DocsJoin(parser, page, records, ParseAll(parser, page), rest.docs);
  }

  lemma RecordsCons(server: (nat, Params) -> Fetch, i: nat, params: Params, asked: seq<Params>, records: seq<Doc>)
    requires server(i, params).Listing? && RecordsOf(server, i + 1, asked, records)
    ensures RecordsOf(server, i, [params] + asked, server(i, params).records + records)
  {
    var page := server(i, params).records;
    var pages :| ListedPages(server, i + 1, asked, pages) && Gathers(records, pages);
    GathersSingle(page);
    GathersJoin(page, records, [page], pages);
    PagesCons(server, i, params, asked, pages);
  }

  lemma PagesCons(server: (nat, Params) -> Fetch, i: nat, params: Params, asked: seq<Params>, pages: seq<seq<Doc>>)
    requires server(i, params).Listing? && ListedPages(server, i + 1, asked, pages)
    ensures ListedPages(server, i, [params] + asked, [server(i, params).records] + pages)
  {
    var all, ps := [params] + asked, [server(i, params).records] + pages;
    forall k | 0 <= k < |all| ensures ps[k] == Listed(server(i + k, all[k])) {
      if k > 0 {
        assert all[k] == asked[k - 1] && ps[k] == pages[k - 1] && i + k == i + 1 + (k - 1);
      }
    }
  }

  /** What is harvested is every document of every record of every page, read by following the tokens. */
  lemma {:induction false} CrawlHarvests(server: (nat, Params) -> Fetch, parser: Doc -> seq<Value>, params: Params,
                                         i: nat, maxPages: nat) returns (asked: seq<Params>, records: seq<Doc>)
    ensures HarvestedBy(server, parser, params, i, maxPages, Crawl(server, parser, params, i, maxPages), asked, records)
    decreases maxPages - i
  {
    if i >= maxPages {
      HarvestedNone(server, parser, params, i, maxPages);
      asked, records := [], [];
    } else if GoesOn(server(i, params)) {
      var token := server(i, params).token;
      asked, records := CrawlHarvests(server, parser, Resume(token), i + 1, maxPages);
      CrawlOn(server, parser, params, i, maxPages, server(i, params).records, token);
      HarvestedCons(server, parser, params, i, maxPages, Crawl(server, parser, Resume(token), i + 1, maxPages), asked,
                    records);
      asked, records := [params] + asked, server(i, params).records + records;
    } else {
      HarvestedLast(server, parser, params, i, maxPages);
      asked, records := [params], Listed(server(i, params));
    }
  }

  /** Whatever the server does, following it page by page keeps what `HarvestedBy` promises. */
  lemma CrawlIsHarvest(server: (nat, Params) -> Fetch, parser: Doc -> seq<Value>, first: Params, maxPages: nat)
    ensures IsHarvest(server, parser, first, maxPages, Crawl(server, parser, first, 0, maxPages))
  {
    var asked, records := CrawlHarvests(server, parser, first, 0, maxPages);
  }

  /** The documents of one page. */
  method ParsePage(parser: Doc -> seq<Value>, records: seq<Doc>) returns (docs: seq<Value>)
    ensures docs == ParseAll(parser, records) && DocsOf(parser, records, docs)
  {
    docs := [];
    for k := 0 to |records|
      invariant docs == ParseAll(parser, records[..k])
    {
      assert records[..k + 1][..k] == records[..k];
      docs := docs + parser(records[k]);
    }
    assert records[..|records|] == records;
    ParsesAll(parser, records);
  }

  /** `iter_records`, with the documents it yields collected. */
  method IterRecords(server: (nat, Params) -> Fetch, parser: Doc -> seq<Value>, prefix: string, setSpec: Option<string>,
                     maxPages: nat)
    returns (r: Harvest)
    ensures r == Crawl(server, parser, First(prefix, setSpec), 0, maxPages)
  {
    var params := First(prefix, setSpec);
    ghost var whole := Crawl(server, parser, params, 0, maxPages);
    var docs: seq<Value> := [];
    for page := 0 to maxPages
      invariant whole == Prepend(docs, Crawl(server, parser, params, page, maxPages))
    {
      var fetched := server(page, params);
      if !fetched.Listing? {
        return Harvest(docs, if fetched.NoListing? then Complete else Upstream, page + 1);
      }
      var parsed := ParsePage(parser, fetched.records);
      if fetched.token == "" {
        return Harvest(docs + parsed, Complete, page + 1);
      }
      PrependTwice(docs, parsed, Crawl(server, parser, Resume(fetched.token), page + 1, maxPages));
      docs := docs + parsed;
      params := Resume(fetched.token);
    }
    r := Harvest(docs, TooManyPages, maxPages);
  }

  /** The request made for page n, if the crawl gets that far. */
  function RequestAt(server: (nat, Params) -> Fetch, first: Params, n: nat): Option<Params> {
    if n == 0 then Some(first)
    else
      match RequestAt(server, first, n - 1)
      case None => None
      case Some(params) =>
        match server(n - 1, params)
        case Listing(_, token) => if token == "" then None else Some(Resume(token))
        case _ => None
  }

  /**
   Whatever the server does, a harvest makes at most `maxPages` requests; it gives up on the ceiling exactly
   when the server keeps handing out tokens that long, and then it has made exactly `maxPages` requests.
   */
  lemma {:induction false} CrawlTerminates(server: (nat, Params) -> Fetch, parser: Doc -> seq<Value>, first: Params,
                                                 i: nat, params: Params, maxPages: nat)
    requires i <= maxPages && RequestAt(server, first, i) == Some(params)
    ensures var r := Crawl(server, parser, params, i, maxPages);
      && r.pages <= maxPages
      && (r.end == TooManyPages <==> RequestAt(server, first, maxPages).Some?)
      && (r.end == TooManyPages ==> r.pages == maxPages)
    decreases maxPages - i
  {
    if i < maxPages {
      match RequestAt(server, first, i + 1) {
        case Some(next) => CrawlTerminates(server, parser, first, i + 1, next, maxPages);
        case None => StopsForGood(server, first, i + 1, maxPages);
      }
    }
  }

  lemma {:induction false} StopsForGood(server: (nat, Params) -> Fetch, first: Params, n: nat, m: nat)
    requires n <= m && RequestAt(server, first, n).None?
    ensures RequestAt(server, first, m).None?
  {
    if n < m {
      StopsForGood(server, first, n, m - 1);
    }
  }
}
