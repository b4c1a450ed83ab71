/**
 Paging in `GET /v1/search` (app/public_api/routes.py): numbered pages by from + size, and the chain of
 `next_cursor` tokens. On an index that does not change, the two walk the same pages.
 */
module PublicSearch {
  import opened Wrappers
  import opened Cursor
  import opened Query
  import opened SearchEngine
  import opened Adapter

  datatype Response = Response(total: nat, page: int, pageSize: int, hits: seq<Hit>, nextCursor: Option<string>)

  lemma ResultsCarryTails(engine: Engine, index: Index, query: NormalizedQuery)
    requires engine.Lawful()
    ensures Search(engine, index, query).Ok? ==>
      forall h :: h in Search(engine, index, query).value.hits ==> ValidTail(h.sort)
  {
  }

  /** The JSON body `search` answers with. */
  function Respond(engine: Engine, index: Index, query: NormalizedQuery): Result<Response>
    requires engine.Lawful()
  {
    ResultsCarryTails(engine, index, query);
    match Search(engine, index, query)
    case Err(e) => Err(e)
    case Ok(page) =>
      Ok(Response(page.total, query.page, query.pageSize, page.hits, NextCursor(page.hits, query.pageSize)))
  }

  /** What the server answers to the i-th request, by the cursor it carries. */
  type Server = (nat, Option<string>) -> Result<Response>

  function ServerOf(engine: Engine, history: History, query: NormalizedQuery): Server
    requires engine.Lawful()
  {
    (i: nat, cursor: Option<string>) => Respond(engine, history(i), query.(page := 1, cursor := cursor))
  }

  function Unchanging(index: Index): History {
    (i: nat) => index
  }

  /** The (k+1)-th response a client sees that starts without a cursor and sends back each token it is given;
      None when the chain ended before. */
  function Follow(server: Server, k: nat): Option<Result<Response>> {
    if k == 0 then Some(server(0, None))
    else
      match Follow(server, k - 1)
      case Some(Ok(r)) => if r.nextCursor.Some? then Some(server(k, r.nextCursor)) else None
      case _ => None
  }

  /** The hits of the first k responses, one after the other. */
  function Collected(server: Server, k: nat): seq<Hit> {
    if k == 0 then []
    else Collected(server, k - 1) + (match Follow(server, k - 1) { case Some(Ok(r)) => r.hits case _ => [] })
  }

  // ---------------------------------------------------------------- chains of windows

  /** The page at `from` is that window of the ranking; it has a token exactly when it is full, which leads on. */
  predicate Leads(server: Server, ranked: seq<Hit>, size: nat, page: nat -> Response, from: nat, i: nat) {
    from <= |ranked| ==>
      && page(from).hits == Window(ranked, from, size)
      && (page(from).nextCursor.Some? <==> from + size <= |ranked|)
      && (page(from).nextCursor.Some? ==> server(i, page(from).nextCursor) == Ok(page(from + size)))
  }

  ghost predicate Serves(server: Server, ranked: seq<Hit>, size: nat, page: nat -> Response) {
    && size >= 1
    && server(0, None) == Ok(page(0))
    && forall from: nat, i: nat :: Leads(server, ranked, size, page, from, i)
  }

  lemma NotNegative(k: nat, ps: nat)
    ensures 0 <= k * ps
  {
  }

  lemma Steps(k: nat, ps: nat)
    requires k >= 1
    ensures 0 <= (k - 1) * ps && (k - 1) * ps + ps == k * ps
  {
  }

  /** The chain of tokens yields the windows of the ranking in turn, as long as the one before is full. */
  lemma {:induction false} ChainWindows(server: Server, ranked: seq<Hit>, size: nat, page: nat -> Response, k: nat,
                                        from: nat)
    requires Serves(server, ranked, size, page) && from == k * size
    ensures Follow(server, k) == if from <= |ranked| then Some(Ok(page(from))) else None
  {
    if k > 0 {
      Steps(k, size);
      ChainWindows(server, ranked, size, page, k - 1, from - size);
      FollowOn(server, ranked, size, page, k, from - size);
    }
  }

  lemma FollowOn(server: Server, ranked: seq<Hit>, size: nat, page: nat -> Response, k: nat, before: nat)
    requires Serves(server, ranked, size, page) && k >= 1
    requires Follow(server, k - 1) == if before <= |ranked| then Some(Ok(page(before))) else None
    ensures Follow(server, k) == if before + size <= |ranked| then Some(Ok(page(before + size))) else None
  {
    assert Leads(server, ranked, size, page, before, k);
  }

  function UpTo(hits: seq<Hit>, n: nat): seq<Hit> {
    if n >= |hits| then hits else hits[..n]
  }

  lemma WindowExtends(ranked: seq<Hit>, from: nat, size: nat)
    ensures UpTo(ranked, from) + Window(ranked, from, size) == UpTo(ranked, from + size)
  {
  }

  lemma {:induction false} ChainCollects(server: Server, ranked: seq<Hit>, size: nat, page: nat -> Response, k: nat,
                                         from: nat)
    requires Serves(server, ranked, size, page) && from == k * size
    ensures Collected(server, k) == UpTo(ranked, from)
  {
    if k > 0 {
      Steps(k, size);
      var before := from - size;
      ChainCollects(server, ranked, size, page, k - 1, before);
      ChainWindows(server, ranked, size, page, k - 1, before);
      assert Leads(server, ranked, size, page, before, k);
      WindowExtends(ranked, before, size);
    }
  }

  // ---------------------------------------------------------------- the pages of a query

  /** The page whose hits start at `from` in the ranking, with a token for its last hit exactly when it is full. */
  function PageAt(ranked: seq<Hit>, query: NormalizedQuery, encode: Tail -> string, page: int, from: nat): Response
    requires query.pageSize >= 1
  {
    var hits := Window(ranked, from, query.pageSize);
    var next := NextTail(hits, query.pageSize);
    Response(|ranked|, page, query.pageSize, hits, if next.Some? then Some(encode(next.value)) else None)
  }

  /** `encode` is `EncodeCursor` on the positions of these hits. */
  predicate Encodes(encode: Tail -> string, ranked: seq<Hit>) {
    forall h :: h in ranked ==> h.sort != [] && ValidTail(h.sort) && encode(h.sort) == EncodeCursor(h.sort)
  }

  function Encoder(): Tail -> string {
    (tail: Tail) => if ValidTail(tail) then EncodeCursor(tail) else ""
  }

  lemma FullWindow(ranked: seq<Hit>, from: nat, size: nat)
    requires size >= 1 && from <= |ranked|
    ensures |Window(ranked, from, size)| >= size <==> from + size <= |ranked|
    ensures from + size <= |ranked| ==>
      var hits := Window(ranked, from, size); hits[|hits| - 1] == ranked[from + size - 1]
  {
  }

  /** A window goes on exactly when it is full, behind its last hit. */
  lemma WindowGoesOn(ranked: seq<Hit>, from: nat, size: nat)
    requires size >= 1 && from <= |ranked| && forall h :: h in ranked ==> h.sort != []
    ensures NextTail(Window(ranked, from, size), size)
      == if from + size <= |ranked| then Some(ranked[from + size - 1].sort) else None
  {
    FullWindow(ranked, from, size);
  }

  /** The token of the hit before `from` leads to the page that starts there. */
  predicate LeadsOn(server: Server, ranked: seq<Hit>, query: NormalizedQuery, encode: Tail -> string, from: nat, i: nat)
    requires query.pageSize >= 1
  {
    1 <= from <= |ranked| ==>
      server(i, Some(encode(ranked[from - 1].sort))) == Ok(PageAt(ranked, query, encode, 1, from))
  }

  lemma NextStep(server: Server, ranked: seq<Hit>, query: NormalizedQuery, encode: Tail -> string,
                 page: nat -> Response, from: nat, i: nat)
    requires query.pageSize >= 1 && forall h :: h in ranked ==> h.sort != []
    requires forall n: nat :: page(n) == PageAt(ranked, query, encode, 1, n)
    requires LeadsOn(server, ranked, query, encode, from + query.pageSize, i)
    ensures Leads(server, ranked, query.pageSize, page, from, i)
  {
    if from <= |ranked| {
      WindowGoesOn(ranked, from, query.pageSize);
    }
  }

  lemma PagesServe(server: Server, ranked: seq<Hit>, query: NormalizedQuery, encode: Tail -> string,
                   page: nat -> Response)
    requires query.pageSize >= 1 && forall h :: h in ranked ==> h.sort != []
    requires forall n: nat :: page(n) == PageAt(ranked, query, encode, 1, n)
    requires server(0, None) == Ok(PageAt(ranked, query, encode, 1, 0))
    requires forall from: nat, i: nat :: LeadsOn(server, ranked, query, encode, from, i)
    ensures Serves(server, ranked, query.pageSize, page)
  {
    forall from: nat, i: nat ensures Leads(server, ranked, query.pageSize, page, from, i) {
      assert LeadsOn(server, ranked, query, encode, from + query.pageSize, i);
      NextStep(server, ranked, query, encode, page, from, i);
    }
  }

  lemma RankedEncodes(engine: Engine, index: Index, query: NormalizedQuery)
    requires engine.Lawful() && DistinctIds(index)
    ensures Encodes(Encoder(), RankedFor(engine, index, query))
  {
    RankedForIsSorted(engine, index, query);
  }

  lemma WindowEncodes(encode: Tail -> string, ranked: seq<Hit>, from: nat, size: nat)
    requires Encodes(encode, ranked)
    ensures var hits := Window(ranked, from, size);
      && (forall h :: h in hits ==> ValidTail(h.sort))
      && NextCursor(hits, size)
         == if NextTail(hits, size).Some? then Some(encode(NextTail(hits, size).value)) else None
  {
    var hits := Window(ranked, from, size);
    if NextTail(hits, size).Some? {
      assert hits[|hits| - 1] in ranked;
    }
  }

  /** Answered with a window of the ranking, a query is answered with that page. */
  lemma RespondsWith(engine: Engine, index: Index, query: NormalizedQuery, ranked: seq<Hit>, encode: Tail -> string,
                     from: nat)
    requires engine.Lawful() && query.pageSize >= 1 && Encodes(encode, ranked)
    requires Search(engine, index, query) == Ok(Page(Window(ranked, from, query.pageSize), |ranked|))
    ensures Respond(engine, index, query) == Ok(PageAt(ranked, query, encode, query.page, from))
  {
    WindowEncodes(encode, ranked, from, query.pageSize);
  }

  lemma NumberedIsPageAt(engine: Engine, index: Index, query: NormalizedQuery, encode: Tail -> string, k: nat,
                         from: nat)
    requires engine.Lawful() && query.pageSize >= 1 && query.cursor == None && from == k * query.pageSize
    requires Encodes(encode, RankedFor(engine, index, query))
    ensures Respond(engine, index, query.(page := k + 1))
      == Ok(PageAt(RankedFor(engine, index, query), query, encode, k + 1, from))
  {
    var numbered := query.(page := k + 1);
    NumberedPage(engine, index, numbered);
    RankedIgnoresWindow(engine, index, BodyAt(query, From(0)), BodyAt(numbered, From(0)));
    RespondsWith(engine, index, numbered, RankedFor(engine, index, query), encode, from);
  }

  lemma CursorLeadsOn(engine: Engine, index: Index, query: NormalizedQuery, encode: Tail -> string, from: nat, i: nat)
    requires engine.Lawful() && DistinctIds(index) && query.pageSize >= 1
    requires Encodes(encode, RankedFor(engine, index, query))
    ensures LeadsOn(ServerOf(engine, Unchanging(index), query), RankedFor(engine, index, query), query, encode, from, i)
  {
    var ranked := RankedFor(engine, index, query);
    if 1 <= from <= |ranked| {
      assert ranked[from - 1] in ranked;
      var cursored := query.(page := 1, cursor := Some(EncodeCursor(ranked[from - 1].sort)));
      RankedIgnoresWindow(engine, index, BodyAt(query, From(0)), BodyAt(cursored, From(0)));
      CursorPage(engine, index, cursored, from - 1);
      RespondsWith(engine, index, cursored, ranked, encode, from);
    }
  }

  lemma StartServed(engine: Engine, index: Index, query: NormalizedQuery, encode: Tail -> string)
    requires engine.Lawful() && query.pageSize >= 1 && query.cursor == None
    requires Encodes(encode, RankedFor(engine, index, query))
    ensures ServerOf(engine, Unchanging(index), query)(0, None)
      == Ok(PageAt(RankedFor(engine, index, query), query, encode, 1, 0))
  {
    NumberedIsPageAt(engine, index, query, encode, 0, 0);
    assert query.(page := 1, cursor := None) == query.(page := 0 + 1);
  }

  /** The token-following server of a query serves the windows of its ranking. */
  lemma QueryServes(engine: Engine, index: Index, query: NormalizedQuery, encode: Tail -> string,
                    page: nat -> Response)
    requires engine.Lawful() && DistinctIds(index) && query.pageSize >= 1 && query.cursor == None
    requires Encodes(encode, RankedFor(engine, index, query))
    requires forall n: nat :: page(n) == PageAt(RankedFor(engine, index, query), query, encode, 1, n)
    ensures Serves(ServerOf(engine, Unchanging(index), query), RankedFor(engine, index, query), query.pageSize, page)
  {
    var server, ranked := ServerOf(engine, Unchanging(index), query), RankedFor(engine, index, query);
    StartServed(engine, index, query, encode);
    forall from: nat, i: nat ensures LeadsOn(server, ranked, query, encode, from, i) {
      CursorLeadsOn(engine, index, query, encode, from, i);
    }
    PagesServe(server, ranked, query, encode, page);
  }

  /** The hits are those that stand at `from` in the ranking, as many as fit. */
  predicate ShowsFrom(hits: seq<Hit>, ranked: seq<Hit>, from: nat, size: nat) {
    && |hits| == (if from >= |ranked| then 0 else if from + size >= |ranked| then |ranked| - from else size)
    && forall j :: 0 <= j < |hits| ==> hits[j] == ranked[from + j]
  }

  /** A cursor exactly when the page is full, for its last hit. */
  predicate PointsOn(cursor: Option<string>, ranked: seq<Hit>, end: nat) {
    if 1 <= end <= |ranked|
    then ValidTail(ranked[end - 1].sort) && cursor == Some(EncodeCursor(ranked[end - 1].sort))
    else cursor.None?
  }

  /** What the response to a page says: how many hits there are in all, which page this is, its hits and its cursor. */
  predicate Reports(r: Response, ranked: seq<Hit>, page: int, size: nat, from: nat) {
    && r.total == |ranked| && r.page == page && r.pageSize == size
    && ShowsFrom(r.hits, ranked, from, size) && PointsOn(r.nextCursor, ranked, from + size)
  }

  lemma PageMeans(ranked: seq<Hit>, query: NormalizedQuery, encode: Tail -> string, page: int, from: nat)
    requires query.pageSize >= 1 && Encodes(encode, ranked)
    ensures Reports(PageAt(ranked, query, encode, page, from), ranked, page, query.pageSize, from)
  {
    WindowShows(ranked, from, query.pageSize);
    CursorMeans(ranked, encode, from, query.pageSize);
    PageParts(ranked, query, encode, page, from);
  }

  lemma WindowShows(ranked: seq<Hit>, from: nat, size: nat)
    ensures ShowsFrom(Window(ranked, from, size), ranked, from, size)
  {
  }

  lemma PageParts(ranked: seq<Hit>, query: NormalizedQuery, encode: Tail -> string, page: int, from: nat)
    requires query.pageSize >= 1
    requires ShowsFrom(Window(ranked, from, query.pageSize), ranked, from, query.pageSize)
    requires PointsOn(CursorAfter(ranked, encode, from, query.pageSize), ranked, from + query.pageSize)
    ensures Reports(PageAt(ranked, query, encode, page, from), ranked, page, query.pageSize, from)
  {
  }

  function CursorAfter(ranked: seq<Hit>, encode: Tail -> string, from: nat, size: nat): Option<string> {
    var next := NextTail(Window(ranked, from, size), size);
    if next.Some? then Some(encode(next.value)) else None
  }

  lemma CursorMeans(ranked: seq<Hit>, encode: Tail -> string, from: nat, size: nat)
    requires size >= 1 && Encodes(encode, ranked)
    ensures PointsOn(CursorAfter(ranked, encode, from, size), ranked, from + size)
  {
    if from <= |ranked| {
      WindowGoesOn(ranked, from, size);
      if from + size <= |ranked| {
        assert ranked[from + size - 1] in ranked;
      }
    }
  }

  /** A numbered page reports its part of the ranking. */
  lemma NumberedMeans(engine: Engine, index: Index, query: NormalizedQuery, k: nat)
    requires engine.Lawful() && DistinctIds(index) && query.pageSize >= 1 && query.cursor == None
    ensures 0 <= k * query.pageSize
    ensures var r := Respond(engine, index, query.(page := k + 1));
      r.Ok? && Reports(r.value, RankedFor(engine, index, query), k + 1, query.pageSize, k * query.pageSize)
  {
    RankedEncodes(engine, index, query);
    NotNegative(k, query.pageSize);
    NumberedIsPageAt(engine, index, query, Encoder(), k, k * query.pageSize);
    PageMeans(RankedFor(engine, index, query), query, Encoder(), k + 1, k * query.pageSize);
  }

  /**
   On an index that does not change the k-th token leads to the same page as page = k+1, token included. The chain
   reaches that page exactly when the k pages before it are full, and a numbered page beyond the chain is empty.
   */
  lemma CursorsFollowPages(engine: Engine, index: Index, query: NormalizedQuery, k: nat)
    requires engine.Lawful() && DistinctIds(index) && query.pageSize >= 1 && query.cursor == None
    ensures var server := ServerOf(engine, Unchanging(index), query);
      var numbered := Respond(engine, index, query.(page := k + 1));
      && (Follow(server, k).Some? <==> k * query.pageSize <= |RankedFor(engine, index, query)|)
      && numbered.Ok?
      && (match Follow(server, k)
          case Some(followed) => followed == Ok(numbered.value.(page := 1))
          case None => numbered.value.hits == [])
  {
    var ranked, encode := RankedFor(engine, index, query), Encoder();
    RankedEncodes(engine, index, query);
    NotNegative(k, query.pageSize);
    NumberedIsPageAt(engine, index, query, encode, k, k * query.pageSize);
    var page := (from: nat) => PageAt(ranked, query, encode, 1, from);
    QueryServes(engine, index, query, encode, page);
    ChainWindows(ServerOf(engine, Unchanging(index), query), ranked, query.pageSize, page, k, k * query.pageSize);
  }

  /**
   Following the tokens reads the whole ranking, each hit once and in order: after k responses the client has the
   first k pages of it, and all of it as soon as k pages cover it. The chain ends with the first response that is not
   full, which is empty when the page size divides the ranking.
   */
  lemma ChainReadsRanking(engine: Engine, index: Index, query: NormalizedQuery, k: nat)
    requires engine.Lawful() && DistinctIds(index) && query.pageSize >= 1 && query.cursor == None
    ensures 0 <= k * query.pageSize
    ensures var server, ranked := ServerOf(engine, Unchanging(index), query), RankedFor(engine, index, query);
      && Collected(server, k) == UpTo(ranked, k * query.pageSize)
      && (Follow(server, k).None? <==> |ranked| < k * query.pageSize)
  {
    var server, ranked := ServerOf(engine, Unchanging(index), query), RankedFor(engine, index, query);
    var encode := Encoder();
    RankedEncodes(engine, index, query);
    NotNegative(k, query.pageSize);
    var page := (from: nat) => PageAt(ranked, query, encode, 1, from);
    QueryServes(engine, index, query, encode, page);
    ChainCollects(server, ranked, query.pageSize, page, k, k * query.pageSize);
    ChainWindows(server, ranked, query.pageSize, page, k, k * query.pageSize);
  }
}
