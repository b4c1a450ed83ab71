/** Query translation in app/adapters/elasticsearch/adapter.py. */
module Adapter {
  import opened Wrappers
  import opened Text
  import opened Cursor
  import opened Query
  import opened SearchEngine

  /** `_parse_sort`: the `<field>_asc` / `<field>_desc` names, and always the id behind them. */
  function ParseSort(name: Option<string>): (clauses: seq<SortClause>)
    ensures |clauses| == 2 && clauses[1] == SortClause("_id", false)
  {
    var primary :=
      if !Truthy(name) || name.value == "relevance" then SortClause("_score", true)
      else if EndsWith(name.value, "_desc") then SortClause(name.value[..|name.value| - 5], true)
      else if EndsWith(name.value, "_asc") then SortClause(name.value[..|name.value| - 4], false)
      else SortClause(name.value, false);
    [primary, SortClause("_id", false)]
  }

  lemma Descending(field: string)
    ensures ParseSort(Some(field + "_desc"))[0] == SortClause(field, true)
  {
    var d := field + "_desc";
    assert d[|d| - 5..] == "_desc" && d[..|d| - 5] == field;
    assert d != "relevance" by { assert d[|d| - 5] == '_' && "relevance"[4] == 'v'; }
  }

  lemma Ascending(field: string)
    ensures ParseSort(Some(field + "_asc"))[0] == SortClause(field, false)
  {
    var a := field + "_asc";
    assert a[|a| - 4..] == "_asc" && a[..|a| - 4] == field;
    assert !EndsWith(a, "_desc") by {
      if |a| >= 5 {
        assert a[|a| - 5..][1] == a[|a| - 4] == '_' && "_desc"[1] == 'd';
      }
    }
    assert a != "relevance" by { assert a[|a| - 4] == '_' && "relevance"[5] == 'a'; }
  }

  /** A sort name and the clause it stands for determine each other. */
  lemma ParseSortNames(field: string)
    ensures ParseSort(Some(field + "_desc"))[0] == SortClause(field, true)
    ensures ParseSort(Some(field + "_asc"))[0] == SortClause(field, false)
  {
    Descending(field);
    Ascending(field);
  }

  /** Without a name, and for `relevance`, by score; any other name without a suffix is a field, ascending. */
  lemma ParseSortPlain(name: string)
    ensures forall n :: n in [None, Some(""), Some("relevance")] ==> ParseSort(n)[0] == SortClause("_score", true)
    ensures name !in ["", "relevance"] && !EndsWith(name, "_desc") && !EndsWith(name, "_asc") ==>
      ParseSort(Some(name))[0] == SortClause(name, false)
  {
  }

  function TermClauses(filters: seq<Filter>): seq<Clause> {
    if filters == [] then []
    else [Terms(filters[0].field, filters[0].values)] + TermClauses(filters[1..])
  }

  /** What the query selects: it does not mention the page, the size, the sort or the cursor. */
  function MustClauses(query: NormalizedQuery): seq<Clause> {
    if Truthy(query.q) then [SimpleQuery(query.q.value)] else [MatchAll]
  }

  function FlagClauses(query: NormalizedQuery): seq<Clause> {
    (if query.hasDigital.Some? then [Flag("has_digital", query.hasDigital.value)] else [])
    + (if query.hasIiif.Some? then [Flag("has_iiif", query.hasIiif.value)] else [])
  }

  function DateClauses(query: NormalizedQuery): seq<Clause> {
    (if Truthy(query.dateTo) then [AtMost("date.start", query.dateTo.value)] else [])
    + (if Truthy(query.dateFrom) then [AtLeast("date.end", query.dateFrom.value)] else [])
  }

  function FilterClauses(query: NormalizedQuery): seq<Clause> {
    TermClauses(query.filters) + FlagClauses(query) + DateClauses(query)
  }

  /** `_decode_cursor`, on whatever text a client sends. */
  type CursorReader = string -> Result<Tail>

  function StartOf(read: CursorReader, query: NormalizedQuery): Result<Position> {
    if Truthy(query.cursor) then
      match read(query.cursor.value)
      case Ok(tail) => Ok(After(tail))
      case Err(e) => Err(e)
    else Ok(From((query.page - 1) * query.pageSize))
  }

  /** The search body of a query: its clauses, its sort, and where in the ranking it starts. */
  function BodyOf(read: CursorReader, query: NormalizedQuery): Result<Body> {
    match StartOf(read, query)
    case Err(e) => Err(e)
    case Ok(position) =>
      Ok(Body(query.pageSize, MustClauses(query), FilterClauses(query), ParseSort(query.sort), position, query.facets))
  }

  lemma {:induction false} TermClausesSnoc(filters: seq<Filter>, f: Filter)
    ensures TermClauses(filters + [f]) == TermClauses(filters) + [Terms(f.field, f.values)]
  {
    if filters == [] {
      assert filters + [f] == [f];
    } else {
      assert (filters + [f])[1..] == filters[1..] + [f];
      TermClausesSnoc(filters[1..], f);
    }
  }

  /** The loop over the filters. */
  method CollectTerms(filters: seq<Filter>) returns (clauses: seq<Clause>)
    ensures clauses == TermClauses(filters)
  {
    clauses := [];
    for k := 0 to |filters|
      invariant clauses == TermClauses(filters[..k])
    {
      TermClausesSnoc(filters[..k], filters[k]);
      assert filters[..k + 1] == filters[..k] + [filters[k]];
      clauses := clauses + [Terms(filters[k].field, filters[k].values)];
    }
    assert filters[..|filters|] == filters;
  }

  /** The clause-building half of `translate_query`. */
  method CollectClauses(query: NormalizedQuery) returns (must: seq<Clause>, filterClauses: seq<Clause>)
    ensures must == MustClauses(query) && filterClauses == FilterClauses(query)
  {
    must := [];
    if Truthy(query.q) {
      must := must + [SimpleQuery(query.q.value)];
    }
    filterClauses := CollectTerms(query.filters);
    if query.hasDigital.Some? {
      filterClauses := filterClauses + [Flag("has_digital", query.hasDigital.value)];
    }
    if query.hasIiif.Some? {
      filterClauses := filterClauses + [Flag("has_iiif", query.hasIiif.value)];
    }
    assert filterClauses == TermClauses(query.filters) + FlagClauses(query);
    if Truthy(query.dateTo) {
      filterClauses := filterClauses + [AtMost("date.start", query.dateTo.value)];
    }
    if Truthy(query.dateFrom) {
      filterClauses := filterClauses + [AtLeast("date.end", query.dateFrom.value)];
    }
    if must == [] {
      must := [MatchAll];
    }
  }

  /** `translate_query`; a caller may leave the facets out and set another size. */
  method TranslateQuery(read: CursorReader, query: NormalizedQuery, includeAggs: bool, sizeOverride: Option<int>)
    returns (body: Result<Body>)
    ensures body == match BodyOf(read, query)
      case Err(e) => Err(e)
      case Ok(b) => Ok(b.(size := if sizeOverride.Some? then sizeOverride.value else query.pageSize,
                          aggs := if includeAggs then query.facets else []))
  {
    var must, filterClauses := CollectClauses(query);
    var size := if sizeOverride.Some? then sizeOverride.value else query.pageSize;
    var position := From((query.page - 1) * query.pageSize);
    if Truthy(query.cursor) {
      match read(query.cursor.value) {
        case Err(e) => return Err(e);
        case Ok(tail) => position := After(tail);
      }
    }
    var facets := if includeAggs then query.facets else [];
    body := Ok(Body(size, must, filterClauses, ParseSort(query.sort), position, facets));
  }

  /** `search`: one translated request to the engine. */
  function Search(engine: Engine, index: Index, query: NormalizedQuery): Result<Page> {
    match BodyOf(engine.readers.cursor, query)
    case Err(e) => Err(e)
    case Ok(body) => engine.Search(body, index)
  }

  /** Where the page after this one starts: behind the last hit, when the page is full. */
  function NextTail(hits: seq<Hit>, pageSize: int): Option<Tail> {
    if hits != [] && |hits| >= pageSize && hits[|hits| - 1].sort != [] then Some(hits[|hits| - 1].sort) else None
  }

  /** The token for it. */
  function NextCursor(hits: seq<Hit>, pageSize: int): Option<string>
    requires forall h :: h in hits ==> ValidTail(h.sort)
  {
    match NextTail(hits, pageSize)
    case None => None
    case Some(tail) => Some(EncodeCursor(tail))
  }

  // ---------------------------------------------------------------- what a query selects

  /** What a clause can ask of a record; dates are ordered by `notAfter`. */
  datatype Facts = Facts(
    answers: string -> bool,
    values: string -> set<string>,
    flag: string -> Option<bool>,
    date: string -> Option<string>,
    notAfter: (string, string) -> bool
  )

  /** When the engine finds that a clause holds of a record. */
  predicate Holds(c: Clause, x: Facts) {
    match c
    case MatchAll => true
    case SimpleQuery(text) => x.answers(text)
    case Terms(field, values) => exists v :: v in values && v in x.values(field)
    case Flag(field, on) => x.flag(field) == Some(on)
    case AtMost(field, bound) => x.date(field).Some? && x.notAfter(x.date(field).value, bound)
    case AtLeast(field, bound) => x.date(field).Some? && x.notAfter(bound, x.date(field).value)
  }

  predicate AllHold(clauses: seq<Clause>, x: Facts) {
    forall k :: 0 <= k < |clauses| ==> Holds(clauses[k], x)
  }

  predicate OneOf(f: Filter, x: Facts) {
    exists v :: v in f.values && v in x.values(f.field)
  }

  /**
   What a query asks for: its text, if there is one; for each filter one of its values; the flags it sets; and a record
   whose time from start to end overlaps the time from `date_from` to `date_to`, as far as these are given.
   */
  predicate Asks(query: NormalizedQuery, x: Facts) {
    && (query.q.Some? && query.q.value != "" ==> x.answers(query.q.value))
    && (forall k :: 0 <= k < |query.filters| ==> OneOf(query.filters[k], x))
    && (query.hasDigital.Some? ==> x.flag("has_digital") == query.hasDigital)
    && (query.hasIiif.Some? ==> x.flag("has_iiif") == query.hasIiif)
    && (query.dateTo.Some? && query.dateTo.value != "" ==>
          x.date("date.start").Some? && x.notAfter(x.date("date.start").value, query.dateTo.value))
    && (query.dateFrom.Some? && query.dateFrom.value != "" ==>
          x.date("date.end").Some? && x.notAfter(query.dateFrom.value, x.date("date.end").value))
  }

  lemma AllHoldJoin(a: seq<Clause>, b: seq<Clause>, x: Facts)
    ensures AllHold(a + b, x) <==> AllHold(a, x) && AllHold(b, x)
  {
    if AllHold(a + b, x) {
      forall k | 0 <= k < |a| ensures Holds(a[k], x) {
        assert (a + b)[k] == a[k];
      }
      forall k | 0 <= k < |b| ensures Holds(b[k], x) {
        assert (a + b)[|a| + k] == b[k];
      }
    }
  }

  lemma OneHolds(c: Clause, x: Facts)
    ensures AllHold([c], x) <==> Holds(c, x)
  {
    assert AllHold([c], x) ==> Holds([c][0], x);
  }

  lemma {:induction false} TermsHold(filters: seq<Filter>, x: Facts)
    ensures AllHold(TermClauses(filters), x) <==> forall k :: 0 <= k < |filters| ==> OneOf(filters[k], x)
  {
    if filters != [] {
      var rest := filters[1..];
      TermsHold(rest, x);
      OneHolds(Terms(filters[0].field, filters[0].values), x);
      AllHoldJoin([Terms(filters[0].field, filters[0].values)], TermClauses(rest), x);
      if forall k :: 0 <= k < |filters| ==> OneOf(filters[k], x) {
        forall k | 0 <= k < |rest| ensures OneOf(rest[k], x) {
          assert rest[k] == filters[k + 1];
        }
      }
      if (forall k :: 0 <= k < |rest| ==> OneOf(rest[k], x)) && OneOf(filters[0], x) {
        forall k | 0 <= k < |filters| ensures OneOf(filters[k], x) {
          assert k > 0 ==> filters[k] == rest[k - 1];
        }
      }
    }
  }

  lemma FlagsHold(query: NormalizedQuery, x: Facts)
    ensures AllHold(FlagClauses(query), x) <==> (
      && (query.hasDigital.Some? ==> x.flag("has_digital") == query.hasDigital)
      && (query.hasIiif.Some? ==> x.flag("has_iiif") == query.hasIiif))
  {
    var a := if query.hasDigital.Some? then [Flag("has_digital", query.hasDigital.value)] else [];
    var b := if query.hasIiif.Some? then [Flag("has_iiif", query.hasIiif.value)] else [];
    AllHoldJoin(a, b, x);
    if query.hasDigital.Some? {
      OneHolds(Flag("has_digital", query.hasDigital.value), x);
    }
    if query.hasIiif.Some? {
      OneHolds(Flag("has_iiif", query.hasIiif.value), x);
    }
  }

  lemma DatesHold(query: NormalizedQuery, x: Facts)
    ensures AllHold(DateClauses(query), x) <==> (
      && (query.dateTo.Some? && query.dateTo.value != "" ==>
            x.date("date.start").Some? && x.notAfter(x.date("date.start").value, query.dateTo.value))
      && (query.dateFrom.Some? && query.dateFrom.value != "" ==>
            x.date("date.end").Some? && x.notAfter(query.dateFrom.value, x.date("date.end").value)))
  {
    var a := if Truthy(query.dateTo) then [AtMost("date.start", query.dateTo.value)] else [];
    var b := if Truthy(query.dateFrom) then [AtLeast("date.end", query.dateFrom.value)] else [];
    AllHoldJoin(a, b, x);
    if Truthy(query.dateTo) {
      OneHolds(AtMost("date.start", query.dateTo.value), x);
    }
    if Truthy(query.dateFrom) {
      OneHolds(AtLeast("date.end", query.dateFrom.value), x);
    }
  }

  /** All clauses of a query hold of a record exactly when it is what the query asks for. */
  lemma QuerySelects(query: NormalizedQuery, x: Facts)
    ensures AllHold(MustClauses(query), x) && AllHold(FilterClauses(query), x) <==> Asks(query, x)
    ensures MustClauses(query)
      == [if query.q.Some? && query.q.value != "" then SimpleQuery(query.q.value) else MatchAll]
  {
    OneHolds(if Truthy(query.q) then SimpleQuery(query.q.value) else MatchAll, x);
    AllHoldJoin(TermClauses(query.filters) + FlagClauses(query), DateClauses(query), x);
    AllHoldJoin(TermClauses(query.filters), FlagClauses(query), x);
    TermsHold(query.filters, x);
    FlagsHold(query, x);
    DatesHold(query, x);
  }

  /** The search body of a query, whoever builds it: what it selects, how it is sorted and where it starts. */
  lemma BodyMeans(read: CursorReader, query: NormalizedQuery, x: Facts)
    ensures match BodyOf(read, query)
      case Err(code) => query.cursor.Some? && query.cursor.value != "" && read(query.cursor.value) == Err(code)
      case Ok(body) =>
        && (AllHold(body.must, x) && AllHold(body.filters, x) <==> Asks(query, x))
        && |body.sort| == 2 && body.sort[0] == ParseSort(query.sort)[0] && body.sort[1] == SortClause("_id", false)
        && body.size == query.pageSize && body.aggs == query.facets
        && (if query.cursor.Some? && query.cursor.value != ""
            then read(query.cursor.value).Ok? && body.position == After(read(query.cursor.value).value)
            else body.position == From((query.page - 1) * query.pageSize))
  {
    QuerySelects(query, x);
  }

  /** With a start that is not after its end, a record meets both bounds exactly when some time lies in both. */
  lemma BoundsOverlap(start: string, end: string, from: string, to: string, notAfter: (string, string) -> bool)
    requires (forall a, b :: notAfter(a, b) || notAfter(b, a))
    requires forall a, b, c :: notAfter(a, b) && notAfter(b, c) ==> notAfter(a, c)
    requires notAfter(start, end) && notAfter(from, to)
    ensures notAfter(start, to) && notAfter(from, end)
      <==> exists t :: notAfter(start, t) && notAfter(t, end) && notAfter(from, t) && notAfter(t, to)
  {
    if notAfter(start, to) && notAfter(from, end) {
      var t := if notAfter(start, from) then from else start;
      assert notAfter(start, t) && notAfter(t, end) && notAfter(from, t) && notAfter(t, to);
    }
  }

  // ---------------------------------------------------------------- one page in the ranking

  function BodyAt(query: NormalizedQuery, position: Position): Body {
    Body(query.pageSize, MustClauses(query), FilterClauses(query), ParseSort(query.sort), position, query.facets)
  }

  /** The hits a query ranks, wherever its page starts. */
  function RankedFor(engine: Engine, index: Index, query: NormalizedQuery): seq<Hit> {
    engine.Ranked(BodyAt(query, From(0)), index)
  }

  lemma {:induction false} RankedIgnoresWindow(engine: Engine, index: Index, b: Body, c: Body)
    requires b.sort != [] && b.must == c.must && b.filters == c.filters && b.sort == c.sort
    ensures engine.Ranked(b, index) == engine.Ranked(c, index)
  {
    if index != [] {
      RankedIgnoresWindow(engine, index[1..], b, c);
    }
  }

  lemma RankedForIsSorted(engine: Engine, index: Index, query: NormalizedQuery)
    requires engine.Lawful() && DistinctIds(index)
    ensures engine.Sorted(ParseSort(query.sort)[0].desc, RankedFor(engine, index, query))
    ensures forall h :: h in RankedFor(engine, index, query) ==> ValidTail(h.sort) && engine.IsKey(h.sort)
  {
    engine.RankedSorted(BodyAt(query, From(0)), index);
  }

  /** Without a cursor, a query returns its numbered window of the ranking. */
  lemma NumberedPage(engine: Engine, index: Index, query: NormalizedQuery)
    requires !Truthy(query.cursor) && query.pageSize >= 0 && query.page >= 1
    ensures (query.page - 1) * query.pageSize >= 0
    ensures var ranked := RankedFor(engine, index, query);
      Search(engine, index, query)
        == Ok(Page(Window(ranked, (query.page - 1) * query.pageSize, query.pageSize), |ranked|))
  {
    RankedIgnoresWindow(engine, index, BodyAt(query, From(0)),
                        BodyOf(engine.readers.cursor, query).value);
    assert (query.page - 1) * query.pageSize >= 0;
  }

  /** With the cursor of the k-th ranked hit, it returns the window that starts right behind that hit. */
  lemma CursorPage(engine: Engine, index: Index, query: NormalizedQuery, k: nat)
    requires engine.Lawful() && DistinctIds(index) && query.pageSize >= 0
    requires k < |RankedFor(engine, index, query)|
    requires var h := RankedFor(engine, index, query)[k];
      ValidTail(h.sort) && query.cursor == Some(EncodeCursor(h.sort))
    ensures var ranked := RankedFor(engine, index, query);
      Search(engine, index, query) == Ok(Page(Window(ranked, k + 1, query.pageSize), |ranked|))
  {
    var ranked := RankedFor(engine, index, query);
    var tail := ranked[k].sort;
    assert ranked[k] in ranked;
    CursorRoundTrip(tail);
    assert engine.readers.cursor(EncodeCursor(tail)) == Ok(tail);
    assert BodyOf(engine.readers.cursor, query) == Ok(BodyAt(query, After(tail)));
    SearchAfter(engine, index, query, k);
  }

  lemma SearchAfter(engine: Engine, index: Index, query: NormalizedQuery, k: nat)
    requires engine.Lawful() && DistinctIds(index) && query.pageSize >= 0
    requires k < |RankedFor(engine, index, query)|
    ensures var ranked := RankedFor(engine, index, query);
      engine.Search(BodyAt(query, After(ranked[k].sort)), index)
        == Ok(Page(Window(ranked, k + 1, query.pageSize), |ranked|))
  {
    var body := BodyAt(query, After(RankedFor(engine, index, query)[k].sort));
    RankedIgnoresWindow(engine, index, BodyAt(query, From(0)), body);
    engine.SearchAfterHit(body, index, k);
  }
}
