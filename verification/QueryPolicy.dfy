/** Admission of query parameters (app/query_policy/engine.py, `parse`). */
module QueryPolicy {
  import opened Wrappers
  import opened Text
  import opened Decimal
  import opened Query
  import Adapter

  /** One `name=value` of the query string, in order of appearance. */
  datatype Param = Param(name: string, value: string)

  datatype Policy = Policy(
    allowEmptyQuery: bool,
    pageSizeDefault: int,
    pageSizeMax: int,
    maxDepth: int,
    maxFacets: int,
    allowedSorts: seq<string>,
    allowedFacets: seq<string>,
    allowedIncludeFields: seq<string>
  )

  const FILTER_PARAMS: set<string> := {"type", "collection", "language", "institution", "subject"}
  const ALLOWED_PARAMS: set<string> := FILTER_PARAMS + {
    "q", "page", "page_size", "sort", "facet", "include_fields", "format", "cursor",
    "date_from", "date_to", "has_digital", "has_iiif"}

  const MAX_Q_LENGTH: nat := 512
  const MAX_FILTER_VALUES: nat := 50
  const MAX_FILTER_VALUE_LENGTH: nat := 256
  const MAX_INCLUDE_FIELDS: nat := 20

  /** All values of a parameter. */
  function GetAll(params: seq<Param>, name: string): seq<string> {
    if params == [] then []
    else (if params[0].name == name then [params[0].value] else []) + GetAll(params[1..], name)
  }

  /** A repeated parameter counts with its last value. */
  function Get(params: seq<Param>, name: string): Option<string> {
    var all := GetAll(params, name);
    if all == [] then None else Some(all[|all| - 1])
  }

  /** A run of digits, with the sign it has in front. */
  function Digits(s: string, sign: int): Option<int> {
    if s != "" && AllDigits(s) then Some(sign * ValueOf(s)) else None
  }

  /** `int(text)` on ASCII digits with an optional sign, blanks around it allowed. */
  function ParseInt(text: string): Option<int> {
    var t := Strip(text);
    if t == "" then None
    else if t[0] == '-' then Digits(t[1..], -1)
    else if t[0] == '+' then Digits(t[1..], 1)
    else Digits(t, 1)
  }

  function IntParam(params: seq<Param>, name: string, default: int): Option<int> {
    match Get(params, name) { case None => Some(default) case Some(text) => ParseInt(text) }
  }

  function Lower(s: string): string {
    if s == [] then []
    else [if 'A' <= s[0] <= 'Z' then (s[0] as int + 32) as char else s[0]] + Lower(s[1..])
  }

  /** Absent, a recognized yes or no, or an error. */
  function ParseBool(value: Option<string>): Result<Option<bool>> {
    if value.None? then Ok(None)
    else
      var normalized := Lower(Strip(value.value));
      if normalized in ["true", "1", "yes", "on"] then Ok(Some(true))
      else if normalized in ["false", "0", "no", "off"] then Ok(Some(false))
      else Err("invalid_parameter")
  }

  function NonEmpty(parts: seq<string>): seq<string> {
    if parts == [] then []
    else (if parts[0] != "" then [parts[0]] else []) + NonEmpty(parts[1..])
  }

  function IncludeFields(params: seq<Param>): seq<string> {
    match Get(params, "include_fields") { case None => [] case Some(text) => NonEmpty(Split(text, ',')) }
  }

  function CursorOf(params: seq<Param>): Option<string> {
    if Truthy(Get(params, "cursor")) then Get(params, "cursor") else None
  }

  function FilterOf(params: seq<Param>, name: string): seq<Filter> {
    var values := GetAll(params, name);
    if values == [] then [] else [Filter(name, values)]
  }

  /** The filters dict, filled by visiting the filter parameters in the given order. */
  function FiltersOf(params: seq<Param>, order: seq<string>): seq<Filter> {
    if order == [] then [] else FiltersOf(params, order[..|order| - 1]) + FilterOf(params, order[|order| - 1])
  }

  predicate FilterFits(params: seq<Param>, name: string) {
    var values := GetAll(params, name);
    |values| <= MAX_FILTER_VALUES && forall v :: v in values ==> |v| <= MAX_FILTER_VALUE_LENGTH
  }

  // ---------------------------------------------------------------- what a request must satisfy

  predicate NamesKnown(params: seq<Param>) {
    forall k :: 0 <= k < |params| ==> params[k].name in ALLOWED_PARAMS
  }

  predicate QueryGiven(policy: Policy, params: seq<Param>) {
    policy.allowEmptyQuery || Truthy(Get(params, "q"))
  }

  predicate QueryShort(params: seq<Param>) {
    Get(params, "q").Some? ==> |Get(params, "q").value| <= MAX_Q_LENGTH
  }

  function PageOf(params: seq<Param>): Option<int> {
    IntParam(params, "page", 1)
  }

  function PageSizeOf(policy: Policy, params: seq<Param>): Option<int> {
    IntParam(params, "page_size", policy.pageSizeDefault)
  }

  predicate NumbersRead(policy: Policy, params: seq<Param>) {
    PageOf(params).Some? && PageSizeOf(policy, params).Some?
  }

  predicate PagingFits(policy: Policy, params: seq<Param>) {
    && NumbersRead(policy, params)
    && PageOf(params).value >= 1 && 1 <= PageSizeOf(policy, params).value <= policy.pageSizeMax
  }

  /** A cursor lifts the depth limit. */
  predicate DepthFits(policy: Policy, params: seq<Param>) {
    && NumbersRead(policy, params)
    && (CursorOf(params).None? ==> PageOf(params).value * PageSizeOf(policy, params).value <= policy.maxDepth)
  }

  predicate SortAllowed(policy: Policy, params: seq<Param>) {
    Truthy(Get(params, "sort")) ==> Get(params, "sort").value in policy.allowedSorts
  }

  predicate FacetsFit(policy: Policy, params: seq<Param>) {
    |GetAll(params, "facet")| <= policy.maxFacets
  }

  predicate FacetsAllowed(policy: Policy, params: seq<Param>) {
    forall f :: f in GetAll(params, "facet") ==> f in policy.allowedFacets
  }

  predicate FieldsFit(params: seq<Param>) {
    |IncludeFields(params)| <= MAX_INCLUDE_FIELDS
  }

  predicate FieldsAllowed(policy: Policy, params: seq<Param>) {
    forall f :: f in IncludeFields(params) ==> f in policy.allowedIncludeFields
  }

  predicate FiltersFit(params: seq<Param>) {
    forall name :: name in FILTER_PARAMS ==> FilterFits(params, name)
  }

  predicate FlagsRead(params: seq<Param>) {
    ParseBool(Get(params, "has_digital")).Ok? && ParseBool(Get(params, "has_iiif")).Ok?
  }

  /** The request can be read at all: known names, numbers and flags. */
  predicate Readable(policy: Policy, params: seq<Param>) {
    NamesKnown(params) && NumbersRead(policy, params) && FlagsRead(params)
  }

  /** Everything up to the depth limit is in order. */
  predicate PagingAdmissible(policy: Policy, params: seq<Param>) {
    && NamesKnown(params) && QueryGiven(policy, params) && QueryShort(params)
    && PagingFits(policy, params) && DepthFits(policy, params)
  }

  /** Every parameter is acceptable: the condition a caller can check before the request. */
  predicate Admissible(policy: Policy, params: seq<Param>) {
    && PagingAdmissible(policy, params)
    && SortAllowed(policy, params) && FacetsFit(policy, params) && FacetsAllowed(policy, params)
    && FieldsFit(params) && FieldsAllowed(policy, params)
    && FiltersFit(params) && FlagsRead(params)
  }

  predicate IsFilterOrder(order: seq<string>) {
    && (forall name :: name in order ==> name in FILTER_PARAMS)
    && (forall name :: name in FILTER_PARAMS ==> name in order)
    && forall i, j :: 0 <= i < j < |order| ==> order[i] != order[j]
  }

  lemma {:induction false} FiltersWellFormed(params: seq<Param>, order: seq<string>)
    requires forall i, j :: 0 <= i < j < |order| ==> order[i] != order[j]
    ensures forall f :: f in FiltersOf(params, order) <==>
      f.field in order && f.values == GetAll(params, f.field) && f.values != []
    ensures forall i, j :: 0 <= i < j < |FiltersOf(params, order)| ==>
      FiltersOf(params, order)[i].field != FiltersOf(params, order)[j].field
  {
    if order != [] {
      var init, last := order[..|order| - 1], order[|order| - 1];
      assert order == init + [last];
      FiltersWellFormed(params, init);
      var done := FiltersOf(params, init);
      forall k | 0 <= k < |done| ensures done[k].field != last {
        assert done[k] in done;
      }
    }
  }

  predicate FilterWithin(f: Filter) {
    && f.field in FILTER_PARAMS && 1 <= |f.values| <= 50
    && forall v :: v in f.values ==> |v| <= 256
  }

  predicate PagingWithin(policy: Policy, query: NormalizedQuery) {
    && 1 <= query.page && 1 <= query.pageSize <= policy.pageSizeMax
    && (query.cursor == None ==> query.page * query.pageSize <= policy.maxDepth)
    && (query.q.Some? ==> |query.q.value| <= 512)
    && (!policy.allowEmptyQuery ==> Truthy(query.q))
  }

  predicate ListsWithin(policy: Policy, query: NormalizedQuery) {
    && (Truthy(query.sort) ==> query.sort.value in policy.allowedSorts)
    && |query.facets| <= policy.maxFacets && (forall f :: f in query.facets ==> f in policy.allowedFacets)
    && |query.includeFields| <= 20
    && (forall f :: f in query.includeFields ==> f in policy.allowedIncludeFields)
  }

  /** What an admitted query promises the backend. */
  predicate WithinCaps(policy: Policy, query: NormalizedQuery) {
    && PagingWithin(policy, query) && ListsWithin(policy, query)
    && query.cursor != Some("") && query.WellFormed()
    && forall f :: f in query.filters ==> FilterWithin(f)
  }

  /** The loop over the filter parameters, in whatever order the Python set yields them. */
  method CollectFilters(params: seq<Param>, order: seq<string>) returns (r: Result<seq<Filter>>)
    ensures r.Ok? <==> forall name :: name in order ==> FilterFits(params, name)
    ensures r == if r.Ok? then Ok(FiltersOf(params, order)) else Err("invalid_parameter")
  {
    var filters: seq<Filter> := [];
    for k := 0 to |order|
      invariant filters == FiltersOf(params, order[..k])
      invariant forall name :: name in order[..k] ==> FilterFits(params, name)
    {
      var name := order[k];
      assert order[..k + 1] == order[..k] + [name] && name in order;
      var values := GetAll(params, name);
      if values != [] {
        if |values| > MAX_FILTER_VALUES || exists v :: v in values && |v| > MAX_FILTER_VALUE_LENGTH {
          return Err("invalid_parameter");
        }
        filters := filters + [Filter(name, values)];
      }
    }
    assert order[..|order|] == order;
    r := Ok(filters);
  }

  function QueryOf(policy: Policy, params: seq<Param>, filters: seq<Filter>): NormalizedQuery
    requires Readable(policy, params)
  {
    NormalizedQuery(
      Get(params, "q"), PageOf(params).value, PageSizeOf(policy, params).value, Get(params, "sort"),
      GetAll(params, "facet"), IncludeFields(params), filters, Get(params, "date_from"), Get(params, "date_to"),
      ParseBool(Get(params, "has_digital")).value, ParseBool(Get(params, "has_iiif")).value, CursorOf(params))
  }

  /** The first checks of `parse`, up to the depth limit: the error code of the first that fails. */
  method CheckPaging(policy: Policy, params: seq<Param>) returns (refusal: Option<string>)
    ensures refusal.None? <==> PagingAdmissible(policy, params)
    ensures refusal == Some("missing_parameter") <==> NamesKnown(params) && !QueryGiven(policy, params)
    ensures refusal == Some("unsupported_operation") <==> (
      && NamesKnown(params) && QueryGiven(policy, params) && QueryShort(params)
      && PagingFits(policy, params) && !DepthFits(policy, params))
    ensures refusal.Some? ==> refusal.value in ["invalid_parameter", "missing_parameter", "unsupported_operation"]
  {
    if exists k :: 0 <= k < |params| && params[k].name !in ALLOWED_PARAMS {
      return Some("invalid_parameter");
    }
    var q := Get(params, "q");
    if !Truthy(q) && !policy.allowEmptyQuery {
      return Some("missing_parameter");
    }
    if q.Some? && |q.value| > MAX_Q_LENGTH {
      return Some("invalid_parameter");
    }
    var page, pageSize := IntParam(params, "page", 1), IntParam(params, "page_size", policy.pageSizeDefault);
    if page.None? || pageSize.None? {
      return Some("invalid_parameter");
    }
    if page.value < 1 || pageSize.value < 1 {
      return Some("invalid_parameter");
    }
    if pageSize.value > policy.pageSizeMax {
      return Some("invalid_parameter");
    }
    var requestedDepth := page.value * pageSize.value;
    if CursorOf(params).None? && requestedDepth > policy.maxDepth {
      return Some("unsupported_operation");
    }
    refusal := None;
  }

  /** The rest of them: sort, facets and fields. */
  method CheckLists(policy: Policy, params: seq<Param>) returns (refusal: Option<string>)
    ensures refusal.None? <==> (
      && SortAllowed(policy, params) && FacetsFit(policy, params) && FacetsAllowed(policy, params)
      && FieldsFit(params) && FieldsAllowed(policy, params))
    ensures refusal == Some("forbidden") <==> (
      || !SortAllowed(policy, params)
      || (FacetsFit(policy, params) && !FacetsAllowed(policy, params))
      || (FacetsFit(policy, params) && FieldsFit(params) && !FieldsAllowed(policy, params)))
    ensures refusal.Some? ==> refusal.value in ["invalid_parameter", "forbidden"]
  {
    var sort := Get(params, "sort");
    if Truthy(sort) && sort.value !in policy.allowedSorts {
      return Some("forbidden");
    }
    var facets := GetAll(params, "facet");
    if |facets| > policy.maxFacets {
      return Some("invalid_parameter");
    }
    if exists f :: f in facets && f !in policy.allowedFacets {
      return Some("forbidden");
    }
    var includeFields := IncludeFields(params);
    if |includeFields| > MAX_INCLUDE_FIELDS {
      return Some("invalid_parameter");
    }
    if exists f :: f in includeFields && f !in policy.allowedIncludeFields {
      return Some("forbidden");
    }
    refusal := None;
  }

  /** All of them: the early exits of `parse` up to the filters. */
  method CheckParams(policy: Policy, params: seq<Param>) returns (refusal: Option<string>)
    ensures refusal.None? <==> (
      && PagingAdmissible(policy, params)
      && SortAllowed(policy, params) && FacetsFit(policy, params) && FacetsAllowed(policy, params)
      && FieldsFit(params) && FieldsAllowed(policy, params))
    ensures refusal == Some("missing_parameter") <==> NamesKnown(params) && !QueryGiven(policy, params)
    ensures refusal == Some("unsupported_operation") <==> (
      && NamesKnown(params) && QueryGiven(policy, params) && QueryShort(params)
      && PagingFits(policy, params) && !DepthFits(policy, params))
    ensures refusal == Some("forbidden") <==> (
      && PagingAdmissible(policy, params)
      && (|| !SortAllowed(policy, params)
          || (FacetsFit(policy, params) && !FacetsAllowed(policy, params))
          || (FacetsFit(policy, params) && FieldsFit(params) && !FieldsAllowed(policy, params))))
    ensures refusal.Some? ==>
      refusal.value in ["invalid_parameter", "missing_parameter", "unsupported_operation", "forbidden"]
  {
    refusal := CheckPaging(policy, params);
    if refusal.None? {
      refusal := CheckLists(policy, params);
    }
  }

  /**
   `parse`. A request is admitted exactly when every condition holds, and the error code tells which kind failed. The
   filter parameters sit in a Python set, so the loop visits them in an arbitrary order; whatever it is, the same
   requests are admitted.
   */
  method Parse(policy: Policy, params: seq<Param>, order: seq<string>) returns (r: Result<NormalizedQuery>)
    requires IsFilterOrder(order)
    ensures r.Ok? <==> Admissible(policy, params)
    ensures r.Ok? ==> r.value == QueryOf(policy, params, FiltersOf(params, order))
    ensures r == Err("missing_parameter") <==> NamesKnown(params) && !QueryGiven(policy, params)
    ensures r == Err("unsupported_operation") <==> (
      && NamesKnown(params) && QueryGiven(policy, params) && QueryShort(params)
      && PagingFits(policy, params) && !DepthFits(policy, params))
    ensures r == Err("forbidden") <==> (
      && PagingAdmissible(policy, params)
      && (|| !SortAllowed(policy, params)
          || (FacetsFit(policy, params) && !FacetsAllowed(policy, params))
          || (FacetsFit(policy, params) && FieldsFit(params) && !FieldsAllowed(policy, params))))
    ensures r.Err? ==> r.code in ["invalid_parameter", "missing_parameter", "unsupported_operation", "forbidden"]
  {
    var refusal := CheckParams(policy, params);
    if refusal.Some? {
      return Err(refusal.value);
    }
    var filters := CollectFilters(params, order);
    if filters.Err? {
      return Err("invalid_parameter");
    }
    var hasDigital := ParseBool(Get(params, "has_digital"));
    if hasDigital.Err? {
      return Err("invalid_parameter");
    }
    var hasIiif := ParseBool(Get(params, "has_iiif"));
    if hasIiif.Err? {
      return Err("invalid_parameter");
    }
    r := Ok(QueryOf(policy, params, filters.value));
  }

  /** The filters a request collects are within the caps exactly when each filter parameter is. */
  lemma FiltersFitIff(params: seq<Param>, order: seq<string>)
    requires IsFilterOrder(order)
    ensures FiltersFit(params) <==> forall f :: f in FiltersOf(params, order) ==> FilterWithin(f)
  {
    FiltersWellFormed(params, order);
    if forall f :: f in FiltersOf(params, order) ==> FilterWithin(f) {
      forall name | name in FILTER_PARAMS ensures FilterFits(params, name) {
        assert GetAll(params, name) != [] ==> Filter(name, GetAll(params, name)) in FiltersOf(params, order);
      }
    }
    if FiltersFit(params) {
      forall f | f in FiltersOf(params, order) ensures FilterWithin(f) {
        assert FilterFits(params, f.field);
      }
    }
  }

  lemma CursorNotEmpty(params: seq<Param>)
    ensures CursorOf(params) != Some("")
  {
  }

  lemma PagingIff(policy: Policy, params: seq<Param>, filters: seq<Filter>)
    requires Readable(policy, params)
    ensures PagingAdmissible(policy, params) <==> PagingWithin(policy, QueryOf(policy, params, filters))
  {
  }

  lemma ListsIff(policy: Policy, params: seq<Param>, filters: seq<Filter>)
    requires Readable(policy, params)
    ensures ListsWithin(policy, QueryOf(policy, params, filters)) <==> (
      && SortAllowed(policy, params) && FacetsFit(policy, params) && FacetsAllowed(policy, params)
      && FieldsFit(params) && FieldsAllowed(policy, params))
  {
  }

  /**
   A readable request is admitted exactly when its query is within the caps of the profile: nothing beyond them gets
   through, however the filters are collected, and nothing within them is refused.
   */
  lemma AdmittedIffWithinCaps(policy: Policy, params: seq<Param>, order: seq<string>)
    requires IsFilterOrder(order) && Readable(policy, params)
    ensures Admissible(policy, params) <==> WithinCaps(policy, QueryOf(policy, params, FiltersOf(params, order)))
  {
    FiltersWellFormed(params, order);
    FiltersFitIff(params, order);
    CursorNotEmpty(params);
    PagingIff(policy, params, FiltersOf(params, order));
    ListsIff(policy, params, FiltersOf(params, order));
  }

  /** An admitted query without a cursor never reaches past the depth limit of the profile. */
  lemma DepthBound(policy: Policy, read: Adapter.CursorReader, query: NormalizedQuery)
    requires WithinCaps(policy, query) && query.cursor == None
    ensures var body := Adapter.BodyOf(read, query);
      && body.Ok? && body.value.position.From?
      && body.value.position.n >= 0 && body.value.size >= 1
      && body.value.position.n + body.value.size <= policy.maxDepth
  {
    assert (query.page - 1) * query.pageSize + query.pageSize == query.page * query.pageSize;
    assert (query.page - 1) * query.pageSize >= 0;
  }
}
