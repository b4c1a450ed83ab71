/** The normalized query (app/schemas/query.py). `filters` is a dict: its keys are distinct, in insertion order. */
module Query {
  import opened Wrappers

  datatype Filter = Filter(field: string, values: seq<string>)

  datatype NormalizedQuery = NormalizedQuery(
    q: Option<string>,
    page: int,
    pageSize: int,
    sort: Option<string>,
    facets: seq<string>,
    includeFields: seq<string>,
    filters: seq<Filter>,
    dateFrom: Option<string>,
    dateTo: Option<string>,
    hasDigital: Option<bool>,
    hasIiif: Option<bool>,
    cursor: Option<string>
  ) {
    predicate WellFormed() {
      forall i, j :: 0 <= i < j < |filters| ==> filters[i].field != filters[j].field
    }
  }

  /** Python truthiness of an optional string */
  predicate Truthy(s: Option<string>) {
    s.Some? && s.value != ""
  }
}
