/** `compute_cache_key` (app/query_policy/engine.py): the canonical JSON of the query, then its digest. */
module CacheKey {
  import opened Wrappers
  import opened Json
  import opened CanonicalJson
  import opened Query
  import QueryPolicy

  function OptStr(s: Option<string>): Value {
    if s.Some? then Str(s.value) else Null
  }

  function OptBool(b: Option<bool>): Value {
    if b.Some? then Bool(b.value) else Null
  }

  function Strings(ss: seq<string>): Value {
    Arr(seq(|ss|, k requires 0 <= k < |ss| => Str(ss[k])))
  }

  function FilterMembers(filters: seq<Filter>): seq<Member> {
    seq(|filters|, k requires 0 <= k < |filters| => Member(filters[k].field, Strings(filters[k].values)))
  }

  /** The fields in declaration order, with the given value for `filters`. */
  function Fields(nq: NormalizedQuery, filters: Value): seq<Member> {
    [Member("q", OptStr(nq.q)),
     Member("page", Int(nq.page)),
     Member("page_size", Int(nq.pageSize)),
     Member("sort", OptStr(nq.sort)),
     Member("facets", Strings(nq.facets)),
     Member("include_fields", Strings(nq.includeFields)),
     Member("filters", filters),
     Member("date_from", OptStr(nq.dateFrom)),
     Member("date_to", OptStr(nq.dateTo)),
     Member("has_digital", OptBool(nq.hasDigital)),
     Member("has_iiif", OptBool(nq.hasIiif)),
     Member("cursor", OptStr(nq.cursor))]
  }

  /** `model_dump`: the filters in insertion order. */
  function ModelDump(nq: NormalizedQuery): Value {
    Obj(Fields(nq, Obj(FilterMembers(nq.filters))))
  }

  /** `json.dumps(nq.model_dump(), sort_keys=True)` */
  function Payload(nq: NormalizedQuery): string {
    CanonicalDumps(ModelDump(nq))
  }

  /** Equal as Python objects: every field alike, the filters as a map. */
  ghost predicate SameQuery(a: NormalizedQuery, b: NormalizedQuery) {
    && a.(filters := []) == b.(filters := [])
    && forall f :: f in a.filters <==> f in b.filters
  }

  lemma FieldsDistinct(nq: NormalizedQuery, filters: Value)
    ensures DistinctKeys(Fields(nq, filters))
  {
    var ms := Fields(nq, filters);
    assert |ms[0].key| == 1 && |ms[1].key| == 4 && |ms[2].key| == 9 && |ms[3].key| == 4 && |ms[4].key| == 6
      && |ms[5].key| == 14 && |ms[6].key| == 7 && |ms[7].key| == 9 && |ms[8].key| == 7 && |ms[9].key| == 11
      && |ms[10].key| == 8 && |ms[11].key| == 6;
    assert ms[1].key[0] == 'p' && ms[3].key[0] == 's' && ms[2].key[0] == 'p' && ms[7].key[0] == 'd'
      && ms[4].key[0] == 'f' && ms[11].key[0] == 'c' && ms[6].key[0] == 'f' && ms[8].key[0] == 'd';
  }

  predicate Says(nq: NormalizedQuery, key: string, value: Value) {
    Member(key, value) in Fields(nq, Obj(FilterMembers(nq.filters)))
  }

  /** Each field of the query stands once in the dump, under its own name. */
  lemma DumpMeans(nq: NormalizedQuery)
    ensures ModelDump(nq).Obj? && |ModelDump(nq).members| == 12 && DistinctKeys(ModelDump(nq).members)
    ensures Says(nq, "q", OptStr(nq.q)) && Says(nq, "sort", OptStr(nq.sort)) && Says(nq, "cursor", OptStr(nq.cursor))
    ensures Says(nq, "date_from", OptStr(nq.dateFrom)) && Says(nq, "date_to", OptStr(nq.dateTo))
    ensures Says(nq, "page", Int(nq.page)) && Says(nq, "page_size", Int(nq.pageSize))
    ensures Says(nq, "facets", Strings(nq.facets)) && Says(nq, "include_fields", Strings(nq.includeFields))
    ensures Says(nq, "has_digital", OptBool(nq.hasDigital)) && Says(nq, "has_iiif", OptBool(nq.hasIiif))
    ensures Says(nq, "filters", Obj(FilterMembers(nq.filters)))
  {
    FieldsDistinct(nq, Obj(FilterMembers(nq.filters)));
  }

  /** Field lists with the same members are equal position by position. */
  lemma FieldsMatch(a: NormalizedQuery, fa: Value, b: NormalizedQuery, fb: Value)
    requires forall m :: m in Fields(a, fa) <==> m in Fields(b, fb)
    ensures Fields(a, fa) == Fields(b, fb)
  {
    var ms, ns := Fields(a, fa), Fields(b, fb);
    FieldsDistinct(b, fb);
    forall k | 0 <= k < |ms| ensures ms[k] == ns[k] {
      assert ms[k] in ns;
      var j :| 0 <= j < |ns| && ns[j] == ms[k];
      SameKeys(a, fa, b, fb, k);
    }
  }

  lemma SameKeys(a: NormalizedQuery, fa: Value, b: NormalizedQuery, fb: Value, k: nat)
    requires k < 12
    ensures |Fields(a, fa)| == |Fields(b, fb)| == 12
    ensures Fields(a, fa)[k].key == Fields(b, fb)[k].key
  {
  }

  lemma FieldsDetermine(a: NormalizedQuery, fa: Value, b: NormalizedQuery, fb: Value)
    ensures Fields(a, fa) == Fields(b, fb) <==> a.(filters := []) == b.(filters := []) && fa == fb
  {
    var ms, ns := Fields(a, fa), Fields(b, fb);
    if ms == ns {
      assert ms[0] == ns[0] && ms[1] == ns[1] && ms[2] == ns[2] && ms[3] == ns[3];
      assert ms[4] == ns[4] && ms[5] == ns[5] && ms[6] == ns[6] && ms[7] == ns[7];
      assert ms[8] == ns[8] && ms[9] == ns[9] && ms[10] == ns[10] && ms[11] == ns[11];
      StringsInjective(a.facets, b.facets);
      StringsInjective(a.includeFields, b.includeFields);
    }
  }

  lemma {:induction false} PlainUnsorted(items: seq<Value>)
    requires forall k :: 0 <= k < |items| ==> items[k].Str?
    ensures SortItems(items) == items
  {
    if items != [] {
      PlainUnsorted(items[1..]);
    }
  }

  lemma StringsUnsorted(ss: seq<string>)
    ensures SortKeys(Strings(ss)) == Strings(ss)
  {
    PlainUnsorted(Strings(ss).items);
  }

  lemma StringsInjective(ss: seq<string>, ts: seq<string>)
    requires Strings(ss) == Strings(ts)
    ensures ss == ts
  {
    forall k | 0 <= k < |ss| ensures ss[k] == ts[k] {
      assert Strings(ss).items[k] == Str(ss[k]) && Strings(ts).items[k] == Str(ts[k]);
    }
  }

  /** The canonical form sorts the fields and, inside, the filters; nothing else has keys to sort. */
  lemma CanonicalForm(nq: NormalizedQuery)
    ensures SortKeys(ModelDump(nq)) == Obj(SortMembers(Fields(nq, Obj(SortMembers(FilterMembers(nq.filters))))))
  {
    var ms := Fields(nq, Obj(FilterMembers(nq.filters)));
    var ns := Fields(nq, Obj(SortMembers(FilterMembers(nq.filters))));
    StringsUnsorted(nq.facets);
    StringsUnsorted(nq.includeFields);
    FiltersUnsorted(nq.filters);
    assert SortKeys(ms[6].value) == ns[6].value;
    assert SortKeys(ms[4].value) == ns[4].value && SortKeys(ms[5].value) == ns[5].value;
    SortFields(nq, Obj(FilterMembers(nq.filters)), ns);
  }

  lemma SortFields(nq: NormalizedQuery, filters: Value, ns: seq<Member>)
    requires ns == Fields(nq, SortKeys(filters))
    requires SortKeys(Strings(nq.facets)) == Strings(nq.facets)
    requires SortKeys(Strings(nq.includeFields)) == Strings(nq.includeFields)
    ensures SortValues(Fields(nq, filters)) == ns
  {
    var ms := Fields(nq, filters);
    var sorted := SortValues(ms);
    forall k | 0 <= k < 12 ensures sorted[k] == ns[k] {
      FieldUnsorted(nq, filters, k);
      assert sorted[k].key == ms[k].key && sorted[k].value == SortKeys(ms[k].value);
    }
  }

  lemma FieldUnsorted(nq: NormalizedQuery, filters: Value, k: nat)
    requires k < 12
    requires SortKeys(Strings(nq.facets)) == Strings(nq.facets)
    requires SortKeys(Strings(nq.includeFields)) == Strings(nq.includeFields)
    ensures var ms, ns := Fields(nq, filters), Fields(nq, SortKeys(filters));
      ms[k].key == ns[k].key && SortKeys(ms[k].value) == ns[k].value
  {
  }

  lemma FiltersUnsorted(filters: seq<Filter>)
    ensures SortValues(FilterMembers(filters)) == FilterMembers(filters)
  {
    var ms := FilterMembers(filters);
    forall k | 0 <= k < |ms| ensures SortValues(ms)[k] == ms[k] {
      StringsUnsorted(filters[k].values);
    }
  }

  lemma FilterMembersMatch(a: seq<Filter>, b: seq<Filter>)
    ensures (forall m :: m in FilterMembers(a) <==> m in FilterMembers(b)) <==> (forall f :: f in a <==> f in b)
  {
    if forall m :: m in FilterMembers(a) <==> m in FilterMembers(b) {
      forall f ensures f in a <==> f in b {
        MemberOfFilter(a, f);
        MemberOfFilter(b, f);
      }
    }
    if forall f :: f in a <==> f in b {
      forall m ensures m in FilterMembers(a) <==> m in FilterMembers(b) {
        FilterOfMember(a, b, m);
        FilterOfMember(b, a, m);
      }
    }
  }

  lemma MemberOfFilter(filters: seq<Filter>, f: Filter)
    ensures f in filters <==> Member(f.field, Strings(f.values)) in FilterMembers(filters)
  {
    var m := Member(f.field, Strings(f.values));
    if f in filters {
      var k :| 0 <= k < |filters| && filters[k] == f;
      assert FilterMembers(filters)[k] == m;
    }
    if m in FilterMembers(filters) {
      var k :| 0 <= k < |filters| && FilterMembers(filters)[k] == m;
      StringsInjective(filters[k].values, f.values);
      assert filters[k] == f;
    }
  }

  lemma FilterOfMember(a: seq<Filter>, b: seq<Filter>, m: Member)
    requires forall f :: f in a ==> f in b
    ensures m in FilterMembers(a) ==> m in FilterMembers(b)
  {
    if m in FilterMembers(a) {
      var k :| 0 <= k < |a| && FilterMembers(a)[k] == m;
      assert a[k] in b;
      MemberOfFilter(b, a[k]);
    }
  }

  lemma StringsValid(ss: seq<string>)
    ensures Valid(Strings(ss))
  {
  }

  lemma FiltersValid(filters: seq<Filter>)
    ensures Valid(Obj(FilterMembers(filters)))
  {
    forall k | 0 <= k < |filters| ensures Valid(FilterMembers(filters)[k].value) {
      StringsValid(filters[k].values);
    }
  }

  lemma DumpValid(nq: NormalizedQuery)
    ensures Valid(ModelDump(nq))
  {
    var ms := Fields(nq, Obj(FilterMembers(nq.filters)));
    StringsValid(nq.facets);
    StringsValid(nq.includeFields);
    FiltersValid(nq.filters);
    forall k | 0 <= k < 12 ensures Valid(ms[k].value) {
      FieldValid(ms, k);
    }
  }

  /** Three fields are lists or objects; the others cannot go wrong. */
  lemma FieldValid(ms: seq<Member>, k: nat)
    requires k < |ms| == 12 && Valid(ms[4].value) && Valid(ms[5].value) && Valid(ms[6].value)
    requires forall j :: 0 <= j < 12 && j != 4 && j != 5 && j != 6 ==>
      ms[j].value.Null? || ms[j].value.Bool? || ms[j].value.Int? || ms[j].value.Str?
    ensures Valid(ms[k].value)
  {
  }

  lemma FilterKeysDistinct(nq: NormalizedQuery)
    requires nq.WellFormed()
    ensures DistinctKeys(FilterMembers(nq.filters))
  {
  }

  /**
   Two queries have one payload exactly when they are the same query: the printer separates any two
   different queries and does not see the order the filters were filled in.
   */
  lemma PayloadCanonical(a: NormalizedQuery, b: NormalizedQuery)
    requires a.WellFormed() && b.WellFormed()
    ensures Payload(a) == Payload(b) <==> SameQuery(a, b)
  {
    var fa, fb := FilterMembers(a.filters), FilterMembers(b.filters);
    DumpValid(a);
    DumpValid(b);
    CanonicalDumpsSorted(ModelDump(a), ModelDump(b));
    CanonicalForm(a);
    CanonicalForm(b);
    FilterKeysDistinct(a);
    FilterKeysDistinct(b);
    SortCanonical(fa, fb);
    FilterMembersMatch(a.filters, b.filters);
    SortedFieldsMatch(a, Obj(SortMembers(fa)), b, Obj(SortMembers(fb)));
  }

  lemma SortedFieldsMatch(a: NormalizedQuery, fa: Value, b: NormalizedQuery, fb: Value)
    ensures SortMembers(Fields(a, fa)) == SortMembers(Fields(b, fb))
      <==> a.(filters := []) == b.(filters := []) && fa == fb
  {
    FieldsDistinct(a, fa);
    FieldsDistinct(b, fb);
    SortCanonical(Fields(a, fa), Fields(b, fb));
    if SortMembers(Fields(a, fa)) == SortMembers(Fields(b, fb)) {
      FieldsMatch(a, fa, b, fb);
    }
    FieldsDetermine(a, fa, b, fb);
  }

  /** The set the parser iterates may come in any order: the payload of an admitted request does not. */
  lemma PayloadIgnoresFilterOrder(policy: QueryPolicy.Policy, params: seq<QueryPolicy.Param>, o1: seq<string>,
                                  o2: seq<string>)
    requires QueryPolicy.Readable(policy, params)
    requires QueryPolicy.IsFilterOrder(o1) && QueryPolicy.IsFilterOrder(o2)
    ensures Payload(QueryPolicy.QueryOf(policy, params, QueryPolicy.FiltersOf(params, o1)))
         == Payload(QueryPolicy.QueryOf(policy, params, QueryPolicy.FiltersOf(params, o2)))
  {
    var f1, f2 := QueryPolicy.FiltersOf(params, o1), QueryPolicy.FiltersOf(params, o2);
    QueryPolicy.FiltersWellFormed(params, o1);
    QueryPolicy.FiltersWellFormed(params, o2);
    SameButFilters(policy, params, f1, f2);
    PayloadCanonical(QueryPolicy.QueryOf(policy, params, f1), QueryPolicy.QueryOf(policy, params, f2));
  }

  lemma SameButFilters(policy: QueryPolicy.Policy, params: seq<QueryPolicy.Param>, f1: seq<Filter>, f2: seq<Filter>)
    requires QueryPolicy.Readable(policy, params)
    requires forall f :: f in f1 <==> f in f2
    ensures SameQuery(QueryPolicy.QueryOf(policy, params, f1), QueryPolicy.QueryOf(policy, params, f2))
  {
  }

  /** SHA-256 hex digests, taken as collision-free. */
  ghost predicate IsDigest(sha: string -> string) {
    && (forall x, y :: sha(x) == sha(y) ==> x == y)
    && forall x, c :: c in sha(x) ==> '0' <= c <= '9' || 'a' <= c <= 'f'
  }

  function Key(sha: string -> string, nq: NormalizedQuery): string {
    sha(Payload(nq))
  }
}
