/**
 What the parameters of a request come to mean in its query, told on the parameters alone
 (app/query_policy/engine.py, `parse`).
 */
module QueryMeaning {
  import opened Wrappers
  import opened Text
  import opened Decimal
  import opened Gathering
  import opened Query
  import opened QueryPolicy

  // ---------------------------------------------------------------- the values of a parameter

  /** The values are those the parameter has, in order of appearance. */
  ghost predicate AllValues(params: seq<Param>, name: string, values: seq<string>) {
    exists pieces: seq<seq<string>> :: ValuePieces(params, name, pieces) && Gathers(values, pieces)
  }

  predicate ValuePieces(params: seq<Param>, name: string, pieces: seq<seq<string>>) {
    && |pieces| == |params|
    && forall k :: 0 <= k < |params| ==> pieces[k] == if params[k].name == name then [params[k].value] else []
  }

  /** A repeated parameter counts with the last value it has. */
  ghost predicate LastValue(params: seq<Param>, name: string, value: Option<string>) {
    match value
    case None => forall k :: 0 <= k < |params| ==> params[k].name != name
    case Some(text) => exists k :: 0 <= k < |params| && IsLastAt(params, name, text, k)
  }

  predicate IsLastAt(params: seq<Param>, name: string, text: string, k: int)
    requires 0 <= k < |params|
  {
    params[k] == Param(name, text) && forall j :: k < j < |params| ==> params[j].name != name
  }

  lemma {:induction false} GetAllMeans(params: seq<Param>, name: string)
    ensures AllValues(params, name, GetAll(params, name))
  {
    if params == [] {
      GathersNone<string>();
      assert ValuePieces(params, name, []);
    } else {
      GetAllMeans(params[1..], name);
      ValuesCons(params, name);
    }
  }

  lemma ValuesCons(params: seq<Param>, name: string)
    requires params != [] && AllValues(params[1..], name, GetAll(params[1..], name))
    ensures AllValues(params, name, GetAll(params, name))
  {
    var pieces: seq<seq<string>> :|
      ValuePieces(params[1..], name, pieces) && Gathers(GetAll(params[1..], name), pieces);
    var first := if params[0].name == name then [params[0].value] else [];
    GathersSingle(first);
    GathersJoin(first, GetAll(params[1..], name), [first], pieces);
    PiecesCons(params, name, first, pieces);
  }

  lemma PiecesCons(params: seq<Param>, name: string, first: seq<string>, pieces: seq<seq<string>>)
    requires params != [] && ValuePieces(params[1..], name, pieces)
    requires first == if params[0].name == name then [params[0].value] else []
    ensures ValuePieces(params, name, [first] + pieces)
  {
    forall k | 0 <= k < |params|
      ensures ([first] + pieces)[k] == if params[k].name == name then [params[k].value] else []
    {
      assert k > 0 ==> params[k] == params[1..][k - 1] && ([first] + pieces)[k] == pieces[k - 1];
    }
  }

  lemma {:induction false} GetMeans(params: seq<Param>, name: string)
    ensures LastValue(params, name, Get(params, name))
  {
    if params != [] {
      var rest := params[1..];
      GetMeans(rest, name);
      GetCons(params, name);
      match Get(rest, name) {
        case None => FirstIsLast(params, name);
        case Some(text) => LastOfRest(params, name, text);
      }
    }
  }

  lemma GetCons(params: seq<Param>, name: string)
    requires params != []
    ensures Get(params, name) == match Get(params[1..], name)
      case Some(text) => Some(text)
      case None => if params[0].name == name then Some(params[0].value) else None
  {
  }

  lemma FirstIsLast(params: seq<Param>, name: string)
    requires params != [] && LastValue(params[1..], name, None)
    ensures LastValue(params, name, if params[0].name == name then Some(params[0].value) else None)
  {
    forall j | 0 < j < |params| ensures params[j].name != name {
      assert params[j] == params[1..][j - 1];
    }
    assert params[0].name == name ==> IsLastAt(params, name, params[0].value, 0);
  }

  lemma LastOfRest(params: seq<Param>, name: string, text: string)
    requires params != [] && LastValue(params[1..], name, Some(text))
    ensures LastValue(params, name, Some(text))
  {
    var rest := params[1..];
    var k :| 0 <= k < |rest| && IsLastAt(rest, name, text, k);
    forall j | k + 1 < j < |params| ensures params[j].name != name {
      assert params[j] == rest[j - 1];
    }
    assert IsLastAt(params, name, text, k + 1);
  }

  // ---------------------------------------------------------------- numbers, flags and lists

  /** Digits, with a sign in front or none, and blanks around them. */
  ghost predicate ReadsAs(text: string, n: int) {
    exists sign: string, digits: string :: IsSigned(sign, digits, n) && StripsTo(text, sign + digits)
  }

  predicate IsSigned(sign: string, digits: string, n: int) {
    && sign in ["", "+", "-"] && digits != "" && AllDigits(digits)
    && (n == if sign == "-" then 0 - ValueOf(digits) else ValueOf(digits))
  }

  lemma ParseIntMeans(text: string)
    ensures match ParseInt(text)
      case Some(n) => ReadsAs(text, n)
      case None => forall n: int :: !ReadsAs(text, n)
  {
    StripMeans(text);
    if ParseInt(text).Some? {
      var sign, digits := SignOf(text, Strip(text));
    } else {
      forall n: int ensures !ReadsAs(text, n) {
        if ReadsAs(text, n) {
          NoneUnread(text, n);
        }
      }
    }
  }

  lemma SignOf(text: string, t: string) returns (sign: string, digits: string)
    requires t == Strip(text) && ParseInt(text).Some?
    ensures t == sign + digits && IsSigned(sign, digits, ParseInt(text).value)
  {
    if t[0] == '+' {
      sign, digits := "+", t[1..];
    } else if t[0] == '-' {
      sign, digits := "-", t[1..];
    } else {
      sign, digits := "", t;
    }
  }

  lemma NoneUnread(text: string, n: int)
    requires ReadsAs(text, n)
    ensures ParseInt(text).Some?
  {
    var sign: string, digits: string :| IsSigned(sign, digits, n) && StripsTo(text, sign + digits);
    StripMeans(text);
    StripsToOne(text, Strip(text), sign + digits);
    SignedReads(text, sign, digits, n);
  }

  lemma SignedReads(text: string, sign: string, digits: string, n: int)
    requires IsSigned(sign, digits, n) && Strip(text) == sign + digits
    ensures ParseInt(text).Some?
  {
    assert (sign + digits)[|sign|..] == digits;
    assert sign == "" ==> (sign + digits)[0] == digits[0];
  }

  /** The word, in letters of either case. */
  predicate Spells(text: string, word: string) {
    && |text| == |word|
    && forall k :: 0 <= k < |word| ==>
         text[k] == word[k] || ('A' <= text[k] <= 'Z' && text[k] as int + 32 == word[k] as int)
  }

  predicate SpellsOne(text: string, words: seq<string>) {
    exists k :: 0 <= k < |words| && Spells(text, words[k])
  }

  lemma {:induction false} LowerMeans(text: string)
    ensures |Lower(text)| == |text|
    ensures forall k :: 0 <= k < |text| ==>
      Lower(text)[k] == if 'A' <= text[k] <= 'Z' then (text[k] as int + 32) as char else text[k]
  {
    if text != [] {
      LowerMeans(text[1..]);
      forall k | 0 <= k < |text|
        ensures Lower(text)[k] == if 'A' <= text[k] <= 'Z' then (text[k] as int + 32) as char else text[k]
      {
        assert k > 0 ==> text[k] == text[1..][k - 1] && Lower(text)[k] == Lower(text[1..])[k - 1];
      }
    }
  }

  predicate NoCapitals(word: string) {
    forall k :: 0 <= k < |word| ==> !('A' <= word[k] <= 'Z')
  }

  lemma LowerSpells(text: string, word: string)
    requires NoCapitals(word)
    ensures Lower(text) == word <==> Spells(text, word)
  {
    LowerMeans(text);
  }

  lemma LowerSpellsOne(text: string, words: seq<string>)
    requires forall k :: 0 <= k < |words| ==> NoCapitals(words[k])
    ensures Lower(text) in words <==> SpellsOne(text, words)
  {
    forall k | 0 <= k < |words| ensures Lower(text) == words[k] <==> Spells(text, words[k]) {
      LowerSpells(text, words[k]);
    }
  }

  const YES := ["true", "1", "yes", "on"]
  const NO := ["false", "0", "no", "off"]

  /** A flag that is given is one of the words for yes or for no, blanks and case aside, or is refused. */
  ghost predicate FlagReads(text: string, r: Result<Option<bool>>) {
    exists word :: StripsTo(text, word) && FlagIs(word, r)
  }

  predicate FlagIs(word: string, r: Result<Option<bool>>) {
    if SpellsOne(word, YES) then r == Ok(Some(true))
    else if SpellsOne(word, NO) then r == Ok(Some(false))
    else r == Err("invalid_parameter")
  }

  lemma ParseBoolMeans(text: string)
    ensures FlagReads(text, ParseBool(Some(text))) && ParseBool(None) == Ok(None)
  {
    StripMeans(text);
    WordDecides(text, Strip(text));
  }

  lemma WordDecides(text: string, word: string)
    requires word == Strip(text)
    ensures FlagIs(word, ParseBool(Some(text)))
  {
    WordsPlain();
    LowerSpellsOne(word, YES);
    LowerSpellsOne(word, NO);
  }

  lemma WordsPlain()
    ensures forall k :: 0 <= k < |YES| ==> NoCapitals(YES[k])
    ensures forall k :: 0 <= k < |NO| ==> NoCapitals(NO[k])
  {
  }

  /** The parts between commas that are not empty. */
  ghost predicate ListReads(text: string, fields: seq<string>) {
    exists pieces: seq<seq<string>> :: PartPieces(Split(text, ','), pieces) && Gathers(fields, pieces)
  }

  predicate PartPieces(parts: seq<string>, pieces: seq<seq<string>>) {
    |pieces| == |parts| && forall k :: 0 <= k < |parts| ==> pieces[k] == if parts[k] == "" then [] else [parts[k]]
  }

  lemma {:induction false} NonEmptyMeans(parts: seq<string>) returns (pieces: seq<seq<string>>)
    ensures PartPieces(parts, pieces) && Gathers(NonEmpty(parts), pieces)
  {
    if parts == [] {
      GathersNone<string>();
      pieces := [];
    } else {
      var rest := NonEmptyMeans(parts[1..]);
      var first := if parts[0] == "" then [] else [parts[0]];
      GathersSingle(first);
      GathersJoin(first, NonEmpty(parts[1..]), [first], rest);
      pieces := [first] + rest;
      forall k | 0 <= k < |parts| ensures pieces[k] == if parts[k] == "" then [] else [parts[k]] {
        assert k > 0 ==> parts[k] == parts[1..][k - 1] && pieces[k] == rest[k - 1];
      }
    }
  }

  lemma NonEmptyParts(text: string)
    ensures ListReads(text, NonEmpty(Split(text, ',')))
  {
    var pieces := NonEmptyMeans(Split(text, ','));
  }

  // ---------------------------------------------------------------- the query

  /** A number is that of its parameter, or the default without one. */
  ghost predicate NumberOf(params: seq<Param>, name: string, default: int, n: int) {
    if forall k :: 0 <= k < |params| ==> params[k].name != name then n == default
    else exists text :: LastValue(params, name, Some(text)) && ReadsAs(text, n)
  }

  lemma NumberMeans(params: seq<Param>, name: string, default: int)
    requires IntParam(params, name, default).Some?
    ensures NumberOf(params, name, default, IntParam(params, name, default).value)
  {
    GetMeans(params, name);
    if Get(params, name).Some? {
      ParseIntMeans(Get(params, name).value);
    }
  }

  ghost predicate FlagOf(params: seq<Param>, name: string, flag: Option<bool>) {
    if forall k :: 0 <= k < |params| ==> params[k].name != name then flag == None
    else exists text :: LastValue(params, name, Some(text)) && FlagReads(text, Ok(flag))
  }

  lemma FlagMeans(params: seq<Param>, name: string)
    requires ParseBool(Get(params, name)).Ok?
    ensures FlagOf(params, name, ParseBool(Get(params, name)).value)
  {
    GetMeans(params, name);
    if Get(params, name).Some? {
      ParseBoolMeans(Get(params, name).value);
    }
  }

  ghost predicate FieldsOf(params: seq<Param>, fields: seq<string>) {
    if forall k :: 0 <= k < |params| ==> params[k].name != "include_fields" then fields == []
    else exists text :: LastValue(params, "include_fields", Some(text)) && ListReads(text, fields)
  }

  lemma FieldsMean(params: seq<Param>)
    ensures FieldsOf(params, IncludeFields(params))
  {
    GetMeans(params, "include_fields");
    if Get(params, "include_fields").Some? {
      NonEmptyParts(Get(params, "include_fields").value);
    }
  }

  /** An empty cursor counts as none. */
  ghost predicate CursorIs(params: seq<Param>, cursor: Option<string>) {
    if cursor.Some? then cursor.value != "" && LastValue(params, "cursor", cursor)
    else LastValue(params, "cursor", None) || LastValue(params, "cursor", Some(""))
  }

  /** A filter for each filter parameter that has a value, with all its values. */
  ghost predicate FiltersAre(params: seq<Param>, filters: seq<Filter>) {
    && (forall f :: f in filters ==> (
          && f.field in ["type", "collection", "language", "institution", "subject"]
          && f.values != [] && AllValues(params, f.field, f.values)))
    && (forall p :: p in params && p.name in ["type", "collection", "language", "institution", "subject"] ==>
          HasFilter(filters, p.name))
    && (forall i, j :: 0 <= i < j < |filters| ==> filters[i].field != filters[j].field)
  }

  predicate HasFilter(filters: seq<Filter>, name: string) {
    exists k :: 0 <= k < |filters| && filters[k].field == name
  }

  lemma {:induction false} HasValue(params: seq<Param>, p: Param)
    requires p in params
    ensures GetAll(params, p.name) != []
  {
    if params[0].name != p.name {
      assert params == [params[0]] + params[1..];
      HasValue(params[1..], p);
    }
  }

  lemma FiltersMean(params: seq<Param>, order: seq<string>)
    requires IsFilterOrder(order)
    ensures FiltersAre(params, FiltersOf(params, order))
  {
    FiltersWellFormed(params, order);
    forall f | f in FiltersOf(params, order) ensures AllValues(params, f.field, f.values) {
      GetAllMeans(params, f.field);
    }
    forall p | p in params && p.name in FILTER_PARAMS ensures HasFilter(FiltersOf(params, order), p.name) {
      HasValue(params, p);
      assert Filter(p.name, GetAll(params, p.name)) in FiltersOf(params, order);
    }
  }

  /** What every field of a query takes from the parameters. */
  ghost predicate Reads(policy: Policy, params: seq<Param>, query: NormalizedQuery) {
    && LastValue(params, "q", query.q) && LastValue(params, "sort", query.sort)
    && LastValue(params, "date_from", query.dateFrom) && LastValue(params, "date_to", query.dateTo)
    && NumberOf(params, "page", 1, query.page)
    && NumberOf(params, "page_size", policy.pageSizeDefault, query.pageSize)
    && AllValues(params, "facet", query.facets) && FieldsOf(params, query.includeFields)
    && FlagOf(params, "has_digital", query.hasDigital) && FlagOf(params, "has_iiif", query.hasIiif)
    && CursorIs(params, query.cursor)
  }

  /** The query of a request says what its parameters say, each in its own field. */
  lemma QueryMeans(policy: Policy, params: seq<Param>, order: seq<string>)
    requires Readable(policy, params) && IsFilterOrder(order)
    ensures var query := QueryOf(policy, params, FiltersOf(params, order));
      Reads(policy, params, query) && FiltersAre(params, query.filters)
  {
    FiltersMean(params, order);
    FieldsRead(policy, params, FiltersOf(params, order));
  }

  lemma FieldsRead(policy: Policy, params: seq<Param>, filters: seq<Filter>)
    requires Readable(policy, params)
    ensures Reads(policy, params, QueryOf(policy, params, filters))
  {
    GetMeans(params, "q");
    GetMeans(params, "sort");
    GetMeans(params, "date_from");
    GetMeans(params, "date_to");
    GetMeans(params, "cursor");
    NumberMeans(params, "page", 1);
    NumberMeans(params, "page_size", policy.pageSizeDefault);
    GetAllMeans(params, "facet");
    FieldsMean(params);
    FlagMeans(params, "has_digital");
    FlagMeans(params, "has_iiif");
  }

  ghost predicate IsNumber(params: seq<Param>, name: string, default: int) {
    exists n: int :: NumberOf(params, name, default, n)
  }

  ghost predicate IsFlag(params: seq<Param>, name: string) {
    exists flag :: FlagOf(params, name, flag)
  }

  /** The parameters of the route. */
  const NAMES := ["q", "page", "page_size", "sort", "facet", "include_fields", "format", "cursor", "type", "collection",
                  "language", "institution", "date_from", "date_to", "subject", "has_digital", "has_iiif"]

  lemma NamesMean(params: seq<Param>)
    ensures NamesKnown(params) <==> forall k :: 0 <= k < |params| ==> params[k].name in NAMES
  {
    assert forall name :: name in NAMES <==> name in ALLOWED_PARAMS;
  }

  /** A request that can be read has no unknown name, two numbers and two flags. */
  lemma ReadableMeans(policy: Policy, params: seq<Param>)
    ensures Readable(policy, params) <==> (
      && (forall k :: 0 <= k < |params| ==> params[k].name in NAMES)
      && IsNumber(params, "page", 1) && IsNumber(params, "page_size", policy.pageSizeDefault)
      && IsFlag(params, "has_digital") && IsFlag(params, "has_iiif"))
  {
    NamesMean(params);
    NumberReadIff(params, "page", 1);
    NumberReadIff(params, "page_size", policy.pageSizeDefault);
    FlagReadIff(params, "has_digital");
    FlagReadIff(params, "has_iiif");
  }

  lemma LastValueOne(params: seq<Param>, name: string, a: Option<string>, b: Option<string>)
    requires LastValue(params, name, a) && LastValue(params, name, b)
    ensures a == b
  {
    if a.Some? && b.Some? {
      var j :| 0 <= j < |params| && IsLastAt(params, name, a.value, j);
      var k :| 0 <= k < |params| && IsLastAt(params, name, b.value, k);
    }
  }

  lemma NumberReadIff(params: seq<Param>, name: string, default: int)
    ensures IntParam(params, name, default).Some? <==> IsNumber(params, name, default)
  {
    GetMeans(params, name);
    if IntParam(params, name, default).Some? {
      NumberMeans(params, name, default);
    }
    forall n: int | NumberOf(params, name, default, n) ensures IntParam(params, name, default).Some? {
      if Get(params, name).Some? {
        var text :| LastValue(params, name, Some(text)) && ReadsAs(text, n);
        LastValueOne(params, name, Get(params, name), Some(text));
        ParseIntMeans(text);
      }
    }
  }

  lemma FlagReadIff(params: seq<Param>, name: string)
    ensures ParseBool(Get(params, name)).Ok? <==> IsFlag(params, name)
  {
    GetMeans(params, name);
    if ParseBool(Get(params, name)).Ok? {
      FlagMeans(params, name);
    }
    forall flag | FlagOf(params, name, flag) ensures ParseBool(Get(params, name)).Ok? {
      if Get(params, name).Some? {
        var text :| LastValue(params, name, Some(text)) && FlagReads(text, Ok(flag));
        LastValueOne(params, name, Get(params, name), Some(text));
        var word :| StripsTo(text, word) && FlagIs(word, Ok(flag));
        StripMeans(text);
        StripsToOne(text, word, Strip(text));
        ParseBoolMeans(text);
        FlagDecides(word, text, flag);
      }
    }
  }

  lemma FlagDecides(word: string, text: string, flag: Option<bool>)
    requires StripsTo(text, word) && FlagIs(word, Ok(flag)) && FlagReads(text, ParseBool(Some(text)))
    ensures ParseBool(Some(text)).Ok?
  {
    var other :| StripsTo(text, other) && FlagIs(other, ParseBool(Some(text)));
    StripsToOne(text, word, other);
  }
}
