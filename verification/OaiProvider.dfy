/**
 The OAI-PMH provider's list requests (app/oai_provider.py), with OAI-PMH 2.0 section 3.5 flow control:
 every page is stateless, the resumption token carries the whole position.
 */
module OaiProvider {
  import opened Wrappers
  import opened Text
  import opened Cursor
  import opened Query
  import opened SearchEngine
  import Adapter
  import B = Base64Url

  const DEFAULT_PAGE_SIZE: nat := 100
  const MAX_PAGE_SIZE: nat := 500
  const DUBLIN_CORE := "oai_dc"

  type Params = map<string, string>

  /** The reply envelope, XML aside. `Down` is the adapter's exception, which the handler lets through. */
  datatype Reply =
    | Error(code: string)
    | Listing(records: seq<Doc>, headersOnly: bool, token: Option<string>, total: nat)
    | Record(record: Doc)
    | OtherVerb(verb: string)
    | Down

  function GetOr(params: Params, name: string): string {
    if name in params then params[name] else ""
  }

  /** `_build_query`: everything, in the default sort. */
  function HarvestQuery(pageSize: int, cursor: Option<string>): NormalizedQuery {
    NormalizedQuery(None, 1, pageSize, None, [], [], [], None, None, None, None,
                    if Truthy(cursor) then cursor else None)
  }

  function Clamp(pageSize: int): (size: int)
    ensures 1 <= size <= 500 && (1 <= pageSize <= 500 ==> size == pageSize)
  {
    var top := if pageSize < MAX_PAGE_SIZE then pageSize else MAX_PAGE_SIZE;
    if top < 1 then 1 else top
  }

  datatype Listed = Listed(hits: seq<Hit>, next: Option<string>, total: nat)

  /** `_search_page` */
  function SearchPage(engine: Engine, index: Index, pageSize: int, cursor: Option<string>): Result<Listed>
    requires engine.Lawful()
  {
    var size := Clamp(pageSize);
    match Adapter.Search(engine, index, HarvestQuery(size, cursor))
    case Err(e) => Err(e)
    case Ok(page) => Ok(Listed(page.hits, Adapter.NextCursor(page.hits, size), page.total))
  }

  function Records(hits: seq<Hit>): seq<Doc> {
    seq(|hits|, k requires 0 <= k < |hits| => hits[k].doc)
  }

  /** `_verb_list` after the token is read: None for a first request. */
  function ListFrom(engine: Engine, index: Index, prefix: string, cursor: Option<string>, headersOnly: bool): Reply
    requires engine.Lawful()
  {
    if prefix != DUBLIN_CORE then Error("cannotDisseminateFormat")
    else
      match SearchPage(engine, index, DEFAULT_PAGE_SIZE, cursor)
      case Err(_) => Down
      case Ok(listed) =>
        if listed.hits == [] && cursor.None? then Error("noRecordsMatch")
        else
          Listing(Records(listed.hits), headersOnly,
                  if Truthy(listed.next) then Some(EncodeToken(Token(listed.next.value, prefix))) else None,
                  listed.total)
  }

  /** `_verb_list` */
  function VerbList(engine: Engine, index: Index, params: Params, headersOnly: bool): Reply
    requires engine.Lawful()
  {
    if GetOr(params, "resumptionToken") == "" then
      ListFrom(engine, index, GetOr(params, "metadataPrefix"), None, headersOnly)
    else
      match engine.readers.token(GetOr(params, "resumptionToken"))
      case None => Error("badResumptionToken")
      case Some(token) => ListFrom(engine, index, token.metadataPrefix, Some(token.cursor), headersOnly)
  }

  /** `_identifier_for` */
  function IdentifierFor(baseId: string, id: string): string {
    "oai:" + baseId + ":" + id
  }

  /** Behind the first colon, if there is one. */
  function AfterColon(s: string): string {
    if s == "" then "" else if s[0] == ':' then s[1..] else AfterColon(s[1..])
  }

  /** `_normalize_identifier`: with a second colon, what comes behind it. */
  function NormalizeIdentifier(identifier: string): string {
    if StartsWith(identifier, "oai:") && ':' in identifier[4..] then AfterColon(identifier[4..]) else identifier
  }

  /** `_verb_get_record` */
  function GetRecord(engine: Engine, index: Index, params: Params): Reply {
    if GetOr(params, "identifier") == "" then Error("badArgument")
    else if GetOr(params, "metadataPrefix") != DUBLIN_CORE then Error("cannotDisseminateFormat")
    else
      match engine.lookup(index, NormalizeIdentifier(GetOr(params, "identifier")))
      case Err(_) => Down
      case Ok(None) => Error("idDoesNotExist")
      case Ok(Some(doc)) => Record(doc)
  }

  const VERBS: set<string> :=
    {"Identify", "ListMetadataFormats", "ListSets", "ListIdentifiers", "ListRecords", "GetRecord"}

  function Required(verb: string): set<string> {
    if verb == "ListIdentifiers" || verb == "ListRecords" then {"metadataPrefix"}
    else if verb == "GetRecord" then {"identifier", "metadataPrefix"}
    else {}
  }

  predicate IsListVerb(verb: string) {
    verb == "ListRecords" || verb == "ListIdentifiers"
  }

  /** `handle` */
  function Handle(engine: Engine, index: Index, params: Params): Reply
    requires engine.Lawful()
  {
    var verb := GetOr(params, "verb");
    var listing := IsListVerb(verb);
    if verb !in VERBS then Error("badVerb")
    else if !(listing && GetOr(params, "resumptionToken") != "") && !(Required(verb) <= params.Keys - {"verb"}) then
      Error("badArgument")
    else if listing then VerbList(engine, index, params, verb == "ListIdentifiers")
    else if verb == "ListSets" then Error("noSetHierarchy")
    else if verb == "GetRecord" then GetRecord(engine, index, params)
    else OtherVerb(verb)
  }

  // ---------------------------------------------------------------- what a page contains

  function FirstRequest(verb: string, prefix: string): Params {
    map["verb" := verb, "metadataPrefix" := prefix]
  }

  function NextRequest(verb: string, token: string): Params {
    map["verb" := verb, "resumptionToken" := token]
  }

  function HarvestBody(position: Position): Body {
    Adapter.BodyAt(HarvestQuery(DEFAULT_PAGE_SIZE, None), position)
  }

  /** The whole index in harvest order. */
  function HarvestOrder(engine: Engine, index: Index): seq<Hit> {
    engine.Ranked(HarvestBody(From(0)), index)
  }

  /** The hits of one page: the first hundred behind the given position. */
  function PageHits(engine: Engine, index: Index, start: Option<Tail>): (hits: seq<Hit>)
    requires start.Some? ==> engine.IsKey(start.value)
    ensures forall h :: h in hits ==> engine.IsKey(h.sort)
  {
    var ranked := HarvestOrder(engine, index);
    var rest := if start.Some? then engine.Beyond(true, start.value, ranked) else ranked;
    Window(rest, 0, DEFAULT_PAGE_SIZE)
  }

  function ResumeAt(tail: Tail): string
    requires ValidTail(tail)
  {
    EncodeToken(Token(EncodeCursor(tail), DUBLIN_CORE))
  }

  /** The start a position stands for, once the engine has placed it. */
  predicate StartsAt(engine: Engine, position: Position, start: Option<Tail>) {
    match position
    case From(n) => n == 0 && start.None?
    case After(tail) => start.Some? && engine.Placed("_score", tail) == start
  }

  /** A position of the harvest that the engine takes back as it is. */
  predicate IsResumable(engine: Engine, tail: Tail) {
    engine.Takes("_score", tail)
  }

  /** The page from a position: its records, and a token for its last one exactly when it is full. */
  function PageReply(engine: Engine, index: Index, start: Option<Tail>, headersOnly: bool): Reply
    requires engine.Lawful()
    requires start.Some? ==> engine.IsKey(start.value)
  {
    var hits := PageHits(engine, index, start);
    HitsValid(engine, index, start);
    if hits == [] && start.None? then Error("noRecordsMatch")
    else
      Listing(Records(hits), headersOnly,
              if |hits| == DEFAULT_PAGE_SIZE then Some(ResumeAt(hits[|hits| - 1].sort)) else None,
              |HarvestOrder(engine, index)|)
  }

  lemma HitsValid(engine: Engine, index: Index, start: Option<Tail>)
    requires engine.Lawful()
    requires start.Some? ==> engine.IsKey(start.value)
    ensures forall h :: h in PageHits(engine, index, start) ==> ValidTail(h.sort) && IsResumable(engine, h.sort)
  {
    forall h | h in PageHits(engine, index, start) ensures ValidTail(h.sort) && IsResumable(engine, h.sort) {
      engine.HitTaken(HarvestBody(From(0)), index, h);
    }
  }

  lemma SearchPageHits(engine: Engine, index: Index, start: Option<Tail>, cursor: Option<string>, position: Position)
    requires engine.Lawful() && StartsAt(engine, position, start)
    requires Adapter.BodyOf(engine.readers.cursor, HarvestQuery(DEFAULT_PAGE_SIZE, cursor)) == Ok(HarvestBody(position))
    ensures var hits := PageHits(engine, index, start);
      && (forall h :: h in hits ==> ValidTail(h.sort))
      && SearchPage(engine, index, DEFAULT_PAGE_SIZE, cursor)
           == Ok(Listed(hits, Adapter.NextCursor(hits, DEFAULT_PAGE_SIZE), |HarvestOrder(engine, index)|))
  {
    Adapter.RankedIgnoresWindow(engine, index, HarvestBody(From(0)), HarvestBody(position));
    HitsValid(engine, index, start);
  }

  lemma ListFromPage(engine: Engine, index: Index, start: Option<Tail>, cursor: Option<string>, position: Position,
                     headersOnly: bool)
    requires engine.Lawful() && StartsAt(engine, position, start) && (start.Some? <==> cursor.Some?)
    requires Adapter.BodyOf(engine.readers.cursor, HarvestQuery(DEFAULT_PAGE_SIZE, cursor)) == Ok(HarvestBody(position))
    ensures ListFrom(engine, index, DUBLIN_CORE, cursor, headersOnly) == PageReply(engine, index, start, headersOnly)
  {
    var hits := PageHits(engine, index, start);
    SearchPageHits(engine, index, start, cursor, position);
    assert |hits| <= DEFAULT_PAGE_SIZE;
    if |hits| == DEFAULT_PAGE_SIZE {
      assert hits[|hits| - 1] in hits;
      CursorRoundTrip(hits[|hits| - 1].sort);
    }
  }

  /** A first request for Dublin Core lists the index from its beginning. */
  lemma FirstPage(engine: Engine, index: Index, verb: string)
    requires engine.Lawful() && IsListVerb(verb)
    ensures Handle(engine, index, FirstRequest(verb, DUBLIN_CORE))
      == PageReply(engine, index, None, verb == "ListIdentifiers")
  {
    ListFromPage(engine, index, None, None, From(0), verb == "ListIdentifiers");
    ListHandled(engine, index, FirstRequest(verb, DUBLIN_CORE));
  }

  /** A token built from a position resumes right behind that position, whatever the index is by then. */
  lemma ResumedPage(engine: Engine, index: Index, verb: string, tail: Tail)
    requires engine.Lawful() && IsListVerb(verb) && IsResumable(engine, tail) && ValidTail(tail)
    ensures Handle(engine, index, NextRequest(verb, ResumeAt(tail)))
      == PageReply(engine, index, Some(tail), verb == "ListIdentifiers")
  {
    var token := Token(EncodeCursor(tail), DUBLIN_CORE);
    TokenRoundTrip(token);
    FaithfulReads(engine.readers, tail, token);
    ResumedHandled(engine, index, NextRequest(verb, ResumeAt(tail)), token);
    DecodedBody(engine.readers, tail);
    ListFromPage(engine, index, Some(tail), Some(token.cursor), After(tail), verb == "ListIdentifiers");
  }

  lemma DecodedBody(readers: Readers, tail: Tail)
    requires ValidTail(tail) && readers.Faithful()
    ensures Adapter.BodyOf(readers.cursor, HarvestQuery(DEFAULT_PAGE_SIZE, Some(EncodeCursor(tail))))
      == Ok(HarvestBody(After(tail)))
  {
    CursorRoundTrip(tail);
    FaithfulReads(readers, tail, Token("", ""));
  }

  /** Tokens survive the trip through the XML text, whose blanks the harvester strips. */
  lemma TokenIsPlain(tail: Tail)
    requires ValidTail(tail)
    ensures ResumeAt(tail) != "" && Strip(ResumeAt(tail)) == ResumeAt(tail)
  {
    TokenRoundTrip(Token(EncodeCursor(tail), DUBLIN_CORE));
    SextetsAreNoSpace(ResumeAt(tail));
    StripNothing(ResumeAt(tail));
  }

  lemma SextetsAreNoSpace(s: string)
    requires s != "" && B.AllSextets(s)
    ensures !IsSpace(s[0]) && !IsSpace(s[|s| - 1])
  {
  }

  // ---------------------------------------------------------------- every list request

  predicate IsListRequest(params: Params) {
    IsListVerb(GetOr(params, "verb"))
  }

  /** The token of a page: one around the position of its last hit when it is full, for both list verbs. */
  predicate TokenTells(token: Option<string>, hits: seq<Hit>) {
    if |hits| == 100
    then ValidTail(hits[99].sort) && token == Some(EncodeToken(Token(EncodeCursor(hits[99].sort), "oai_dc")))
    else token.None?
  }

  /** The records of these hits, one each, and the token behind them. */
  predicate ListsHits(reply: Reply, hits: seq<Hit>, headersOnly: bool, total: nat) {
    && reply.Listing? && |reply.records| == |hits| && (forall k :: 0 <= k < |hits| ==> reply.records[k] == hits[k].doc)
    && reply.headersOnly == headersOnly && reply.total == total && TokenTells(reply.token, hits)
  }

  /** The reply lists the page that starts at this position, headers only when the verb asks for identifiers. */
  predicate ListsPage(engine: Engine, index: Index, params: Params, reply: Reply, start: Option<Tail>)
    requires start.Some? ==> engine.IsKey(start.value)
  {
    ListsHits(reply, PageHits(engine, index, start), GetOr(params, "verb") == "ListIdentifiers", |index|)
  }

  lemma RankedAll(engine: Engine, index: Index)
    requires engine.Lawful()
    ensures |HarvestOrder(engine, index)| == |index|
  {
    engine.RankedComplete(HarvestBody(From(0)), index);
    assert forall d :: engine.matches(HarvestBody(From(0)).must, HarvestBody(From(0)).filters, d);
  }

  lemma HarvestBodyOf(read: Adapter.CursorReader, cursor: Option<string>)
    ensures var body := Adapter.BodyOf(read, HarvestQuery(DEFAULT_PAGE_SIZE, cursor));
      if !Truthy(cursor) then body == Ok(HarvestBody(From(0)))
      else match read(cursor.value) { case Ok(tail) => body == Ok(HarvestBody(After(tail))) case Err(_) => body.Err? }
  {
  }

  lemma NoneListed(engine: Engine, index: Index)
    requires engine.Lawful()
    ensures PageHits(engine, index, None) == [] <==> index == []
  {
    engine.RankedComplete(HarvestBody(From(0)), index);
    assert forall d :: engine.matches(HarvestBody(From(0)).must, HarvestBody(From(0)).filters, d);
    assert PageHits(engine, index, None) == Window(HarvestOrder(engine, index), 0, DEFAULT_PAGE_SIZE);
  }

  /** What `ListFrom` makes of a cursor it can use. */
  lemma ListedFrom(engine: Engine, index: Index, start: Option<Tail>, cursor: Option<string>, position: Position,
                   headersOnly: bool)
    requires engine.Lawful() && StartsAt(engine, position, start)
    requires Adapter.BodyOf(engine.readers.cursor, HarvestQuery(DEFAULT_PAGE_SIZE, cursor)) == Ok(HarvestBody(position))
    ensures var reply := ListFrom(engine, index, DUBLIN_CORE, cursor, headersOnly);
      var hits := PageHits(engine, index, start);
      if hits == [] && cursor.None? then reply == Error("noRecordsMatch")
      else ListsHits(reply, hits, headersOnly, |index|)
  {
    SearchPageHits(engine, index, start, cursor, position);
    RankedAll(engine, index);
    TokenOfHits(engine, index, start);
  }

  /** What `NextCursor` gives for a page, behind its hundredth hit. */
  lemma TokenOfHits(engine: Engine, index: Index, start: Option<Tail>)
    requires engine.Lawful() && (start.Some? ==> engine.IsKey(start.value))
    ensures var hits := PageHits(engine, index, start);
      && (forall h :: h in hits ==> ValidTail(h.sort))
      && TokenTells(match Adapter.NextCursor(hits, DEFAULT_PAGE_SIZE)
                    case None => None
                    case Some(cursor) => Some(EncodeToken(Token(cursor, DUBLIN_CORE))), hits)
      && (match Adapter.NextCursor(hits, DEFAULT_PAGE_SIZE) { case None => true case Some(cursor) => cursor != "" })
  {
    var hits := PageHits(engine, index, start);
    HitsValid(engine, index, start);
    if |hits| == DEFAULT_PAGE_SIZE {
      assert hits[99] in hits;
      CursorRoundTrip(hits[99].sort);
    }
  }

  lemma ListHandled(engine: Engine, index: Index, params: Params)
    requires engine.Lawful() && IsListRequest(params)
    ensures Handle(engine, index, params) ==
      if GetOr(params, "resumptionToken") == "" && "metadataPrefix" !in params then Error("badArgument")
      else VerbList(engine, index, params, GetOr(params, "verb") == "ListIdentifiers")
  {
  }

  /** What a list request without a token is answered with: an error for each reason, or the first page. */
  lemma FirstRequestAnswered(engine: Engine, index: Index, params: Params)
    requires engine.Lawful() && IsListRequest(params) && GetOr(params, "resumptionToken") == ""
    ensures var reply := Handle(engine, index, params);
      if "metadataPrefix" !in params then reply == Error("badArgument")
      else if params["metadataPrefix"] != DUBLIN_CORE then reply == Error("cannotDisseminateFormat")
      else if index == [] then reply == Error("noRecordsMatch")
      else ListsPage(engine, index, params, reply, None)
  {
    ListHandled(engine, index, params);
    HarvestBodyOf(engine.readers.cursor, None);
    ListedFrom(engine, index, None, None, From(0), GetOr(params, "verb") == "ListIdentifiers");
    NoneListed(engine, index);
  }

  /** The position the text of a token stands for: it can be read, and the engine can place it. */
  function PositionOf(engine: Engine, cursor: string): (p: Option<Tail>)
    ensures p.Some? ==> engine.IsKey(p.value)
  {
    match engine.readers.cursor(cursor)
    case Ok(tail) => engine.Placed("_score", tail)
    case Err(_) => None
  }

  lemma ResumedHandled(engine: Engine, index: Index, params: Params, token: Token)
    requires engine.Lawful() && IsListRequest(params) && GetOr(params, "resumptionToken") != ""
    requires engine.readers.token(GetOr(params, "resumptionToken")) == Some(token)
    ensures Handle(engine, index, params)
      == ListFrom(engine, index, token.metadataPrefix, Some(token.cursor), GetOr(params, "verb") == "ListIdentifiers")
  {
    ListHandled(engine, index, params);
  }

  /** Text that is no position makes the adapter raise. */
  lemma SearchRaises(engine: Engine, index: Index, cursor: string, headersOnly: bool)
    requires engine.Lawful() && cursor != "" && PositionOf(engine, cursor).None?
    ensures ListFrom(engine, index, DUBLIN_CORE, Some(cursor), headersOnly) == Down
  {
    HarvestBodyOf(engine.readers.cursor, Some(cursor));
  }

  /** Around no text at all a token stands for the beginning. */
  lemma TokenListed(engine: Engine, index: Index, cursor: string, headersOnly: bool)
    requires engine.Lawful() && (cursor == "" || PositionOf(engine, cursor).Some?)
    ensures var reply := ListFrom(engine, index, DUBLIN_CORE, Some(cursor), headersOnly);
      var start := if cursor == "" then None else PositionOf(engine, cursor);
      ListsHits(reply, PageHits(engine, index, start), headersOnly, |index|)
  {
    HarvestBodyOf(engine.readers.cursor, Some(cursor));
    if cursor == "" {
      ListedFrom(engine, index, None, Some(cursor), From(0), headersOnly);
    } else {
      var position := After(engine.readers.cursor(cursor).value);
      ListedFrom(engine, index, PositionOf(engine, cursor), Some(cursor), position, headersOnly);
    }
  }

  /**
   What a list request with a token is answered with, whatever the text of the token: an error when the token is not
   one or names another format; the page from the position it stands for, never noRecordsMatch; and an exception when
   it is a token around text that is no position.
   */
  lemma ResumedRequestAnswered(engine: Engine, index: Index, params: Params)
    requires engine.Lawful() && IsListRequest(params) && GetOr(params, "resumptionToken") != ""
    ensures var reply := Handle(engine, index, params);
      match engine.readers.token(GetOr(params, "resumptionToken"))
      case None => reply == Error("badResumptionToken")
      case Some(Token(cursor, prefix)) =>
        if prefix != DUBLIN_CORE then reply == Error("cannotDisseminateFormat")
        else if cursor == "" then ListsPage(engine, index, params, reply, None)
        else if PositionOf(engine, cursor).None? then reply == Down
        else ListsPage(engine, index, params, reply, PositionOf(engine, cursor))
  {
    var headersOnly := GetOr(params, "verb") == "ListIdentifiers";
    match engine.readers.token(GetOr(params, "resumptionToken")) {
      case None => ListHandled(engine, index, params);
      case Some(token) =>
        ResumedHandled(engine, index, params, token);
        if token.metadataPrefix == DUBLIN_CORE {
          if token.cursor != "" && PositionOf(engine, token.cursor).None? {
            SearchRaises(engine, index, token.cursor, headersOnly);
          } else {
            TokenListed(engine, index, token.cursor, headersOnly);
          }
        }
    }
  }

  /** A token of the provider's form and format around text that is no position. */
  predicate IsForeign(engine: Engine, raw: string) {
    match engine.readers.token(raw)
    case None => false
    case Some(token) =>
      token.metadataPrefix == DUBLIN_CORE && token.cursor != "" && PositionOf(engine, token.cursor).None?
  }

  /** A request for one record that reaches the backend. */
  predicate AsksRecord(params: Params) {
    && GetOr(params, "verb") == "GetRecord" && GetOr(params, "identifier") != ""
    && GetOr(params, "metadataPrefix") == DUBLIN_CORE
  }

  /**
   `handle` promises to encode every error in its envelope. It raises instead exactly on a list request whose token
   has the provider's form and format around text that is no position, and where looking a record up raises.
   */
  lemma RaisesIff(engine: Engine, index: Index, params: Params)
    requires engine.Lawful()
    ensures Handle(engine, index, params) == Down <==> (
      || (IsListRequest(params) && GetOr(params, "resumptionToken") != ""
          && IsForeign(engine, GetOr(params, "resumptionToken")))
      || (AsksRecord(params) && engine.lookup(index, NormalizeIdentifier(params["identifier"])).Err?))
  {
    if !IsListRequest(params) {
      OtherVerbHandled(engine, index, params);
    } else if GetOr(params, "resumptionToken") == "" {
      FirstRequestAnswered(engine, index, params);
    } else {
      ResumedRequestAnswered(engine, index, params);
    }
  }

  lemma OtherVerbHandled(engine: Engine, index: Index, params: Params)
    requires engine.Lawful() && !IsListRequest(params)
    ensures Handle(engine, index, params) == Down <==>
      AsksRecord(params) && engine.lookup(index, NormalizeIdentifier(params["identifier"])).Err?
  {
    assert Required("GetRecord") == {"identifier", "metadataPrefix"};
  }

  /** What every other request is answered with: an error for each reason, in this order, or what it asks for. */
  lemma OtherRequestAnswered(engine: Engine, index: Index, params: Params)
    requires engine.Lawful() && !IsListRequest(params)
    ensures var reply, verb := Handle(engine, index, params), GetOr(params, "verb");
      if verb == "Identify" || verb == "ListMetadataFormats" then reply == OtherVerb(verb)
      else if verb == "ListSets" then reply == Error("noSetHierarchy")
      else if verb != "GetRecord" then reply == Error("badVerb")
      else if "identifier" !in params || "metadataPrefix" !in params || params["identifier"] == "" then
        reply == Error("badArgument")
      else if params["metadataPrefix"] != "oai_dc" then reply == Error("cannotDisseminateFormat")
      else RecordAnswered(engine, index, params["identifier"], reply)
  {
    if GetOr(params, "verb") == "GetRecord" {
      assert Required("GetRecord") == {"identifier", "metadataPrefix"};
      NormalizeMeans(GetOr(params, "identifier"));
    }
  }

  /** The record id an identifier stands for: behind the second colon of one that starts with "oai:", or all of it. */
  ghost predicate StandsFor(identifier: string, id: string) {
    (exists base: string :: ':' !in base && identifier == "oai:" + base + ":" + id)
    || (id == identifier && forall base: string, rest: string :: identifier != "oai:" + base + ":" + rest)
  }

  ghost predicate RecordAnswered(engine: Engine, index: Index, identifier: string, reply: Reply) {
    exists id :: StandsFor(identifier, id) && reply == match engine.lookup(index, id)
      case Err(_) => Down
      case Ok(None) => Error("idDoesNotExist")
      case Ok(Some(doc)) => Record(doc)
  }

  lemma {:induction false} ColonCuts(s: string) returns (base: string)
    requires ':' in s
    ensures ':' !in base && s == base + ":" + AfterColon(s)
  {
    if s[0] == ':' {
      base := "";
      assert s == "" + ":" + s[1..];
    } else {
      var rest := ColonCuts(s[1..]);
      base := [s[0]] + rest;
      assert s == [s[0]] + s[1..];
    }
  }

  lemma NormalizeMeans(identifier: string)
    ensures StandsFor(identifier, NormalizeIdentifier(identifier))
  {
    if StartsWith(identifier, "oai:") && ':' in identifier[4..] {
      var base := ColonCuts(identifier[4..]);
      assert identifier == "oai:" + identifier[4..];
      assert identifier == "oai:" + base + ":" + AfterColon(identifier[4..]);
    } else {
      forall base: string, rest: string ensures identifier != "oai:" + base + ":" + rest {
        var made := "oai:" + base + ":" + rest;
        assert made[..4] == "oai:" && made[4..] == base + ":" + rest;
        assert made[4..][|base|] == ':';
      }
    }
  }

  lemma RequestWith(engine: Engine, token: Token)
    requires engine.Lawful()
    ensures var params := NextRequest("ListRecords", EncodeToken(token));
      && IsListRequest(params) && GetOr(params, "resumptionToken") == EncodeToken(token) != ""
      && engine.readers.token(EncodeToken(token)) == Some(token)
  {
    TokenRoundTrip(token);
  }

  lemma NoPosition(engine: Engine, cursor: string)
    requires engine.Lawful() && B.NotBase64(cursor)
    ensures cursor != "" && PositionOf(engine, cursor).None?
  {
  }

  /** A token around alphabet characters that are not base64, such as "x" or "5", is read and then raises. */
  lemma ForeignCursorRaises(engine: Engine, index: Index, cursor: string)
    requires engine.Lawful() && B.NotBase64(cursor)
    ensures Handle(engine, index, NextRequest("ListRecords", EncodeToken(Token(cursor, DUBLIN_CORE)))) == Down
  {
    var token := Token(cursor, DUBLIN_CORE);
    RequestWith(engine, token);
    NoPosition(engine, cursor);
    ResumedHandled(engine, index, NextRequest("ListRecords", EncodeToken(token)), token);
    SearchRaises(engine, index, cursor, false);
  }

  // ---------------------------------------------------------------- one record

  lemma {:induction false} AfterColonOf(base: string, id: string)
    ensures ':' in base + ":" + id
    ensures ':' !in base ==> AfterColon(base + ":" + id) == id
    ensures ':' in base ==> |AfterColon(base + ":" + id)| > |id|
  {
    var s := base + ":" + id;
    assert s[|base|] == ':';
    if base == "" {
      assert s[1..] == id;
    } else {
      AfterColonOf(base[1..], id);
      assert s[1..] == base[1..] + ":" + id && base == [base[0]] + base[1..];
    }
  }

  /** An identifier the provider writes leads back to the record's id exactly when the repository id has no colon. */
  lemma OwnIdentifierIff(baseId: string, id: string)
    ensures NormalizeIdentifier(IdentifierFor(baseId, id)) == id <==> ':' !in baseId
  {
    var identifier := IdentifierFor(baseId, id);
    assert identifier[..4] == "oai:" && identifier[4..] == baseId + ":" + id;
    AfterColonOf(baseId, id);
  }

  /** What GetRecord answers to an identifier the provider has written, as long as the index can be asked. */
  lemma OwnRecordServed(engine: Engine, index: Index, params: Params, baseId: string, id: string)
    requires engine.Lawful() && AsksRecord(params) && ':' !in baseId
    requires params["identifier"] == IdentifierFor(baseId, id)
    ensures Handle(engine, index, params) == match engine.lookup(index, id)
      case Err(_) => Down
      case Ok(None) => Error("idDoesNotExist")
      case Ok(Some(doc)) => Record(doc)
  {
    OwnIdentifierIff(baseId, id);
    assert Required("GetRecord") == {"identifier", "metadataPrefix"};
  }
}
