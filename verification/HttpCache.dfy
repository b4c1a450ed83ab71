/**
 Conditional requests (app/http_cache.py): weak validators, the `If-None-Match` header and the 304 answer.
 Weak comparison is section 2.3.2 of RFC 7232, the header section 3.2.
 */
module HttpCache {
  import opened Wrappers
  import opened Text
  import opened Decimal

  /** `_strip_weak_prefix` */
  function StripWeak(tag: string): string {
    if StartsWith(tag, "W/") then tag[2..] else tag
  }

  /** The non-blank pieces of a header value, trimmed. */
  function Trimmed(parts: seq<string>): seq<string> {
    if parts == [] then []
    else (if Strip(parts[0]) != "" then [Strip(parts[0])] else []) + Trimmed(parts[1..])
  }

  function Candidates(header: string): seq<string> {
    Trimmed(Split(header, ','))
  }

  /** `_etag_matches` */
  predicate EtagMatches(header: string, etag: string) {
    var candidates := Candidates(header);
    exists k :: 0 <= k < |candidates| && (candidates[k] == "*" || StripWeak(candidates[k]) == StripWeak(etag))
  }

  /** What a tag names: the text behind its weak prefix, if it has one. */
  predicate Names(tag: string, opaqueTag: string) {
    tag == "W/" + opaqueTag || (tag == opaqueTag && !StartsWith(tag, "W/"))
  }

  /** A piece of a header that is the wildcard, or a tag naming the same as this one. */
  ghost predicate Accepts(piece: string, etag: string) {
    exists tag :: StripsTo(piece, tag) && tag != "" && (tag == "*" || exists o :: Names(tag, o) && Names(etag, o))
  }

  lemma {:induction false} TrimmedHolds(parts: seq<string>, tag: string)
    ensures tag in Trimmed(parts) <==> tag != "" && exists p :: p in parts && Strip(p) == tag
  {
    if parts != [] {
      assert parts == [parts[0]] + parts[1..];
      TrimmedHolds(parts[1..], tag);
    }
  }

  lemma WeaklySame(a: string, b: string)
    ensures StripWeak(a) == StripWeak(b) <==> exists o :: Names(a, o) && Names(b, o)
  {
    StripWeakNames(a);
    StripWeakNames(b);
    assert Names(a, StripWeak(a)) && Names(b, StripWeak(b));
  }

  lemma StripWeakNames(tag: string)
    ensures forall o :: Names(tag, o) <==> StripWeak(tag) == o
  {
    if StartsWith(tag, "W/") {
      assert tag == "W/" + tag[2..];
    }
    forall o | Names(tag, o) ensures StripWeak(tag) == o {
      assert ("W/" + o)[2..] == o;
    }
  }

  /** A header of any text matches exactly when one of its pieces between commas accepts the tag. */
  lemma EtagMatchesMeans(header: string, etag: string)
    ensures EtagMatches(header, etag) <==> exists piece :: piece in Split(header, ',') && Accepts(piece, etag)
  {
    var tags := Candidates(header);
    if EtagMatches(header, etag) {
      var k :| 0 <= k < |tags| && (tags[k] == "*" || StripWeak(tags[k]) == StripWeak(etag));
      TrimmedHolds(Split(header, ','), tags[k]);
      var piece :| piece in Split(header, ',') && Strip(piece) == tags[k];
      StripMeans(piece);
      WeaklySame(tags[k], etag);
      assert Accepts(piece, etag);
    }
    forall piece | piece in Split(header, ',') && Accepts(piece, etag) ensures EtagMatches(header, etag) {
      PieceMatches(header, piece, etag);
    }
  }

  lemma PieceMatches(header: string, piece: string, etag: string)
    requires piece in Split(header, ',') && Accepts(piece, etag)
    ensures EtagMatches(header, etag)
  {
    var tag :| StripsTo(piece, tag) && tag != "" && (tag == "*" || exists o :: Names(tag, o) && Names(etag, o));
    StripMeans(piece);
    StripsToOne(piece, tag, Strip(piece));
    WeaklySame(tag, etag);
    TrimmedHolds(Split(header, ','), tag);
    var k :| 0 <= k < |Candidates(header)| && Candidates(header)[k] == tag;
  }

  // ---------------------------------------------------------------- headers made of held tags

  /** A tag a header can carry: no comma in it, no space around it, and not the wildcard. */
  predicate Carriable(tag: string) {
    && tag != "" && tag != "*"
    && !IsSpace(tag[0]) && !IsSpace(tag[|tag| - 1])
    && ',' !in tag
  }

  predicate AllCarriable(tags: seq<string>) {
    forall k :: 0 <= k < |tags| ==> Carriable(tags[k])
  }

  lemma StripSpace(tag: string)
    requires Carriable(tag)
    ensures Strip(tag) == tag && Strip(" " + tag) == tag
  {
    StripNothing(tag);
    assert LeftStrip(" " + tag) == LeftStrip(tag) by {
      assert (" " + tag)[1..] == tag;
    }
  }

  /** A list written with ", " between its tags is read back, with or without a space in front. */
  lemma {:induction false} CandidatesOfList(tags: seq<string>, space: string)
    requires AllCarriable(tags) && tags != [] && (space == "" || space == " ")
    ensures Candidates(space + Join(tags, ", ")) == tags
  {
    var piece := space + tags[0];
    PieceOf(tags[0], space);
    if |tags| == 1 {
      LastPiece(piece, tags[0]);
    } else {
      assert AllCarriable(tags[1..]);
      CandidatesOfList(tags[1..], " ");
      FirstPiece(piece, tags[0], " " + Join(tags[1..], ", "), tags[1..]);
      Regroup(space, tags);
    }
  }

  lemma PieceOf(tag: string, space: string)
    requires Carriable(tag) && (space == "" || space == " ")
    ensures Strip(space + tag) == tag && ',' !in space + tag
  {
    StripSpace(tag);
    assert "" + tag == tag;
  }

  lemma Regroup(space: string, tags: seq<string>)
    requires |tags| > 1
    ensures space + Join(tags, ", ") == space + tags[0] + [','] + (" " + Join(tags[1..], ", "))
  {
    assert Join(tags, ", ") == tags[0] + ", " + Join(tags[1..], ", ");
    assert ", " == [','] + " ";
  }

  lemma LastPiece(piece: string, tag: string)
    requires Strip(piece) == tag && tag != "" && ',' !in piece
    ensures Candidates(piece) == [tag]
  {
    SplitPiece(piece, "", ',');
    assert Trimmed([piece]) == [tag] + Trimmed([]);
  }

  lemma FirstPiece(piece: string, tag: string, rest: string, tags: seq<string>)
    requires Strip(piece) == tag && tag != "" && ',' !in piece && Candidates(rest) == tags
    ensures Candidates(piece + [','] + rest) == [tag] + tags
  {
    SplitPiece(piece, rest, ',');
    TrimmedStep(piece, tag, Split(rest, ','));
  }

  lemma TrimmedStep(piece: string, tag: string, parts: seq<string>)
    requires Strip(piece) == tag && tag != ""
    ensures Trimmed([piece] + parts) == [tag] + Trimmed(parts)
  {
    assert ([piece] + parts)[1..] == parts;
  }

  predicate HeldWeakly(tags: seq<string>, etag: string) {
    exists k :: 0 <= k < |tags| && StripWeak(tags[k]) == StripWeak(etag)
  }

  lemma CandidatesDecide(header: string, tags: seq<string>, etag: string)
    requires Candidates(header) == tags && AllCarriable(tags)
    ensures EtagMatches(header, etag) <==> HeldWeakly(tags, etag)
  {
  }

  /** A header listing held tags matches exactly when one of them is the tag, the weak prefixes put aside. */
  lemma MatchesIffHeld(tags: seq<string>, etag: string)
    requires AllCarriable(tags)
    ensures EtagMatches(Join(tags, ", "), etag) <==> HeldWeakly(tags, etag)
  {
    var header := Join(tags, ", ");
    if tags == [] {
      BlankHoldsNone(header);
    } else {
      CandidatesOfList(tags, "");
      assert "" + header == header;
    }
    CandidatesDecide(header, tags, etag);
  }

  /** The wildcard matches whatever the tag is, so it is answered 304 even by a server that never sent one. */
  lemma WildcardMatches(etag: string)
    ensures EtagMatches("*", etag)
  {
    AloneMatches("*", etag);
  }

  lemma AloneMatches(header: string, etag: string)
    requires |header| == 1 && header[0] == '*'
    ensures EtagMatches(header, etag)
  {
    StripNothing(header);
    LastPiece(header, "*");
    assert Candidates(header)[0] == "*";
  }

  lemma BlankHoldsNone(header: string)
    requires ',' !in header && Strip(header) == ""
    ensures Candidates(header) == []
  {
    SplitPiece(header, "", ',');
    assert Trimmed([header]) == Trimmed([]);
  }

  // ---------------------------------------------------------------- the tags of /v1/search

  /** The formats the route lets through. */
  predicate IsFormat(fmt: string) {
    fmt == "json" || fmt == "csv" || fmt == "jsonld"
  }

  predicate IsHex(key: string) {
    forall k :: 0 <= k < |key| ==> IsDigit(key[k]) || 'a' <= key[k] <= 'f'
  }

  /** The tag `search` sends. */
  function SearchTag(fmt: string, key: string, epoch: nat): string {
    "W/\"search" + [':'] + (fmt + [':'] + (key + [':'] + ("v" + Dec(epoch) + "\"")))
  }

  /** Format, query key and epoch stand between colons, in this order, inside a weak tag. */
  lemma SearchTagMeans(fmt: string, key: string, epoch: nat)
    ensures SearchTag(fmt, key, epoch) == "W/\"" + Join(["search", fmt, key, "v" + Dec(epoch)], ":") + "\""
  {
    var last := "v" + Dec(epoch);
    assert Join([last], ":") == last;
    assert [key, last][1..] == [last];
    assert Join([key, last], ":") == key + ":" + last;
    assert [fmt, key, last][1..] == [key, last];
    assert Join([fmt, key, last], ":") == fmt + ":" + Join([key, last], ":");
    assert ["search", fmt, key, last][1..] == [fmt, key, last];
  }

  lemma TagPieces(fmt: string, key: string, epoch: nat)
    requires IsFormat(fmt) && IsHex(key)
    ensures Split(SearchTag(fmt, key, epoch), ':') == ["W/\"search"] + ([fmt] + ([key] + ["v" + Dec(epoch) + "\""]))
  {
    var last := "v" + Dec(epoch) + "\"";
    NoColon(epoch);
    SplitPiece(last, "", ':');
    SplitPiece(key, last, ':');
    SplitPiece(fmt, key + [':'] + last, ':');
    SplitPiece("W/\"search", fmt + [':'] + (key + [':'] + last), ':');
  }

  lemma NoColon(epoch: nat)
    ensures ':' !in "v" + Dec(epoch) + "\""
  {
    assert forall k :: 0 <= k < |Dec(epoch)| ==> Dec(epoch)[k] != ':';
  }

  /** A search tag names one format, one query key and one epoch. */
  lemma SearchTagInjective(f: string, k: string, e: nat, fmt: string, key: string, epoch: nat)
    requires IsFormat(f) && IsHex(k) && IsFormat(fmt) && IsHex(key)
    ensures SearchTag(f, k, e) == SearchTag(fmt, key, epoch) <==> f == fmt && k == key && e == epoch
  {
    if SearchTag(f, k, e) == SearchTag(fmt, key, epoch) {
      var p, q := Split(SearchTag(f, k, e), ':'), Split(SearchTag(fmt, key, epoch), ':');
      TagPieces(f, k, e);
      TagPieces(fmt, key, epoch);
      assert p[1] == f && q[1] == fmt;
      assert p[2] == k && q[2] == key;
      assert p[3] == "v" + Dec(e) + "\"" && q[3] == "v" + Dec(epoch) + "\"";
      assert p[3][1..|p[3]| - 1] == Dec(e) && q[3][1..|q[3]| - 1] == Dec(epoch);
      ValueDec(e);
      ValueDec(epoch);
    }
  }

  lemma SearchTagShape(fmt: string, key: string, epoch: nat)
    requires IsFormat(fmt) && IsHex(key)
    ensures Carriable(SearchTag(fmt, key, epoch)) && StartsWith(SearchTag(fmt, key, epoch), "W/")
    ensures "W/" + StripWeak(SearchTag(fmt, key, epoch)) == SearchTag(fmt, key, epoch)
  {
    var tag := SearchTag(fmt, key, epoch);
    assert tag[0] == 'W' && tag[1] == '/' && tag[|tag| - 1] == '\"';
    assert forall k :: 0 <= k < |Dec(epoch)| ==> Dec(epoch)[k] != ',';
    assert ',' !in "v" + Dec(epoch) + "\"";
    assert ',' !in key;
  }

  /** Two search tags are weakly the same exactly when they are the same. */
  lemma SearchTagWeakly(f: string, k: string, e: nat, fmt: string, key: string, epoch: nat)
    requires IsFormat(f) && IsHex(k) && IsFormat(fmt) && IsHex(key)
    ensures StripWeak(SearchTag(f, k, e)) == StripWeak(SearchTag(fmt, key, epoch))
      <==> f == fmt && k == key && e == epoch
  {
    SearchTagShape(f, k, e);
    SearchTagShape(fmt, key, epoch);
    SearchTagInjective(f, k, e, fmt, key, epoch);
  }

  // ---------------------------------------------------------------- the response

  datatype CacheConfig = CacheConfig(enabled: bool, maxAge: int, publicMode: string)

  function Directive(config: CacheConfig): string {
    (if config.publicMode == "anonymous_allowed" then "public" else "private")
    + ", max-age=" + Dec(if config.maxAge > 0 then config.maxAge else 0)
  }

  /** Only an open API lets shared caches keep a response; a negative age counts as none. */
  lemma DirectiveMeans(config: CacheConfig)
    ensures var public, private := "public, max-age=", "private, max-age=";
      Directive(config) == (if config.publicMode == "anonymous_allowed" then public else private)
                           + (if config.maxAge <= 0 then "0" else Dec(config.maxAge))
  {
  }

  /** The request is answered 304. */
  predicate NotModified(config: CacheConfig, ifNoneMatch: Option<string>, etag: string) {
    config.enabled && ifNoneMatch.Some? && ifNoneMatch.value != "" && EtagMatches(ifNoneMatch.value, etag)
  }

  class Response {
    var status: int
    var headers: map<string, string>

    constructor (s: int)
      ensures status == s && headers == map[]
    {
      status, headers := s, map[];
    }
  }

  /** `apply_cache_headers`. With caching off it leaves the response alone and never answers 304. */
  method ApplyCacheHeaders(config: CacheConfig, ifNoneMatch: Option<string>, response: Response, etag: string)
    returns (answer: Option<Response>)
    modifies response`headers
    ensures answer.Some? <==> NotModified(config, ifNoneMatch, etag)
    ensures response.headers == if config.enabled
      then old(response.headers)["Cache-Control" := Directive(config)]["ETag" := etag] else old(response.headers)
    ensures answer.Some? ==> fresh(answer.value) && answer.value.status == 304
    ensures answer.Some? ==> answer.value.headers == map["Cache-Control" := Directive(config), "ETag" := etag]
  {
    answer := None;
    if !config.enabled {
      return;
    }
    response.headers := response.headers["Cache-Control" := Directive(config)];
    response.headers := response.headers["ETag" := etag];
    if ifNoneMatch.Some? && ifNoneMatch.value != "" && EtagMatches(ifNoneMatch.value, etag) {
      var notModified := new Response(304);
      notModified.headers := notModified.headers["Cache-Control" := Directive(config)];
      notModified.headers := notModified.headers["ETag" := etag];
      answer := Some(notModified);
    }
  }
}
