/**
 The opaque tokens that carry a position in the index: JSON, then UTF-8, then unpadded base64url
 (app/adapters/elasticsearch/adapter.py and, wrapped once more, app/oai_provider.py).
 */
module Cursor {
  import opened Wrappers
  import opened Json
  import B = Base64Url

  /** A hit's sort tail: one JSON value per sort clause. */
  type Tail = seq<Value>

  predicate ValidTail(t: Tail) {
    forall k :: 0 <= k < |t| ==> Valid(t[k])
  }

  /** `text.encode("utf-8")`, for text that is all ASCII. */
  function Utf8(text: string): seq<B.byte>
    requires Ascii(text)
  {
    seq(|text|, k requires 0 <= k < |text| => assert text[k] in text; text[k] as int as B.byte)
  }

  /** `raw.decode("utf-8")`, restricted to the ASCII range the encoders emit. */
  function FromUtf8(raw: seq<B.byte>): Option<string> {
    if forall k :: 0 <= k < |raw| ==> raw[k] < 128
    then Some(seq(|raw|, k requires 0 <= k < |raw| => raw[k] as int as char))
    else None
  }

  /** JSON text as a URL-safe token. */
  function Seal(v: Value, layout: Layout): string
    requires Valid(v)
  {
    DumpsAscii(v, layout);
    B.EncodeToken(Utf8(Dumps(v, layout)))
  }

  function Unseal(token: string): Option<Value> {
    match B.DecodeToken(token)
    case None => None
    case Some(raw) =>
      match FromUtf8(raw)
      case None => None
      case Some(text) => Loads(text)
  }

  lemma Utf8RoundTrip(text: string)
    requires Ascii(text)
    ensures FromUtf8(Utf8(text)) == Some(text)
    ensures text != "" ==> Utf8(text) != []
  {
    assert forall k :: 0 <= k < |text| ==> Printable(text[k]) && Utf8(text)[k] as int == text[k] as int;
    assert FromUtf8(Utf8(text)).value == text;
  }

  lemma SealRoundTrip(v: Value, layout: Layout)
    requires Valid(v)
    ensures Unseal(Seal(v, layout)) == Some(v)
    ensures Seal(v, layout) != "" && B.AllSextets(Seal(v, layout))
  {
    var text := Dumps(v, layout);
    DumpsAscii(v, layout);
    DumpsHead(v, layout);
    B.TokenRoundTrip(Utf8(text));
    Utf8RoundTrip(text);
    LoadsDumps(v, layout);
  }

  // ---------------------------------------------------------------- adapter cursor

  function EncodeCursor(tail: Tail): string
    requires ValidTail(tail)
  {
    Seal(Arr(tail), Compact)
  }

  /** A token that does not decode to a JSON list is refused as `invalid_parameter`. */
  function DecodeCursor(cursor: string): Result<Tail> {
    match Unseal(cursor)
    case Some(Arr(items)) => Ok(items)
    case _ => Err("invalid_parameter")
  }

  /** A position survives the trip to the client and back, and distinct positions get distinct tokens. */
  lemma CursorRoundTrip(tail: Tail)
    requires ValidTail(tail)
    ensures DecodeCursor(EncodeCursor(tail)) == Ok(tail)
    ensures EncodeCursor(tail) != ""
  {
    SealRoundTrip(Arr(tail), Compact);
  }

  /** What is inside a cursor: the JSON list of the sort values, without blanks. */
  lemma CursorText(tail: Tail)
    requires ValidTail(tail)
    ensures var raw := B.DecodeToken(EncodeCursor(tail));
      raw.Some? && FromUtf8(raw.value) == Some(Dumps(Arr(tail), Compact))
  {
    DumpsAscii(Arr(tail), Compact);
    B.TokenRoundTrip(Utf8(Dumps(Arr(tail), Compact)));
    Utf8RoundTrip(Dumps(Arr(tail), Compact));
  }

  // ---------------------------------------------------------------- OAI resumption token

  datatype Token = Token(cursor: string, metadataPrefix: string)

  function TokenJson(t: Token): Value {
    Obj([Member("c", Str(t.cursor)), Member("m", Str(t.metadataPrefix))])
  }

  function EncodeToken(t: Token): string {
    Seal(TokenJson(t), Spaced)
  }

  /** A dict lookup: the last member with the key wins when text repeats one. */
  function Lookup(members: seq<Member>, key: string): Option<Value> {
    if members == [] then None
    else
      var last := members[|members| - 1];
      if last.key == key then Some(last.value) else Lookup(members[..|members| - 1], key)
  }

  function DecodeToken(raw: string): Option<Token> {
    match Unseal(raw)
    case Some(Obj(members)) =>
      (match (Lookup(members, "c"), Lookup(members, "m"))
       case (Some(Str(c)), Some(Str(m))) => Some(Token(c, m))
       case _ => None)
    case _ => None
  }

  /**
   How the program reads tokens. Of text that no encoder produced Python reads more than `DecodeCursor` and
   `DecodeToken` do (it skips characters outside the alphabet, takes any UTF-8, and turns the members of a token into
   text), so what follows holds for any reading that agrees with them on what the encoders produce.
   */
  datatype Readers = Readers(cursor: string -> Result<Tail>, token: string -> Option<Token>) {
    ghost predicate Faithful() {
      && (forall t: Tail {:trigger cursor(EncodeCursor(t))} :: ValidTail(t) ==> cursor(EncodeCursor(t)) == Ok(t))
      && (forall t: Token {:trigger token(EncodeToken(t))} :: token(EncodeToken(t)) == Some(t))
      && (forall text {:trigger B.NotBase64(text)} :: B.NotBase64(text) ==> cursor(text).Err?)
    }
  }

  lemma FaithfulReads(readers: Readers, tail: Tail, token: Token)
    requires readers.Faithful()
    ensures ValidTail(tail) ==> readers.cursor(EncodeCursor(tail)) == Ok(tail)
    ensures readers.token(EncodeToken(token)) == Some(token)
  {
  }

  /** The strict reading is one of them. */
  lemma StrictIsFaithful()
    ensures Readers(text => DecodeCursor(text), text => DecodeToken(text)).Faithful()
  {
    forall tail | ValidTail(tail) ensures DecodeCursor(EncodeCursor(tail)) == Ok(tail) {
      CursorRoundTrip(tail);
    }
    forall token: Token ensures DecodeToken(EncodeToken(token)) == Some(token) {
      TokenRoundTrip(token);
    }
    forall text | B.NotBase64(text) ensures DecodeCursor(text).Err? {
      B.NotBase64Refused(text);
    }
  }

  lemma TokenRoundTrip(t: Token)
    ensures DecodeToken(EncodeToken(t)) == Some(t)
    ensures EncodeToken(t) != "" && B.AllSextets(EncodeToken(t))
  {
    var members := [Member("c", Str(t.cursor)), Member("m", Str(t.metadataPrefix))];
    SealRoundTrip(TokenJson(t), Spaced);
    assert Lookup(members, "m") == Some(Str(t.metadataPrefix));
    assert Lookup(members[..1], "c") == Some(Str(t.cursor));
  }

  /** What is inside a token: the JSON dict of cursor and prefix, with a blank behind commas and colons. */
  lemma TokenText(t: Token)
    ensures var raw := B.DecodeToken(EncodeToken(t));
      raw.Some? && FromUtf8(raw.value)
        == Some(Dumps(Obj([Member("c", Str(t.cursor)), Member("m", Str(t.metadataPrefix))]), Spaced))
  {
    DumpsAscii(TokenJson(t), Spaced);
    B.TokenRoundTrip(Utf8(Dumps(TokenJson(t), Spaced)));
    Utf8RoundTrip(Dumps(TokenJson(t), Spaced));
  }

  /** The two codecs nest: a resumption token built around a cursor leads back to the sort tail. */
  lemma NestedRoundTrip(tail: Tail, prefix: string)
    requires ValidTail(tail)
    ensures var token := DecodeToken(EncodeToken(Token(EncodeCursor(tail), prefix)));
      && token.Some? && token.value.metadataPrefix == prefix
      && DecodeCursor(token.value.cursor) == Ok(tail)
  {
    CursorRoundTrip(tail);
    TokenRoundTrip(Token(EncodeCursor(tail), prefix));
  }
}
