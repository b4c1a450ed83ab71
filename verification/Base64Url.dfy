/**
 RFC 4648, section 5: base64 with the URL-safe alphabet, as `base64.urlsafe_b64encode` and
 `base64.urlsafe_b64decode` compute it, and the unpadded form the cursors travel in.
 */
module Base64Url {
  import opened Wrappers

  newtype byte = b: int | 0 <= b < 256

  function Sextet(k: nat): (c: char)
    requires k < 64
    ensures IsSextet(c)
  {
    if k < 26 then ('A' as int + k) as char
    else if k < 52 then ('a' as int + k - 26) as char
    else if k < 62 then ('0' as int + k - 52) as char
    else if k == 62 then '-'
    else '_'
  }

  predicate IsSextet(c: char) {
    'A' <= c <= 'Z' || 'a' <= c <= 'z' || '0' <= c <= '9' || c == '-' || c == '_'
  }

  function SextetValue(c: char): (k: nat)
    requires IsSextet(c)
    ensures k < 64
  {
    if 'A' <= c <= 'Z' then c as int - 'A' as int
    else if 'a' <= c <= 'z' then c as int - 'a' as int + 26
    else if '0' <= c <= '9' then c as int - '0' as int + 52
    else if c == '-' then 62
    else 63
  }

  lemma SextetRoundTrip(k: nat)
    requires k < 64
    ensures SextetValue(Sextet(k)) == k
  {
  }

  /** The alphabet of RFC 4648, section 5, in order. */
  const ALPHABET := "ABCDEFGHIJKLMNOPQRSTUVWXYZ" + "abcdefghijklmnopqrstuvwxyz" + "0123456789" + "-_"

  lemma SextetMeans(k: nat)
    requires k < 64
    ensures |ALPHABET| == 64 && Sextet(k) == ALPHABET[k] && SextetValue(ALPHABET[k]) == k
  {
    assert ALPHABET[k] == if k < 26 then "ABCDEFGHIJKLMNOPQRSTUVWXYZ"[k]
      else if k < 52 then "abcdefghijklmnopqrstuvwxyz"[k - 26]
      else if k < 62 then "0123456789"[k - 52] else "-_"[k - 62];
  }

  /** The four characters of a full group of three bytes. */
  function Group(a: byte, b: byte, c: byte): (s: string)
    ensures |s| == 4
  {
    [Sextet(a as int / 4), Sextet(a as int % 4 * 16 + b as int / 16),
     Sextet(b as int % 16 * 4 + c as int / 64), Sextet(c as int % 64)]
  }

  /** Four characters and three bytes spell the same number of 24 bits, the first of them highest. */
  lemma GroupMeans(a: byte, b: byte, c: byte)
    ensures var g := Group(a, b, c);
      SextetValue(g[0]) * 262144 + SextetValue(g[1]) * 4096 + SextetValue(g[2]) * 64 + SextetValue(g[3])
        == a as int * 65536 + b as int * 256 + c as int
  {
    SextetRoundTrip(a as int / 4);
    SextetRoundTrip(a as int % 4 * 16 + b as int / 16);
    SextetRoundTrip(b as int % 16 * 4 + c as int / 64);
    SextetRoundTrip(c as int % 64);
  }

  /** `urlsafe_b64encode`: every three bytes become four characters, a short tail is padded with '='. */
  function Encode(raw: seq<byte>): string {
    if raw == [] then ""
    else if |raw| == 1 then Group(raw[0], 0, 0)[..2] + "=="
    else if |raw| == 2 then Group(raw[0], raw[1], 0)[..3] + "="
    else Group(raw[0], raw[1], raw[2]) + Encode(raw[3..])
  }

  /** A short tail is written as if zeros followed, with '=' for the characters that hold nothing else. */
  lemma TailMeans(a: byte, b: byte)
    ensures Encode([a]) == Encode([a, 0, 0])[..2] + "==" && Encode([a, b]) == Encode([a, b, 0])[..3] + "="
  {
    FullGroup(a, 0, 0);
    FullGroup(a, b, 0);
  }

  lemma FullGroup(a: byte, b: byte, c: byte)
    ensures Encode([a, b, c]) == Group(a, b, c)
  {
    assert [a, b, c][3..] == [];
    assert Encode([]) == "";
  }

  function FirstByte(p: char, q: char): byte
    requires IsSextet(p) && IsSextet(q)
  {
    (SextetValue(p) * 4 + SextetValue(q) / 16) as byte
  }

  function SecondByte(q: char, r: char): byte
    requires IsSextet(q) && IsSextet(r)
  {
    (SextetValue(q) % 16 * 16 + SextetValue(r) / 4) as byte
  }

  function ThirdByte(r: char, s: char): byte
    requires IsSextet(r) && IsSextet(s)
  {
    (SextetValue(r) % 4 * 64 + SextetValue(s)) as byte
  }

  /** `urlsafe_b64decode` of properly padded text; anything else is an error here. */
  function Decode(text: string): Option<seq<byte>> {
    if text == "" then Some([])
    else if |text| < 4 || !IsSextet(text[0]) || !IsSextet(text[1]) then None
    else if text[2..] == "==" then Some([FirstByte(text[0], text[1])])
    else if !IsSextet(text[2]) then None
    else if text[3..] == "=" then Some([FirstByte(text[0], text[1]), SecondByte(text[1], text[2])])
    else if !IsSextet(text[3]) then None
    else
      match Decode(text[4..])
      case None => None
      case Some(rest) =>
        Some([FirstByte(text[0], text[1]), SecondByte(text[1], text[2]), ThirdByte(text[2], text[3])] + rest)
  }

  /** `rstrip("=")` */
  function StripPadding(text: string): (r: string)
    ensures r <= text
    ensures r == "" || r[|r| - 1] != '='
  {
    if text != "" && text[|text| - 1] == '=' then StripPadding(text[..|text| - 1]) else text
  }

  /** What `"=" * (-len(text) % 4)` appends; Python's `%` is never negative here, like Dafny's. */
  function RestorePadding(text: string): string {
    text + seq(-|text| % 4, _ => '=')
  }

  /** The token form: encoded, with the padding stripped. */
  function EncodeToken(raw: seq<byte>): string {
    StripPadding(Encode(raw))
  }

  function DecodeToken(token: string): Option<seq<byte>> {
    Decode(RestorePadding(token))
  }

  lemma GroupBytes(a: byte, b: byte, c: byte)
    ensures var g := Group(a, b, c);
      && (forall k :: 0 <= k < 4 ==> IsSextet(g[k]))
      && FirstByte(g[0], g[1]) == a && SecondByte(g[1], g[2]) == b && ThirdByte(g[2], g[3]) == c
  {
    var x, y, z := a as int, b as int, c as int;
    SextetRoundTrip(x / 4);
    SextetRoundTrip(x % 4 * 16 + y / 16);
    SextetRoundTrip(y % 16 * 4 + z / 64);
    SextetRoundTrip(z % 64);
    CarryAndRest(x % 4, y / 16, 16);
    CarryAndRest(y % 16, z / 64, 4);
  }

  lemma CarryAndRest(hi: nat, lo: nat, base: nat)
    requires lo < base && (base == 4 || base == 16)
    ensures (hi * base + lo) / base == hi && (hi * base + lo) % base == lo
  {
  }

  lemma DecodeGroup(g: string, a: byte, b: byte, c: byte, text: string, rest: seq<byte>)
    requires |g| == 4 && (forall k :: 0 <= k < 4 ==> IsSextet(g[k])) && Decode(text) == Some(rest)
    requires FirstByte(g[0], g[1]) == a && SecondByte(g[1], g[2]) == b && ThirdByte(g[2], g[3]) == c
    ensures Decode(g + text) == Some([a, b, c] + rest)
  {
    assert (g + text)[4..] == text && (g + text)[2..][0] == g[2] && (g + text)[3..][0] == g[3];
  }

  lemma DecodeTail(g: string, a: byte, b: byte)
    requires |g| == 4 && (forall k :: 0 <= k < 4 ==> IsSextet(g[k])) && FirstByte(g[0], g[1]) == a
    ensures Decode(g[..2] + "==") == Some([a])
    ensures SecondByte(g[1], g[2]) == b ==> Decode(g[..3] + "=") == Some([a, b])
  {
    assert (g[..2] + "==")[2..] == "==";
    assert (g[..3] + "=")[3..] == "=" && (g[..3] + "=")[2..][0] == g[2];
  }

  lemma OneRoundTrip(a: byte)
    ensures Decode(Encode([a])) == Some([a])
  {
    GroupBytes(a, 0, 0);
    DecodeTail(Group(a, 0, 0), a, 0);
  }

  lemma TwoRoundTrip(a: byte, b: byte)
    ensures Decode(Encode([a, b])) == Some([a, b])
  {
    GroupBytes(a, b, 0);
    DecodeTail(Group(a, b, 0), a, b);
  }

  lemma {:induction false} EncodeDecode(raw: seq<byte>)
    ensures Decode(Encode(raw)) == Some(raw)
  {
    if |raw| >= 3 {
      GroupBytes(raw[0], raw[1], raw[2]);
      EncodeDecode(raw[3..]);
      DecodeGroup(Group(raw[0], raw[1], raw[2]), raw[0], raw[1], raw[2], Encode(raw[3..]), raw[3..]);
      assert raw == [raw[0], raw[1], raw[2]] + raw[3..];
    } else if |raw| == 2 {
      TwoRoundTrip(raw[0], raw[1]);
      assert raw == [raw[0], raw[1]];
    } else if |raw| == 1 {
      OneRoundTrip(raw[0]);
      assert raw == [raw[0]];
    }
  }

  predicate AllSextets(s: string) {
    forall k :: 0 <= k < |s| ==> IsSextet(s[k])
  }

  /** Alphabet characters, one more than whole groups: no bytes encode to that. */
  predicate NotBase64(s: string) {
    AllSextets(s) && |s| % 4 == 1
  }

  lemma {:induction false} OneTooMany(text: string)
    requires |text| % 4 == 0 && |text| >= 4 && text[|text| - 3] == '='
    ensures Decode(text) == None
  {
    if |text| > 4 {
      assert text[2..] != "==" && text[3..] != "=";
      OneTooMany(text[4..]);
    }
  }

  lemma NotBase64Refused(s: string)
    requires NotBase64(s)
    ensures DecodeToken(s) == None
  {
    OneTooMany(RestorePadding(s));
  }

  /** Alphabet characters followed by exactly the padding their number calls for. */
  predicate Padded(text: string) {
    AllSextets(StripPadding(text)) && RestorePadding(StripPadding(text)) == text
  }

  lemma PaddedGroup(head: string, rest: string)
    requires |head| == 4 && AllSextets(head) && Padded(rest)
    ensures Padded(head + rest) && StripPadding(head + rest) != ""
  {
    StripAfter(head, rest);
    RestoreAfterGroup(head, StripPadding(rest));
  }

  lemma PaddedTail(head: string, padding: string)
    requires AllSextets(head) && ((|head| == 3 && padding == "=") || (|head| == 2 && padding == "=="))
    ensures Padded(head + padding) && StripPadding(head + padding) != ""
  {
    StripAfter(head, padding);
    assert padding[..|padding| - 1] == (if |head| == 3 then "" else "=");
    assert StripPadding("=") == "";
  }

  lemma {:induction false} EncodeShape(raw: seq<byte>)
    ensures Padded(Encode(raw))
    ensures raw != [] ==> StripPadding(Encode(raw)) != ""
  {
    if |raw| >= 3 {
      GroupBytes(raw[0], raw[1], raw[2]);
      EncodeShape(raw[3..]);
      PaddedGroup(Group(raw[0], raw[1], raw[2]), Encode(raw[3..]));
    } else if |raw| == 2 {
      GroupBytes(raw[0], raw[1], 0);
      PaddedTail(Group(raw[0], raw[1], 0)[..3], "=");
    } else if |raw| == 1 {
      GroupBytes(raw[0], 0, 0);
      PaddedTail(Group(raw[0], 0, 0)[..2], "==");
    }
  }

  lemma RestoreAfterGroup(head: string, rest: string)
    requires |head| == 4
    ensures RestorePadding(head + rest) == head + RestorePadding(rest)
  {
    assert -|head + rest| % 4 == -|rest| % 4;
  }

  lemma {:induction false} StripAfter(head: string, rest: string)
    requires AllSextets(head)
    ensures StripPadding(head + rest) == head + StripPadding(rest)
  {
    if rest == "" {
      assert head + rest == head;
      assert head != "" ==> head[|head| - 1] in head;
    } else if rest[|rest| - 1] == '=' {
      StripAfter(head, rest[..|rest| - 1]);
      assert (head + rest)[..|head + rest| - 1] == head + rest[..|rest| - 1];
    }
  }

  /** Stripping the padding loses nothing: it is a function of the length, and decoding restores it. */
  lemma TokenRoundTrip(raw: seq<byte>)
    ensures DecodeToken(EncodeToken(raw)) == Some(raw)
    ensures AllSextets(EncodeToken(raw))
    ensures raw != [] ==> EncodeToken(raw) != ""
  {
    EncodeShape(raw);
    EncodeDecode(raw);
  }
}
