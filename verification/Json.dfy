/**
 JSON text (RFC 8259) as Python's `json.dumps` writes it with `ensure_ascii` and `json.loads` reads it.

 Integers are values. Floats are kept as the literal Python prints for them, since their rounding is not
 the point here. An object is the list of its members in insertion order, as a Python dict is.
 */
module Json {
  import opened Wrappers
  import opened Decimal

  datatype Value =
    | Null
    | Bool(b: bool)
    | Int(i: int)
    | Float(literal: string)
    | Str(s: string)
    | Arr(items: seq<Value>)
    | Obj(members: seq<Member>)

  datatype Member = Member(key: string, value: Value)

  /** `separators=(",", ":")`, or the default `(", ", ": ")` */
  datatype Layout = Compact | Spaced

  function ItemSep(layout: Layout): string {
    if layout.Compact? then "," else ", "
  }

  function KeySep(layout: Layout): string {
    if layout.Compact? then ":" else ": "
  }

  // ---------------------------------------------------------------- strings

  function HexChar(d: nat): char
    requires d < 16
  {
    if d < 10 then DigitChar(d) else ('a' as int + d - 10) as char
  }

  function HexValue(c: char): Option<nat> {
    if '0' <= c <= '9' then Some(c as int - '0' as int)
    else if 'a' <= c <= 'f' then Some(c as int - 'a' as int + 10)
    else if 'A' <= c <= 'F' then Some(c as int - 'A' as int + 10)
    else None
  }

  /** `f"\\u{n:04x}"` without the leading backslash and u */
  function Hex4(n: nat): (s: string)
    requires n < 0x10000
    ensures |s| == 4
  {
    [HexChar(n / 4096), HexChar(n / 256 % 16), HexChar(n / 16 % 16), HexChar(n % 16)]
  }

  function ReadHex4(s: string): Option<nat> {
    if |s| < 4 then None
    else
      match (HexValue(s[0]), HexValue(s[1]), HexValue(s[2]), HexValue(s[3]))
      case (Some(a), Some(b), Some(c), Some(d)) => Some(a * 4096 + b * 256 + c * 16 + d)
      case _ => None
  }

  predicate Printable(c: char) {
    ' ' <= c <= '~'
  }

  /** How one character is written inside a string literal; outside the BMP, as a surrogate pair. */
  function Escape(c: char): string {
    if c == '"' then "\\\""
    else if c == '\\' then "\\\\"
    else if c == '\n' then "\\n"
    else if c == '\r' then "\\r"
    else if c == '\t' then "\\t"
    else if c == '\U{8}' then "\\b"
    else if c == '\U{c}' then "\\f"
    else if Printable(c) then [c]
    else if c as int < 0x10000 then "\\u" + Hex4(c as int)
    else EscapePair(c as int - 0x10000)
  }

  function EscapePair(n: nat): string
    requires n < 0x100000
  {
    "\\u" + Hex4(0xD800 + n / 1024) + "\\u" + Hex4(0xDC00 + n % 1024)
  }

  function EscapeAll(s: string): string {
    if s == [] then "" else Escape(s[0]) + EscapeAll(s[1..])
  }

  /** The character named after a backslash and u: four digits, or two groups of them forming a pair. */
  function ReadUnicode(s: string): (r: Option<(char, string)>)
    ensures r.Some? ==> |r.value.1| < |s|
  {
    match ReadHex4(s)
    case None => None
    case Some(n) =>
      if n < 0xD800 || 0xE000 <= n < 0x10000 then Some((n as char, s[4..]))
      else if 0xD800 <= n < 0xDC00 && |s| >= 6 && s[4..6] == "\\u" then
        match ReadHex4(s[6..])
        case Some(m) =>
          if 0xDC00 <= m < 0xE000 then
            Some(((0x10000 + (n - 0xD800) * 1024 + (m - 0xDC00)) as char, s[10..]))
          else None
        case None => None
      else None
  }

  /** One character of a string literal, and what follows it. */
  function ReadChar(s: string): (r: Option<(char, string)>)
    ensures r.Some? ==> |r.value.1| < |s|
  {
    if s == [] || s[0] < ' ' then None
    else if s[0] != '\\' then Some((s[0], s[1..]))
    else if |s| == 1 then None
    else if s[1] == '"' then Some(('"', s[2..]))
    else if s[1] == '\\' then Some(('\\', s[2..]))
    else if s[1] == '/' then Some(('/', s[2..]))
    else if s[1] == 'n' then Some(('\n', s[2..]))
    else if s[1] == 'r' then Some(('\r', s[2..]))
    else if s[1] == 't' then Some(('\t', s[2..]))
    else if s[1] == 'b' then Some(('\U{8}', s[2..]))
    else if s[1] == 'f' then Some(('\U{c}', s[2..]))
    else if s[1] == 'u' then ReadUnicode(s[2..])
    else None
  }

  /** The characters up to the closing quote, and what follows it. */
  function ReadString(s: string): (r: Option<(string, string)>)
    ensures r.Some? ==> |r.value.1| < |s|
    decreases |s|
  {
    if s != [] && s[0] == '"' then Some(("", s[1..]))
    else
      match ReadChar(s)
      case None => None
      case Some((c, rest)) =>
        match ReadString(rest)
        case None => None
        case Some((cs, tail)) => Some(([c] + cs, tail))
  }

  lemma HexRoundTrip(n: nat, tail: string)
    requires n < 0x10000
    ensures ReadHex4(Hex4(n) + tail) == Some(n)
  {
    var s := Hex4(n) + tail;
    assert s[..4] == Hex4(n);
    HexDigits(n);
  }

  lemma HexDigits(n: nat)
    requires n < 0x10000
    ensures n / 4096 * 4096 + n / 256 % 16 * 256 + n / 16 % 16 * 16 + n % 16 == n
  {
    var q, s, u := n / 16, n / 16 / 16, n / 16 / 16 / 16;
    Quotient(n, 256, s);
    Quotient(n, 4096, u);
  }

  lemma Quotient(n: nat, d: nat, q: nat)
    requires (d == 256 || d == 4096) && d * q <= n < d * q + d
    ensures n / d == q
  {
  }

  lemma {:induction false} EscapeRoundTrip(c: char, tail: string)
    ensures ReadChar(Escape(c) + tail) == Some((c, tail))
  {
    var n := c as int;
    if c in "\"\\\n\r\t\U{8}\U{c}" {
      assert (Escape(c) + tail)[2..] == tail;
    } else if Printable(c) {
      assert (Escape(c) + tail)[1..] == tail;
    } else if n < 0x10000 {
      var body := Hex4(n) + tail;
      assert (Escape(c) + tail)[2..] == body && body[4..] == tail;
      HexRoundTrip(n, tail);
    } else {
      PairRoundTrip(c, tail);
    }
  }

  lemma PairRoundTrip(c: char, tail: string)
    requires c as int >= 0x10000
    ensures ReadChar(Escape(c) + tail) == Some((c, tail))
  {
    PairIsRead(c as int - 0x10000, tail);
  }

  lemma PairIsRead(n: nat, tail: string)
    requires n < 0x100000
    ensures ReadChar(EscapePair(n) + tail) == Some(((0x10000 + n) as char, tail))
  {
    var hi, lo := Hex4(0xD800 + n / 1024), Hex4(0xDC00 + n % 1024);
    PairShape(hi, lo, tail);
    UnicodeEscape(hi + ("\\u" + (lo + tail)));
    ReadPair(0xD800 + n / 1024, 0xDC00 + n % 1024, tail);
  }

  lemma PairShape(hi: string, lo: string, tail: string)
    ensures "\\u" + hi + "\\u" + lo + tail == "\\u" + (hi + ("\\u" + (lo + tail)))
  {
  }

  lemma UnicodeEscape(rest: string)
    ensures ReadChar("\\u" + rest) == ReadUnicode(rest)
  {
    assert ("\\u" + rest)[2..] == rest;
  }

  lemma ReadPair(hi: nat, lo: nat, tail: string)
    requires 0xD800 <= hi < 0xDC00 <= lo < 0xE000
    ensures ReadUnicode(Hex4(hi) + ("\\u" + (Hex4(lo) + tail)))
         == Some(((0x10000 + (hi - 0xD800) * 1024 + (lo - 0xDC00)) as char, tail))
  {
    var second := Hex4(lo) + tail;
    var body := Hex4(hi) + ("\\u" + second);
    HexRoundTrip(hi, "\\u" + second);
    HexRoundTrip(lo, tail);
    assert body[4..6] == "\\u" && body[6..] == second && body[10..] == tail;
  }

  lemma EscapeHead(c: char)
    ensures |Escape(c)| > 0 && Escape(c)[0] != '"'
    ensures forall k :: 0 <= k < |Escape(c)| ==> Printable(Escape(c)[k])
  {
  }

  lemma ReadOneMore(c: char, rest: string, cs: string, tail: string)
    requires ReadString(rest) == Some((cs, tail))
    ensures ReadString(Escape(c) + rest) == Some(([c] + cs, tail))
  {
    EscapeHead(c);
    EscapeRoundTrip(c, rest);
  }

  /** A string literal is read back whatever text comes after its closing quote. */
  lemma {:induction false} StringRoundTrip(s: string, tail: string)
    ensures ReadString(EscapeAll(s) + "\"" + tail) == Some((s, tail))
  {
    if s == [] {
      assert EscapeAll(s) + "\"" + tail == "\"" + tail;
    } else {
      var rest := EscapeAll(s[1..]) + "\"" + tail;
      assert EscapeAll(s) + "\"" + tail == Escape(s[0]) + rest;
      StringRoundTrip(s[1..], tail);
      ReadOneMore(s[0], rest, s[1..], tail);
      assert s == [s[0]] + s[1..];
    }
  }

  // ---------------------------------------------------------------- numbers

  predicate NumberChar(c: char) {
    IsDigit(c) || c == '-' || c == '+' || c == '.' || c == 'e' || c == 'E'
  }

  predicate IsIntLiteral(s: string) {
    var t := if s != [] && s[0] == '-' then s[1..] else s;
    t != [] && AllDigits(t) && (t[0] == '0' ==> |t| == 1)
  }

  function IntOf(s: string): int
    requires IsIntLiteral(s)
  {
    if s[0] == '-' then -(ValueOf(s[1..]) as int) else ValueOf(s)
  }

  function IntLiteral(i: int): (s: string)
    ensures IsIntLiteral(s)
  {
    if i < 0 then
      assert ("-" + Dec(-i))[1..] == Dec(-i);
      "-" + Dec(-i)
    else
      assert Dec(i)[0] in Dec(i);
      Dec(i)
  }

  /** The part of a literal before the first of the marks that end it. */
  function Before(s: string, marks: string): (p: string)
    ensures p <= s && (p != s ==> s[|p|] in marks)
  {
    if s == [] || s[0] in marks then [] else [s[0]] + Before(s[1..], marks)
  }

  /** An integer part, then a fraction, an exponent, or both (RFC 8259, section 6). */
  predicate IsFloatLiteral(s: string) {
    var whole := Before(s, ".eE");
    var after := s[|whole|..];
    var frac := if after != [] && after[0] == '.' then Before(after[1..], "eE") else [];
    var exponent := if after != [] && after[0] == '.' then after[1 + |frac|..] else after;
    var power := if |exponent| >= 2 && exponent[1] in "+-" then exponent[2..]
                 else if exponent != [] then exponent[1..] else [];
    && IsIntLiteral(whole)
    && after != []
    && (after[0] == '.' ==> frac != [] && AllDigits(frac))
    && (exponent != [] ==> power != [] && AllDigits(power))
    && (forall c :: c in s ==> NumberChar(c))
  }

  /** The longest prefix that could belong to a number. */
  function NumberPrefix(s: string): (p: string)
    ensures p <= s
    ensures p == s || !NumberChar(s[|p|])
    ensures forall c :: c in p ==> NumberChar(c)
  {
    if s != [] && NumberChar(s[0]) then [s[0]] + NumberPrefix(s[1..]) else []
  }

  function ReadNumber(s: string): (r: Option<(Value, string)>)
    ensures r.Some? ==> |r.value.1| < |s|
  {
    var p := NumberPrefix(s);
    if IsIntLiteral(p) then Some((Int(IntOf(p)), s[|p|..]))
    else if p != [] && IsFloatLiteral(p) then Some((Float(p), s[|p|..]))
    else None
  }

  /** Text that cannot lengthen a number it follows. */
  predicate Stops(tail: string) {
    tail == [] || !NumberChar(tail[0])
  }

  lemma {:induction false} PrefixStops(p: string, tail: string)
    requires Stops(tail) && forall c :: c in p ==> NumberChar(c)
    ensures NumberPrefix(p + tail) == p
  {
    if p == [] {
      assert p + tail == tail;
    } else {
      assert p[0] in p;
      PrefixStops(p[1..], tail);
      assert (p + tail)[1..] == p[1..] + tail;
    }
  }

  lemma FloatIsNotInt(s: string)
    requires IsFloatLiteral(s)
    ensures !IsIntLiteral(s)
  {
    var whole := Before(s, ".eE");
    assert s[|whole|] in s && !IsDigit(s[|whole|]);
    assert |whole| > 0;
  }

  lemma NumberRoundTrip(v: Value, tail: string)
    requires v.Int? || (v.Float? && IsFloatLiteral(v.literal))
    requires Stops(tail)
    ensures ReadNumber((if v.Int? then IntLiteral(v.i) else v.literal) + tail) == Some((v, tail))
  {
    var p := if v.Int? then IntLiteral(v.i) else v.literal;
    PrefixStops(p, tail);
    assert (p + tail)[|p|..] == tail;
    if v.Int? {
      ValueDec(if v.i < 0 then -v.i else v.i);
      if v.i < 0 {
        assert p[1..] == Dec(-v.i);
      } else {
        assert p[0] in p;
      }
    } else {
      FloatIsNotInt(p);
    }
  }

  // ---------------------------------------------------------------- values

  function Literal(s: string): string {
    "\"" + EscapeAll(s) + "\""
  }

  /** `json.dumps(v, separators=...)` */
  function Dumps(v: Value, layout: Layout): string
    decreases v, 1
  {
    match v
    case Null => "null"
    case Bool(b) => if b then "true" else "false"
    case Int(i) => IntLiteral(i)
    case Float(literal) => literal
    case Str(s) => Literal(s)
    case Arr(items) => "[" + DumpItems(items, layout) + "]"
    case Obj(members) => "{" + DumpMembers(members, layout) + "}"
  }

  function DumpItems(items: seq<Value>, layout: Layout): string
    decreases items, 0
  {
    if items == [] then ""
    else if |items| == 1 then Dumps(items[0], layout)
    else Dumps(items[0], layout) + ItemSep(layout) + DumpItems(items[1..], layout)
  }

  function DumpMember(m: Member, layout: Layout): string
    decreases m, 2
  {
    Literal(m.key) + (KeySep(layout) + Dumps(m.value, layout))
  }

  function DumpMembers(members: seq<Member>, layout: Layout): string
    decreases members, 0
  {
    if members == [] then ""
    else if |members| == 1 then DumpMember(members[0], layout)
    else DumpMember(members[0], layout) + ItemSep(layout) + DumpMembers(members[1..], layout)
  }

  /** A list of two items, and a dict of two members: blanks only in the spaced layout. */
  lemma TwoItems(v: Value, w: Value, layout: Layout)
    ensures Dumps(Arr([v, w]), layout)
      == "[" + (Dumps(v, layout) + (if layout.Compact? then "," else ", ") + Dumps(w, layout)) + "]"
  {
    assert [v, w][1..] == [w];
    assert DumpItems([w], layout) == Dumps(w, layout);
  }

  lemma TwoMembers(k: string, v: Value, l: string, w: Value, layout: Layout)
    ensures var comma, colon := if layout.Compact? then "," else ", ", if layout.Compact? then ":" else ": ";
      Dumps(Obj([Member(k, v), Member(l, w)]), layout)
        == "{" + (Dumps(Str(k), layout) + (colon + Dumps(v, layout)) + comma
                  + (Dumps(Str(l), layout) + (colon + Dumps(w, layout)))) + "}"
  {
    var members := [Member(k, v), Member(l, w)];
    assert members[1..] == [Member(l, w)];
    assert DumpMembers(members[1..], layout) == DumpMember(members[1], layout);
    assert Dumps(Str(k), layout) == Literal(k) && Dumps(Str(l), layout) == Literal(l);
    assert DumpMembers(members, layout)
      == DumpMember(members[0], layout) + ItemSep(layout) + DumpMember(members[1], layout);
  }

  predicate IsBlank(c: char) {
    c == ' ' || c == '\t' || c == '\n' || c == '\r'
  }

  function SkipBlanks(s: string): (r: string)
    ensures |r| <= |s|
  {
    if s != [] && IsBlank(s[0]) then SkipBlanks(s[1..]) else s
  }

  function ReadValue(s: string): (r: Option<(Value, string)>)
    ensures r.Some? ==> |r.value.1| < |s|
    decreases |s|, 1
  {
    if s == [] then None
    else if s[0] == '"' then
      match ReadString(s[1..]) { case None => None case Some((cs, rest)) => Some((Str(cs), rest)) }
    else if s[0] == '[' then
      var t := SkipBlanks(s[1..]);
      if t != [] && t[0] == ']' then Some((Arr([]), t[1..]))
      else match ReadItems(t) { case None => None case Some((items, rest)) => Some((Arr(items), rest)) }
    else if s[0] == '{' then
      var t := SkipBlanks(s[1..]);
      if t != [] && t[0] == '}' then Some((Obj([]), t[1..]))
      else match ReadMembers(t) { case None => None case Some((ms, rest)) => Some((Obj(ms), rest)) }
    else if "null" <= s then Some((Null, s[4..]))
    else if "true" <= s then Some((Bool(true), s[4..]))
    else if "false" <= s then Some((Bool(false), s[5..]))
    else ReadNumber(s)
  }

  /** The items from here up to the closing bracket. */
  function ReadItems(s: string): (r: Option<(seq<Value>, string)>)
    ensures r.Some? ==> |r.value.1| < |s|
    decreases |s|, 2
  {
    match ReadValue(s)
    case None => None
    case Some((v, rest)) =>
      var t := SkipBlanks(rest);
      if t != [] && t[0] == ']' then Some(([v], t[1..]))
      else if t != [] && t[0] == ',' then
        match ReadItems(SkipBlanks(t[1..])) { case None => None case Some((vs, end)) => Some(([v] + vs, end)) }
      else None
  }

  /** One `"key": value` member. */
  function ReadMember(s: string): (r: Option<(Member, string)>)
    ensures r.Some? ==> |r.value.1| < |s|
    decreases |s|, 3
  {
    if s == [] || s[0] != '"' then None
    else
      match ReadString(s[1..])
      case None => None
      case Some((key, rest)) => ReadMemberValue(key, SkipBlanks(rest))
  }

  /** The colon and the value that follow a key. */
  function ReadMemberValue(key: string, s: string): (r: Option<(Member, string)>)
    ensures r.Some? ==> |r.value.1| < |s|
    decreases |s|, 2
  {
    if s == [] || s[0] != ':' then None
    else
      match ReadValue(SkipBlanks(s[1..])) { case None => None case Some((v, end)) => Some((Member(key, v), end)) }
  }

  /** The members from here up to the closing brace. */
  function ReadMembers(s: string): (r: Option<(seq<Member>, string)>)
    ensures r.Some? ==> |r.value.1| < |s|
    decreases |s|, 4
  {
    match ReadMember(s)
    case None => None
    case Some((m, rest)) =>
      var t := SkipBlanks(rest);
      if t != [] && t[0] == '}' then Some(([m], t[1..]))
      else if t != [] && t[0] == ',' then
        match ReadMembers(SkipBlanks(t[1..])) { case None => None case Some((ms, end)) => Some(([m] + ms, end)) }
      else None
  }

  /** `json.loads`: one value, with blanks around it and nothing else. */
  function Loads(text: string): Option<Value> {
    match ReadValue(SkipBlanks(text))
    case None => None
    case Some((v, rest)) => if SkipBlanks(rest) == [] then Some(v) else None
  }

  /** Every float in the value is spelled as RFC 8259 requires. */
  predicate Valid(v: Value)
    decreases v
  {
    match v
    case Float(literal) => IsFloatLiteral(literal)
    case Arr(items) => forall k :: 0 <= k < |items| ==> Valid(items[k])
    case Obj(members) => forall k :: 0 <= k < |members| ==> Valid(members[k].value)
    case _ => true
  }

  predicate ValidMembers(members: seq<Member>) {
    forall k :: 0 <= k < |members| ==> Valid(members[k].value)
  }

  // ---------------------------------------------------------------- round trip

  lemma DumpsHead(v: Value, layout: Layout)
    requires Valid(v)
    ensures var s := Dumps(v, layout); s != [] && !IsBlank(s[0]) && s[0] != ']' && s[0] != '}'
  {
    if v.Float? {
      assert Before(v.literal, ".eE") != [];
      assert v.literal[0] in v.literal;
    } else if v.Int? {
      var p := IntLiteral(v.i);
      assert p[0] in p;
    }
  }

  lemma Unblanked(s: string)
    requires s != [] && !IsBlank(s[0])
    ensures SkipBlanks(s) == s && SkipBlanks(" " + s) == s
  {
    assert (" " + s)[1..] == s;
  }

  lemma AfterSeparator(sep: string, head: char, text: string)
    requires sep == [head] || sep == [head, ' ']
    requires !IsBlank(head) && text != [] && !IsBlank(text[0])
    ensures SkipBlanks(sep + text) == sep + text
    ensures SkipBlanks((sep + text)[1..]) == text
  {
    Unblanked(text);
    Unblanked(sep + text);
    assert (sep + text)[1..] == (if |sep| == 1 then text else " " + text);
  }

  lemma Quoted(body: string, tail: string)
    ensures var s := "\"" + body + "\"" + tail; s[0] == '"' && s[1..] == body + "\"" + tail
  {
  }

  lemma LiteralRoundTrip(s: string, tail: string)
    ensures (Literal(s) + tail)[0] == '"'
    ensures ReadString((Literal(s) + tail)[1..]) == Some((s, tail))
  {
    StringRoundTrip(s, tail);
    Quoted(EscapeAll(s), tail);
  }

  /** What a value is printed as is read back as that value, whatever follows it. */
  lemma {:induction false} ValueRoundTrip(v: Value, layout: Layout, tail: string)
    requires Valid(v) && Stops(tail)
    ensures ReadValue(Dumps(v, layout) + tail) == Some((v, tail))
    decreases v, 1
  {
    match v
    case Null => assert ("null" + tail)[4..] == tail;
    case Bool(b) =>
      if b { assert ("true" + tail)[4..] == tail; } else { assert ("false" + tail)[5..] == tail; }
    case Int(i) => NumberIsRead(v, layout, tail);
    case Float(literal) => NumberIsRead(v, layout, tail);
    case Str(s) => LiteralRoundTrip(s, tail);
    case Arr(items) => ArrayRoundTrip(items, layout, tail);
    case Obj(members) => ObjectRoundTrip(members, layout, tail);
  }

  lemma NumberIsRead(v: Value, layout: Layout, tail: string)
    requires Valid(v) && Stops(tail) && (v.Int? || v.Float?)
    ensures ReadValue(Dumps(v, layout) + tail) == Some((v, tail))
  {
    NumberHead(v, layout);
    NumberRoundTrip(v, tail);
    NumberValue(Dumps(v, layout) + tail);
  }

  lemma NumberValue(s: string)
    requires s != [] && NumberChar(s[0])
    ensures ReadValue(s) == ReadNumber(s)
  {
    OtherStart("null", s);
    OtherStart("true", s);
    OtherStart("false", s);
  }

  lemma OtherStart(word: string, s: string)
    requires word != [] && s != [] && word[0] != s[0]
    ensures !(word <= s)
  {
  }

  lemma NumberHead(v: Value, layout: Layout)
    requires Valid(v) && (v.Int? || v.Float?)
    ensures Dumps(v, layout) != [] && NumberChar(Dumps(v, layout)[0])
  {
    DumpsHead(v, layout);
    var p := Dumps(v, layout);
    if v.Int? {
      assert p[0] == '-' || p[0] in p;
      assert p[0] != '-' ==> AllDigits(p);
    } else {
      assert p[0] in v.literal;
    }
  }

  lemma ArrayStart(t: string, items: seq<Value>, tail: string)
    requires ReadItems(t) == Some((items, tail)) && t != [] && !IsBlank(t[0]) && t[0] != ']'
    ensures ReadValue("[" + t) == Some((Arr(items), tail))
  {
    assert ("[" + t)[1..] == t;
    Unblanked(t);
  }

  lemma ArrayRead(body: string, items: seq<Value>, tail: string)
    requires ReadItems(body + ("]" + tail)) == Some((items, tail))
    requires body != [] && !IsBlank(body[0]) && body[0] != ']'
    ensures ReadValue("[" + body + "]" + tail) == Some((Arr(items), tail))
  {
    ArrayStart(body + ("]" + tail), items, tail);
    Regroup("[", body, "]", tail);
  }

  lemma EmptyArrayRead(tail: string)
    ensures ReadValue("[" + "" + "]" + tail) == Some((Arr([]), tail))
  {
    assert ("[" + "" + "]" + tail)[1..] == "]" + tail;
    assert ("]" + tail)[1..] == tail;
  }

  lemma {:induction false} ArrayRoundTrip(items: seq<Value>, layout: Layout, tail: string)
    requires forall k :: 0 <= k < |items| ==> Valid(items[k])
    ensures ReadValue("[" + DumpItems(items, layout) + "]" + tail) == Some((Arr(items), tail))
    decreases items, 1
  {
    if items == [] {
      EmptyArrayRead(tail);
    } else {
      ItemsHead(items, layout);
      ItemsRoundTrip(items, layout, tail);
      ArrayRead(DumpItems(items, layout), items, tail);
    }
  }

  lemma ItemsHead(items: seq<Value>, layout: Layout)
    requires items != [] && Valid(items[0])
    ensures var s := DumpItems(items, layout); s != [] && !IsBlank(s[0]) && s[0] != ']'
  {
    DumpsHead(items[0], layout);
  }

  lemma Regroup(a: string, b: string, c: string, d: string)
    ensures a + b + c + d == a + (b + (c + d))
  {
  }

  lemma ItemsStep(s: string, v: Value, rest: string)
    requires ReadValue(s) == Some((v, rest)) && rest != []
    ensures rest[0] == ']' ==> ReadItems(s) == Some(([v], rest[1..]))
    ensures rest[0] == ',' && ReadItems(SkipBlanks(rest[1..])).Some? ==>
      var (vs, end) := ReadItems(SkipBlanks(rest[1..])).value; ReadItems(s) == Some(([v] + vs, end))
  {
    if !IsBlank(rest[0]) {
      Unblanked(rest);
    }
  }

  lemma ItemsMore(first: string, v: Value, sep: string, body: string, items: seq<Value>, tail: string,
                  all: string)
    requires sep == [','] || sep == [',', ' ']
    requires body != [] && !IsBlank(body[0])
    requires var rest := sep + (body + ("]" + tail)); ReadValue(first + rest) == Some((v, rest))
    requires ReadItems(body + ("]" + tail)) == Some((items, tail))
    requires all == first + sep + body
    ensures ReadItems(all + ("]" + tail)) == Some(([v] + items, tail))
  {
    var more := body + ("]" + tail);
    Regroup(first, sep, body, "]" + tail);
    AfterSeparator(sep, ',', more);
    ItemsStep(first + (sep + more), v, sep + more);
  }

  lemma ItemsLast(first: string, v: Value, tail: string)
    requires ReadValue(first + ("]" + tail)) == Some((v, "]" + tail))
    ensures ReadItems(first + ("]" + tail)) == Some(([v], tail))
  {
    ItemsStep(first + ("]" + tail), v, "]" + tail);
    assert ("]" + tail)[1..] == tail;
  }

  lemma {:induction false} ItemsRoundTrip(items: seq<Value>, layout: Layout, tail: string)
    requires items != [] && forall k :: 0 <= k < |items| ==> Valid(items[k])
    ensures ReadItems(DumpItems(items, layout) + ("]" + tail)) == Some((items, tail))
    decreases items, 0
  {
    var v, first := items[0], Dumps(items[0], layout);
    if |items| == 1 {
      ValueRoundTrip(v, layout, "]" + tail);
      ItemsLast(first, v, tail);
      assert items == [v];
    } else {
      var rest, sep := items[1..], ItemSep(layout);
      var body := DumpItems(rest, layout);
      assert items == [v] + rest;
      ItemsHead(rest, layout);
      ValueRoundTrip(v, layout, sep + (body + ("]" + tail)));
      ItemsRoundTrip(rest, layout, tail);
      ItemsMore(first, v, sep, body, rest, tail, first + sep + body);
    }
  }

  lemma ObjectStart(t: string, members: seq<Member>, tail: string)
    requires ReadMembers(t) == Some((members, tail)) && t != [] && t[0] == '"'
    ensures ReadValue("{" + t) == Some((Obj(members), tail))
  {
    assert ("{" + t)[1..] == t;
    Unblanked(t);
  }

  lemma ObjectRead(body: string, members: seq<Member>, tail: string)
    requires ReadMembers(body + ("}" + tail)) == Some((members, tail)) && body != [] && body[0] == '"'
    ensures ReadValue("{" + body + "}" + tail) == Some((Obj(members), tail))
  {
    ObjectStart(body + ("}" + tail), members, tail);
    Regroup("{", body, "}", tail);
  }

  lemma EmptyObjectRead(tail: string)
    ensures ReadValue("{" + "" + "}" + tail) == Some((Obj([]), tail))
  {
    assert ("{" + "" + "}" + tail)[1..] == "}" + tail;
    assert ("}" + tail)[1..] == tail;
  }

  lemma {:induction false} ObjectRoundTrip(members: seq<Member>, layout: Layout, tail: string)
    requires ValidMembers(members)
    ensures ReadValue("{" + DumpMembers(members, layout) + "}" + tail) == Some((Obj(members), tail))
    decreases members, 1
  {
    if members == [] {
      EmptyObjectRead(tail);
    } else {
      MembersHead(members, layout);
      MembersRoundTrip(members, layout, tail);
      ObjectRead(DumpMembers(members, layout), members, tail);
    }
  }

  lemma MembersHead(members: seq<Member>, layout: Layout)
    requires members != []
    ensures var s := DumpMembers(members, layout); s != [] && s[0] == '"'
  {
    assert DumpMember(members[0], layout)[0] == '"';
  }

  lemma {:induction false} MemberRoundTrip(m: Member, layout: Layout, tail: string)
    requires Valid(m.value) && Stops(tail)
    ensures ReadMember(DumpMember(m, layout) + tail) == Some((m, tail))
    decreases m, 2
  {
    var value := Dumps(m.value, layout) + tail;
    assert DumpMember(m, layout) + tail == Literal(m.key) + (KeySep(layout) + value);
    DumpsHead(m.value, layout);
    ValueRoundTrip(m.value, layout, tail);
    MemberRead(m, KeySep(layout), value, tail);
  }

  lemma MemberRead(m: Member, sep: string, value: string, tail: string)
    requires sep == [':'] || sep == [':', ' ']
    requires value != [] && !IsBlank(value[0]) && ReadValue(value) == Some((m.value, tail))
    ensures ReadMember(Literal(m.key) + (sep + value)) == Some((m, tail))
  {
    LiteralRoundTrip(m.key, sep + value);
    AfterSeparator(sep, ':', value);
  }

  lemma MembersStep(s: string, m: Member, rest: string)
    requires ReadMember(s) == Some((m, rest)) && rest != []
    ensures rest[0] == '}' ==> ReadMembers(s) == Some(([m], rest[1..]))
    ensures rest[0] == ',' && ReadMembers(SkipBlanks(rest[1..])).Some? ==>
      var (ms, end) := ReadMembers(SkipBlanks(rest[1..])).value; ReadMembers(s) == Some(([m] + ms, end))
  {
    if !IsBlank(rest[0]) {
      Unblanked(rest);
    }
  }

  lemma MembersMore(first: string, m: Member, sep: string, body: string, members: seq<Member>, tail: string,
                    all: string)
    requires sep == [','] || sep == [',', ' ']
    requires body != [] && !IsBlank(body[0])
    requires var rest := sep + (body + ("}" + tail)); ReadMember(first + rest) == Some((m, rest))
    requires ReadMembers(body + ("}" + tail)) == Some((members, tail))
    requires all == first + sep + body
    ensures ReadMembers(all + ("}" + tail)) == Some(([m] + members, tail))
  {
    var more := body + ("}" + tail);
    Regroup(first, sep, body, "}" + tail);
    AfterSeparator(sep, ',', more);
    MembersStep(first + (sep + more), m, sep + more);
  }

  lemma MembersLast(first: string, m: Member, tail: string)
    requires ReadMember(first + ("}" + tail)) == Some((m, "}" + tail))
    ensures ReadMembers(first + ("}" + tail)) == Some(([m], tail))
  {
    MembersStep(first + ("}" + tail), m, "}" + tail);
    assert ("}" + tail)[1..] == tail;
  }

  lemma {:induction false} MembersRoundTrip(members: seq<Member>, layout: Layout, tail: string)
    requires members != [] && ValidMembers(members)
    ensures ReadMembers(DumpMembers(members, layout) + ("}" + tail)) == Some((members, tail))
    decreases members, 0
  {
    var m, first := members[0], DumpMember(members[0], layout);
    if |members| == 1 {
      MemberRoundTrip(m, layout, "}" + tail);
      MembersLast(first, m, tail);
      assert members == [m];
    } else {
      var rest, sep := members[1..], ItemSep(layout);
      var body := DumpMembers(rest, layout);
      assert members == [m] + rest;
      MembersHead(rest, layout);
      MemberRoundTrip(m, layout, sep + (body + ("}" + tail)));
      MembersRoundTrip(rest, layout, tail);
      MembersMore(first, m, sep, body, rest, tail, first + sep + body);
    }
  }

  /** `json.loads(json.dumps(v)) == v`, in either layout. */
  lemma LoadsDumps(v: Value, layout: Layout)
    requires Valid(v)
    ensures Loads(Dumps(v, layout)) == Some(v)
  {
    ValueRoundTrip(v, layout, []);
    DumpsHead(v, layout);
    Unblanked(Dumps(v, layout));
    assert Dumps(v, layout) + [] == Dumps(v, layout);
  }

  /** Two values print alike only when they are the same value. */
  lemma DumpsInjective(v: Value, w: Value, layout: Layout)
    requires Valid(v) && Valid(w)
    requires Dumps(v, layout) == Dumps(w, layout)
    ensures v == w
  {
    LoadsDumps(v, layout);
    LoadsDumps(w, layout);
  }

  // ---------------------------------------------------------------- ASCII

  predicate Ascii(s: string) {
    forall k :: 0 <= k < |s| ==> Printable(s[k])
  }

  lemma AsciiConcat(a: string, b: string)
    requires Ascii(a) && Ascii(b)
    ensures Ascii(a + b)
  {
  }

  lemma {:induction false} EscapedAscii(s: string)
    ensures Ascii(EscapeAll(s))
  {
    if s != [] {
      EscapeHead(s[0]);
      EscapedAscii(s[1..]);
      AsciiConcat(Escape(s[0]), EscapeAll(s[1..]));
    }
  }

  lemma LiteralAscii(s: string)
    ensures Ascii(Literal(s))
  {
    EscapedAscii(s);
    AsciiConcat("\"", EscapeAll(s));
    AsciiConcat("\"" + EscapeAll(s), "\"");
  }

  lemma BracketsAscii(open: string, body: string, close: string)
    requires |open| == |close| == 1 && Printable(open[0]) && Printable(close[0]) && Ascii(body)
    ensures Ascii(open + body + close)
  {
  }

  lemma IntAscii(i: int)
    ensures Ascii(IntLiteral(i))
  {
  }

  lemma FloatAscii(s: string)
    requires forall c :: c in s ==> NumberChar(c)
    ensures Ascii(s)
  {
    forall k | 0 <= k < |s| ensures Printable(s[k]) {
      assert s[k] in s;
    }
  }

  /** Escaping leaves only printable ASCII, so encoding the text as UTF-8 is one byte a character. */
  lemma {:induction false} DumpsAscii(v: Value, layout: Layout)
    requires Valid(v)
    ensures Ascii(Dumps(v, layout))
    decreases v, 1
  {
    match v
    case Str(s) => LiteralAscii(s);
    case Arr(items) =>
      ItemsAscii(items, layout);
      BracketsAscii("[", DumpItems(items, layout), "]");
    case Obj(members) =>
      MembersAscii(members, layout);
      BracketsAscii("{", DumpMembers(members, layout), "}");
    case Int(i) => IntAscii(i);
    case Float(literal) => FloatAscii(literal);
    case _ =>
  }

  lemma JoinedAscii(a: string, sep: string, b: string)
    requires Ascii(a) && Ascii(sep) && Ascii(b)
    ensures Ascii(a + sep + b) && Ascii(a + (sep + b))
  {
  }

  lemma {:induction false} ItemsAscii(items: seq<Value>, layout: Layout)
    requires forall k :: 0 <= k < |items| ==> Valid(items[k])
    ensures Ascii(DumpItems(items, layout))
    decreases items, 0
  {
    if items != [] {
      DumpsAscii(items[0], layout);
      ItemsAscii(items[1..], layout);
      JoinedAscii(Dumps(items[0], layout), ItemSep(layout), DumpItems(items[1..], layout));
    }
  }

  lemma {:induction false} MembersAscii(members: seq<Member>, layout: Layout)
    requires ValidMembers(members)
    ensures Ascii(DumpMembers(members, layout))
    decreases members, 0
  {
    if members != [] {
      LiteralAscii(members[0].key);
      DumpsAscii(members[0].value, layout);
      JoinedAscii(Literal(members[0].key), KeySep(layout), Dumps(members[0].value, layout));
      MembersAscii(members[1..], layout);
      JoinedAscii(DumpMember(members[0], layout), ItemSep(layout), DumpMembers(members[1..], layout));
    }
  }
}
