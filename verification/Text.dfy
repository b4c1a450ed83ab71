/**
 Text comparison, searching and trimming, on strings as sequences of code points.

 `Less` is the order Python uses between `str` values and SQLite's BINARY collation uses between TEXT
 values (they agree on the ASCII text the program stores).
 */
module Text {

  /** Strict lexicographic order by code point; a proper prefix comes first. */
  predicate Less(a: string, b: string) {
    b != [] && (a == [] || a[0] < b[0] || (a[0] == b[0] && Less(a[1..], b[1..])))
  }

  predicate Leq(a: string, b: string) {
    !Less(b, a)
  }

  lemma {:induction false} LessIrreflexive(a: string)
    ensures !Less(a, a)
  {
    if a != [] {
      LessIrreflexive(a[1..]);
    }
  }

  lemma {:induction false} LessTransitive(a: string, b: string, c: string)
    requires Less(a, b) && Less(b, c)
    ensures Less(a, c)
  {
    if a != [] && a[0] == b[0] == c[0] {
      LessTransitive(a[1..], b[1..], c[1..]);
    }
  }

  lemma {:induction false} LessTotal(a: string, b: string)
    ensures Less(a, b) || a == b || Less(b, a)
  {
    if a != [] && b != [] && a[0] == b[0] {
      LessTotal(a[1..], b[1..]);
      assert a == [a[0]] + a[1..] && b == [b[0]] + b[1..];
    }
  }

  /** Strings whose first parts have one length are ordered by the first parts, then by the rest. */
  lemma {:induction false} LessAppend(a: string, b: string, x: string, y: string)
    requires |a| == |b|
    ensures Less(a + x, b + y) <==> Less(a, b) || (a == b && Less(x, y))
  {
    if a == [] {
      assert a + x == x && b + y == y;
    } else {
      assert (a + x)[1..] == a[1..] + x && (b + y)[1..] == b[1..] + y;
      LessAppend(a[1..], b[1..], x, y);
      if a[0] == b[0] {
        assert a == b <==> a[1..] == b[1..] by {
          assert a == [a[0]] + a[1..] && b == [b[0]] + b[1..];
        }
      }
    }
  }

  predicate StartsWith(s: string, prefix: string) {
    prefix <= s
  }

  predicate EndsWith(s: string, suffix: string) {
    |suffix| <= |s| && s[|s| - |suffix|..] == suffix
  }

  /** What `str.strip()` removes, among the characters a latin-1 header value can hold. */
  predicate IsSpace(c: char) {
    '\t' <= c <= '\r' || '\U{1c}' <= c <= ' ' || c == '\U{85}' || c == '\U{a0}'
  }

  function LeftStrip(s: string): (r: string)
    ensures r == [] || !IsSpace(r[0])
    ensures |r| <= |s| && r == s[|s| - |r|..]
  {
    if s != [] && IsSpace(s[0]) then LeftStrip(s[1..]) else s
  }

  function RightStrip(s: string): (r: string)
    ensures r == [] || !IsSpace(r[|r| - 1])
    ensures r <= s
  {
    if s != [] && IsSpace(s[|s| - 1]) then RightStrip(s[..|s| - 1]) else s
  }

  function Strip(s: string): string {
    RightStrip(LeftStrip(s))
  }

  lemma StripNothing(s: string)
    requires s != "" && !IsSpace(s[0]) && !IsSpace(s[|s| - 1])
    ensures Strip(s) == s
  {
  }

  /** The text without the blanks around it. */
  ghost predicate StripsTo(s: string, t: string) {
    exists i: nat, j: nat :: IsCore(s, t, i, j)
  }

  predicate IsCore(s: string, t: string, i: nat, j: nat) {
    && i <= j <= |s| && t == s[i..j]
    && (forall k :: 0 <= k < i ==> IsSpace(s[k])) && (forall k :: j <= k < |s| ==> IsSpace(s[k]))
    && (t != "" ==> !IsSpace(t[0]) && !IsSpace(t[|t| - 1]))
  }

  lemma {:induction false} LeftBlank(s: string)
    ensures forall k :: 0 <= k < |s| - |LeftStrip(s)| ==> IsSpace(s[k])
  {
    if s != [] && IsSpace(s[0]) {
      LeftBlank(s[1..]);
      forall k | 0 <= k < |s| - |LeftStrip(s)| ensures IsSpace(s[k]) {
        assert k > 0 ==> s[k] == s[1..][k - 1];
      }
    }
  }

  lemma {:induction false} RightBlank(s: string)
    ensures forall k :: |RightStrip(s)| <= k < |s| ==> IsSpace(s[k])
  {
    if s != [] && IsSpace(s[|s| - 1]) {
      RightBlank(s[..|s| - 1]);
    }
  }

  lemma StripMeans(s: string)
    ensures StripsTo(s, Strip(s))
  {
    var l := LeftStrip(s);
    LeftBlank(s);
    RightBlank(l);
    CoreOf(s, l, RightStrip(l), |s| - |l|);
  }

  lemma StripsToOne(s: string, t: string, u: string)
    requires StripsTo(s, t) && StripsTo(s, u)
    ensures t == u
  {
    var i: nat, j: nat :| IsCore(s, t, i, j);
    var k: nat, l: nat :| IsCore(s, u, k, l);
    assert t != "" ==> t[0] == s[i] && t[|t| - 1] == s[j - 1];
    assert u != "" ==> u[0] == s[k] && u[|u| - 1] == s[l - 1];
  }

  lemma CoreOf(s: string, l: string, t: string, i: nat)
    requires i + |l| == |s| && l == s[i..] && t <= l
    requires (forall k :: 0 <= k < i ==> IsSpace(s[k])) && (forall k :: |t| <= k < |l| ==> IsSpace(l[k]))
    requires (l != "" ==> !IsSpace(l[0])) && (t != "" ==> !IsSpace(t[|t| - 1]))
    ensures StripsTo(s, t)
  {
    forall k | i + |t| <= k < |s| ensures IsSpace(s[k]) {
      assert s[k] == l[k - i];
    }
    assert t == s[i..i + |t|];
    assert IsCore(s, t, i, i + |t|);
  }

  /** Python's `str.split(sep)` for a one-character separator. */
  function Split(s: string, sep: char): (parts: seq<string>)
    ensures |parts| >= 1
    ensures forall p :: p in parts ==> sep !in p
  {
    if s == [] then [""]
    else
      var rest := Split(s[1..], sep);
      if s[0] == sep then [""] + rest else [[s[0]] + rest[0]] + rest[1..]
  }

  /** Python's `sep.join(parts)`. */
  function Join(parts: seq<string>, sep: string): string {
    if parts == [] then "" else if |parts| == 1 then parts[0] else parts[0] + sep + Join(parts[1..], sep)
  }

  lemma {:induction false} SplitPiece(piece: string, rest: string, sep: char)
    requires sep !in piece
    ensures Split(piece, sep) == [piece]
    ensures Split(piece + [sep] + rest, sep) == [piece] + Split(rest, sep)
  {
    if piece == [] {
      assert piece + [sep] + rest == [sep] + rest;
    } else {
      SplitPiece(piece[1..], rest, sep);
      assert piece == [piece[0]] + piece[1..];
      assert (piece + [sep] + rest)[1..] == piece[1..] + [sep] + rest;
    }
  }

  /** The parts of a text are what stands between its separators: joined by the separator they are the text again. */
  lemma {:induction false} SplitMeans(s: string, sep: char)
    ensures Join(Split(s, sep), [sep]) == s
    ensures forall p :: p in Split(s, sep) ==> sep !in p
  {
    if s != [] {
      var rest := Split(s[1..], sep);
      SplitMeans(s[1..], sep);
      assert s == [s[0]] + s[1..];
      if s[0] == sep {
        JoinCons("", rest, sep);
      } else {
        JoinHead(s[0], rest, sep);
      }
    }
  }

  lemma JoinCons(first: string, rest: seq<string>, sep: char)
    requires rest != []
    ensures Join([first] + rest, [sep]) == first + [sep] + Join(rest, [sep])
  {
    assert ([first] + rest)[1..] == rest;
  }

  lemma JoinHead(c: char, parts: seq<string>, sep: char)
    requires parts != []
    ensures Join([[c] + parts[0]] + parts[1..], [sep]) == [c] + Join(parts, [sep])
  {
    assert parts == [parts[0]] + parts[1..];
    if |parts| > 1 {
      JoinCons([c] + parts[0], parts[1..], sep);
      JoinCons(parts[0], parts[1..], sep);
      InFront([c], parts[0], [sep], Join(parts[1..], [sep]));
    }
  }

  lemma InFront(head: string, first: string, sep: string, rest: string)
    ensures head + first + sep + rest == head + (first + sep + rest)
  {
  }
}
