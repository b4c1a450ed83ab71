/** Decimal notation: what Python's `str(n)`, `f"{n:0Wd}"` and `int(text)` do on natural numbers. */
module Decimal {
  import opened Text

  function DigitChar(d: nat): (c: char)
    requires d < 10
    ensures IsDigit(c) && DigitValue(c) == d
  {
    ('0' as int + d) as char
  }

  predicate IsDigit(c: char) {
    '0' <= c <= '9'
  }

  function DigitValue(c: char): (d: nat)
    requires IsDigit(c)
    ensures d < 10
  {
    c as int - '0' as int
  }

  predicate AllDigits(s: string) {
    forall k :: 0 <= k < |s| ==> IsDigit(s[k])
  }

  /** `str(n)` */
  function Dec(n: nat): (s: string)
    ensures s != [] && AllDigits(s)
    ensures n > 0 ==> s[0] != '0'
    ensures n == 0 ==> s == "0"
  {
    if n < 10 then [DigitChar(n)] else Dec(n / 10) + [DigitChar(n % 10)]
  }

  /** `int(s)` for a run of ASCII digits */
  function ValueOf(s: string): nat
    requires AllDigits(s)
  {
    if s == [] then 0 else 10 * ValueOf(s[..|s| - 1]) + DigitValue(s[|s| - 1])
  }

  function Pow10(w: nat): (p: nat)
    ensures p > 0
  {
    if w == 0 then 1 else 10 * Pow10(w - 1)
  }

  function Zeros(k: nat): (s: string)
    ensures |s| == k && AllDigits(s)
  {
    seq(k, _ => '0')
  }

  /** `f"{n:0wd}"`: at least w digits, more when n does not fit. */
  function Pad(n: nat, w: nat): (s: string)
    ensures AllDigits(s) && |s| >= w
  {
    if |Dec(n)| >= w then Dec(n) else Zeros(w - |Dec(n)|) + Dec(n)
  }

  lemma {:induction false} ValueDec(n: nat)
    ensures ValueOf(Dec(n)) == n
  {
    if n >= 10 {
      ValueDec(n / 10);
    } else {
      assert Dec(n)[..0] == [];
    }
  }

  lemma {:induction false} ValueZeros(k: nat, s: string)
    requires AllDigits(s)
    ensures ValueOf(Zeros(k) + s) == ValueOf(s)
  {
    var t := Zeros(k) + s;
    if s != [] {
      ValueZeros(k, s[..|s| - 1]);
      assert t[..|t| - 1] == Zeros(k) + s[..|s| - 1];
    } else if k > 0 {
      ValueZeros(k - 1, s);
      assert t[..|t| - 1] == Zeros(k - 1) + s;
    }
  }

  /** Reading a padded number back gives the number, whether or not it fits its width. */
  lemma ValuePad(n: nat, w: nat)
    ensures ValueOf(Pad(n, w)) == n
  {
    ValueDec(n);
    if |Dec(n)| < w {
      ValueZeros(w - |Dec(n)|, Dec(n));
    }
  }

  lemma {:induction false} DecLength(n: nat, w: nat)
    requires w > 0
    ensures |Dec(n)| <= w <==> n < Pow10(w)
  {
    if w == 1 {
      assert Pow10(1) == 10 * Pow10(0);
    } else if n >= 10 {
      DecLength(n / 10, w - 1);
    } else {
      PowAtLeastTen(w);
    }
  }

  lemma {:induction false} PowAtLeastTen(w: nat)
    requires w > 0
    ensures Pow10(w) >= 10
  {
    if w > 1 {
      PowAtLeastTen(w - 1);
    }
  }

  /** The padded form has exactly its width if and only if the number fits it. */
  lemma PadWidth(n: nat, w: nat)
    requires w > 0
    ensures |Pad(n, w)| == w <==> n < Pow10(w)
  {
    DecLength(n, w);
  }

  /** Digit strings of one length compare as text exactly as their values compare as numbers. */
  lemma {:induction false} DigitsOrder(a: string, b: string)
    requires |a| == |b| && AllDigits(a) && AllDigits(b)
    ensures Less(a, b) <==> ValueOf(a) < ValueOf(b)
    ensures a == b <==> ValueOf(a) == ValueOf(b)
  {
    if a != [] {
      var p, q := a[..|a| - 1], b[..|b| - 1];
      var x, y := [a[|a| - 1]], [b[|b| - 1]];
      DigitsOrder(p, q);
      assert a == p + x && b == q + y;
      LessAppend(p, q, x, y);
    }
  }

  /** Equal-width padded numbers compare as text exactly as the numbers do. */
  lemma PadOrder(m: nat, n: nat, w: nat)
    requires w > 0 && m < Pow10(w) && n < Pow10(w)
    ensures |Pad(m, w)| == |Pad(n, w)| == w
    ensures Less(Pad(m, w), Pad(n, w)) <==> m < n
    ensures Pad(m, w) == Pad(n, w) <==> m == n
  {
    PadWidth(m, w);
    PadWidth(n, w);
    ValuePad(m, w);
    ValuePad(n, w);
    DigitsOrder(Pad(m, w), Pad(n, w));
  }
}
