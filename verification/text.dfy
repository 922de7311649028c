/** String helpers of ECMAScript that several services use. */
module Text {
  /** The white space and line terminators that `trim` removes and `\s` matches. */
  predicate IsSpace(c: char) {
    var n := c as int;
    || 9 <= n <= 13 || n == 0x20 || n == 0xA0 || n == 0x1680 || 0x2000 <= n <= 0x200A
    || n == 0x2028 || n == 0x2029 || n == 0x202F || n == 0x205F || n == 0x3000 || n == 0xFEFF
  }

  function TrimStart(s: string): (r: string)
    ensures r == [] || !IsSpace(r[0])
  {
    if s != [] && IsSpace(s[0]) then TrimStart(s[1..]) else s
  }

  function TrimEnd(s: string): (r: string)
    ensures r <= s && (r == [] || !IsSpace(r[|r| - 1]))
  {
    if s != [] && IsSpace(s[|s| - 1]) then TrimEnd(s[..|s| - 1]) else s
  }

  function Trim(s: string): string {
    TrimEnd(TrimStart(s))
  }

  /** `toUpperCase` on ASCII text; other characters stay. */
  function UpperChar(c: char): char {
    if 'a' <= c <= 'z' then c - 'a' + 'A' else c
  }

  function Upper(text: string): (r: string)
    ensures |r| == |text|
  {
    seq(|text|, i requires 0 <= i < |text| => UpperChar(text[i]))
  }

  function LowerChar(c: char): char {
    if 'A' <= c <= 'Z' then c - 'A' + 'a' else c
  }

  /** `toLowerCase` on ASCII text; other characters stay. */
  function Lower(text: string): (r: string)
    ensures |r| == |text|
  {
    seq(|text|, i requires 0 <= i < |text| => LowerChar(text[i]))
  }

  predicate IsDigit(c: char) {
    '0' <= c <= '9'
  }

  function DigitChar(d: nat): (c: char)
    requires d < 10
    ensures IsDigit(c) && DigitValue(c) == d
  {
    '0' + d as char
  }

  function DigitValue(c: char): (d: nat)
    requires IsDigit(c)
    ensures d < 10
  {
    (c - '0') as int
  }

  predicate AllDigits(s: string) {
    forall i :: 0 <= i < |s| ==> IsDigit(s[i])
  }

  /** The number a string of decimal digits denotes. */
  function ParseDecimal(s: string): (n: nat)
    requires AllDigits(s)
  {
    if s == [] then 0 else 10 * ParseDecimal(s[..|s| - 1]) + DigitValue(s[|s| - 1])
  }

  /** `n.toString()` */
  function DecimalString(n: nat): (s: string)
    ensures |s| >= 1 && AllDigits(s) && ParseDecimal(s) == n
  {
    if n < 10 then [DigitChar(n)] else DecimalString(n / 10) + [DigitChar(n % 10)]
  }

  /** `s.padStart(w, '0')` */
  function PadStart(s: string, w: nat): (r: string)
    requires AllDigits(s)
    ensures AllDigits(r) && ParseDecimal(r) == ParseDecimal(s)
    ensures |r| == if |s| < w then w else |s|
    decreases w - |s|
  {
    if |s| >= w then s
    else
      LeadingZero(s);
      PadStart(['0'] + s, w)
  }

  lemma {:induction false} LeadingZero(s: string)
    requires AllDigits(s)
    ensures AllDigits(['0'] + s) && ParseDecimal(['0'] + s) == ParseDecimal(s)
  {
    var z := ['0'] + s;
    if s != [] {
      LeadingZero(s[..|s| - 1]);
      assert z[..|z| - 1] == ['0'] + s[..|s| - 1];
    }
  }

  function Pow10(w: nat): (p: nat)
    ensures p > 0
  {
    if w == 0 then 1 else 10 * Pow10(w - 1)
  }

  /** A number below 10^w has at most `w` digits, and at least one. */
  lemma {:induction false} DecimalLength(n: nat, w: nat)
    requires n < Pow10(w) && w > 0
    ensures |DecimalString(n)| <= w
  {
    if n >= 10 {
      DecimalLength(n / 10, w - 1);
    }
  }

  /** Equally long digit strings that denote the same number are equal. */
  lemma {:induction false} ParseDecimalInjective(s: string, t: string)
    requires AllDigits(s) && AllDigits(t) && |s| == |t| && ParseDecimal(s) == ParseDecimal(t)
    ensures s == t
  {
    if s != [] {
      var n := |s| - 1;
      SameDigits(ParseDecimal(s[..n]), DigitValue(s[n]), ParseDecimal(t[..n]), DigitValue(t[n]));
      ParseDecimalInjective(s[..n], t[..n]);
      Rejoin(s, t, n);
    }
  }

  lemma Rejoin(s: string, t: string, n: nat)
    requires |s| == |t| == n + 1 && s[..n] == t[..n] && s[n] == t[n]
    ensures s == t
  {
    assert s == s[..n] + [s[n]] && t == t[..n] + [t[n]];
  }

  lemma SameDigits(p: nat, x: nat, q: nat, y: nat)
    requires x < 10 && y < 10 && 10 * p + x == 10 * q + y
    ensures p == q && x == y
  {
  }

  // ---------- the order of strings ----------

  /** `s < t`, comparing code unit by code unit. */
  predicate Less(s: string, t: string)
    decreases |s|
  {
    t != [] && (s == [] || s[0] < t[0] || (s[0] == t[0] && Less(s[1..], t[1..])))
  }

  lemma {:induction false} LessOfConcat(s: string, t: string, x: string, y: string)
    requires |s| == |t|
    ensures Less(s + x, t + y) <==> Less(s, t) || (s == t && Less(x, y))
  {
    if s == [] {
      assert s + x == x && t + y == y;
    } else {
      LessOfConcat(s[1..], t[1..], x, y);
      assert (s + x)[1..] == s[1..] + x && (t + y)[1..] == t[1..] + y;
      assert s == t <==> s[0] == t[0] && s[1..] == t[1..] by {
        assert s == [s[0]] + s[1..] && t == [t[0]] + t[1..];
      }
    }
  }

  /** Equally long digit strings are ordered as the numbers they denote. */
  lemma {:induction false} DigitOrder(s: string, t: string)
    requires AllDigits(s) && AllDigits(t) && |s| == |t|
    ensures Less(s, t) <==> ParseDecimal(s) < ParseDecimal(t)
  {
    if s != [] {
      var a, b, c, d := s[..|s| - 1], t[..|t| - 1], s[|s| - 1], t[|t| - 1];
      DigitOrder(a, b);
      LessOfConcat(a, b, [c], [d]);
      assert s == a + [c] && t == b + [d];
      assert Less([c], [d]) <==> DigitValue(c) < DigitValue(d);
      if ParseDecimal(a) == ParseDecimal(b) { ParseDecimalInjective(a, b); }
      NumberOrder(ParseDecimal(a), DigitValue(c), ParseDecimal(b), DigitValue(d));
    }
  }

  lemma NumberOrder(p: nat, x: nat, q: nat, y: nat)
    requires x < 10 && y < 10
    ensures 10 * p + x < 10 * q + y <==> p < q || (p == q && x < y)
  {
  }
}
