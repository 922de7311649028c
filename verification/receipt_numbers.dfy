/** The numbers of receipts and the references they are made of. */
module ReceiptNumbers {
  import opened PaymentStore

  function UpperCase(c: char): char {
    if 'a' <= c <= 'z' then c - 'a' + 'A' else c
  }

  /** The last twelve characters, or all when there are fewer. */
  function Ending(reference: string): string {
    if |reference| <= 12 then reference else reference[|reference| - 12..]
  }

  /** `t` is `s` in upper case. */
  predicate IsUpperOf(t: string, s: string) {
    |t| == |s| && forall i :: 0 <= i < |s| ==> t[i] == UpperCase(s[i])
  }

  /** The number of a receipt: the prefix, then the last twelve characters of the reference in upper case. */
  lemma NumberText(reference: string)
    ensures var n := ReceiptNumber(reference); |n| >= 5 && n[..5] == "RCPT-" && IsUpperOf(n[5..], Ending(reference))
  {
  }

  /** The last twelve characters agree, letter case aside. */
  predicate SameEnding(a: string, b: string) {
    var s, t := Ending(a), Ending(b);
    |s| == |t| && forall i :: 0 <= i < |s| ==> UpperCase(s[i]) == UpperCase(t[i])
  }

  lemma UpperOfSame(x: string, y: string, s: string, t: string)
    requires IsUpperOf(x, s) && IsUpperOf(y, t)
    ensures x == y <==> |s| == |t| && forall i :: 0 <= i < |s| ==> UpperCase(s[i]) == UpperCase(t[i])
  {
    if x == y {
      forall i | 0 <= i < |s| ensures UpperCase(s[i]) == UpperCase(t[i]) { assert x[i] == y[i]; }
    }
  }

  /** Two receipts have the same number exactly when their references end alike. */
  lemma SameNumberIff(a: string, b: string)
    ensures ReceiptNumber(a) == ReceiptNumber(b) <==> SameEnding(a, b)
  {
    NumberText(a);
    NumberText(b);
    var x, y := ReceiptNumber(a), ReceiptNumber(b);
    assert x == x[..5] + x[5..] && y == y[..5] + y[5..];
    UpperOfSame(x[5..], y[5..], Ending(a), Ending(b));
  }

  // ---------- references ----------

  predicate IsHex(s: string) {
    forall c :: c in s ==> '0' <= c <= '9' || 'a' <= c <= 'f'
  }

  /** createReference: eight characters of the organization's id and 32 random hexadecimal digits. */
  function Reference(organization: string, random: string): string
    requires |organization| == 8 && |random| == 32 && IsHex(random)
  {
    "fz_" + organization + "_" + random
  }

  ghost predicate Created(reference: string) {
    exists o, r :: |o| == 8 && |r| == 32 && IsHex(r) && reference == Reference(o, r)
  }

  lemma ReferenceEnds(o: string, r: string)
    requires |o| == 8 && |r| == 32 && IsHex(r)
    ensures Ending(Reference(o, r)) == r[20..] && IsHex(r[20..])
  {
    assert forall c :: c in r[20..] ==> c in r;
  }

  /** Hexadecimal texts that agree up to letter case are the same. */
  lemma HexIsTold(s: string, t: string)
    requires |s| == |t| && IsHex(s) && IsHex(t) && forall i :: 0 <= i < |s| ==> UpperCase(s[i]) == UpperCase(t[i])
    ensures s == t
  {
    forall i | 0 <= i < |s| ensures s[i] == t[i] {
      assert s[i] in s && t[i] in t && UpperCase(s[i]) == UpperCase(t[i]);
    }
  }

  /** Created references end alike exactly when their last twelve digits are the same. */
  lemma CreatedEndings(a: string, b: string)
    requires Created(a) && Created(b)
    ensures SameEnding(a, b) <==> Ending(a) == Ending(b)
  {
    var o, r :| |o| == 8 && |r| == 32 && IsHex(r) && a == Reference(o, r);
    var p, q :| |p| == 8 && |q| == 32 && IsHex(q) && b == Reference(p, q);
    ReferenceEnds(o, r);
    ReferenceEnds(p, q);
    if SameEnding(a, b) { HexIsTold(Ending(a), Ending(b)); }
  }

  /** Two created references have the same receipt number exactly when their last twelve random digits are
      the same. */
  lemma LastTwelveDigitsCount(o: string, p: string, r: string, q: string)
    requires |o| == |p| == 8 && |r| == |q| == 32 && IsHex(r) && IsHex(q)
    ensures ReceiptNumber(Reference(o, r)) == ReceiptNumber(Reference(p, q)) <==> r[20..] == q[20..]
  {
    ReferenceEnds(o, r);
    ReferenceEnds(p, q);
    SameNumberIff(Reference(o, r), Reference(p, q));
    CreatedEndings(Reference(o, r), Reference(p, q));
  }

  const RANDOM_A := "000000000000000000000123456789ab"
  const RANDOM_B := "ffffffffffffffffffff0123456789ab"

  lemma RandomsDiffer()
    ensures |RANDOM_A| == |RANDOM_B| == 32 && IsHex(RANDOM_A) && IsHex(RANDOM_B)
    ensures RANDOM_A[20..] == RANDOM_B[20..] && RANDOM_A[0] != RANDOM_B[0]
  {
  }

  /** References that the code can create collide. */
  lemma CreatedReferencesCollide(organization: string) returns (a: string, b: string)
    requires |organization| == 8
    ensures Created(a) && Created(b) && a != b && ReceiptNumber(a) == ReceiptNumber(b)
  {
    RandomsDiffer();
    a, b := Reference(organization, RANDOM_A), Reference(organization, RANDOM_B);
    LastTwelveDigitsCount(organization, organization, RANDOM_A, RANDOM_B);
    assert a[12] == RANDOM_A[0] && b[12] == RANDOM_B[0];
  }
}
