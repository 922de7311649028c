/** Day keys: the first ten characters of the ISO text of a time, such as 2024-02-29. */
module DateKeys {
  import opened Calendar
  import opened Text

  /** Four digits of the year suffice. */
  predicate HasKey(day: int) {
    0 <= CivilOf(day).Year() < 10_000
  }

  function Digits(n: nat, w: nat): (s: string)
    requires w > 0 && n < Pow10(w)
    ensures |s| == w && AllDigits(s) && ParseDecimal(s) == n
  {
    DecimalLength(n, w);
    PadStart(DecimalString(n), w)
  }

  function Join(y: string, m: string, d: string): string {
    y + ("-" + (m + ("-" + d)))
  }

  function KeyOfCivil(y: nat, m: Month, date: nat): (key: string)
    requires y < 10_000 && date <= 31
    ensures |key| == 10
  {
    assert Pow10(2) == 100 && Pow10(4) == 10_000;
    Join(Digits(y, 4), Digits(m + 1, 2), Digits(date, 2))
  }

  /** `toISOString().slice(0, 10)` */
  function DayKey(day: int): (key: string)
    requires HasKey(day)
    ensures |key| == 10
  {
    var c := CivilOf(day);
    KeyOfCivil(c.Year(), c.MonthOfYear(), c.date)
  }

  /** The pattern that normalizing the store asks of a key. */
  predicate KeyPattern(key: string) {
    && |key| == 10 && key[4] == '-' && key[7] == '-'
    && AllDigits(key[..4]) && AllDigits(key[5..7]) && AllDigits(key[8..])
  }

  lemma JoinHasPattern(y: string, m: string, d: string)
    requires |y| == 4 && |m| == |d| == 2 && AllDigits(y) && AllDigits(m) && AllDigits(d)
    ensures KeyPattern(Join(y, m, d))
  {
    var key := Join(y, m, d);
    assert key[..4] == y && key[5..7] == m && key[8..] == d;
  }

  lemma CivilKeyHasPattern(y: nat, m: Month, d: nat)
    requires y < 10_000 && d <= 31
    ensures KeyPattern(KeyOfCivil(y, m, d))
  {
    assert Pow10(2) == 100 && Pow10(4) == 10_000;
    JoinHasPattern(Digits(y, 4), Digits(m + 1, 2), Digits(d, 2));
  }

  lemma KeyHasPattern(day: int)
    requires HasKey(day)
    ensures KeyPattern(DayKey(day))
  {
    var c := CivilOf(day);
    CivilKeyHasPattern(c.Year(), c.MonthOfYear(), c.date);
  }

  lemma LessAfter(s: string, t: string, x: string, y: string)
    requires |s| == |t|
    ensures Less(s + ("-" + x), t + ("-" + y)) <==> Less(s, t) || (s == t && Less(x, y))
  {
    LessOfConcat(s, t, "-" + x, "-" + y);
    LessOfConcat("-", "-", x, y);
  }

  lemma JoinOrder(a: string, b: string, c: string, a': string, b': string, c': string)
    requires |a| == |a'| && |b| == |b'| && |c| == |c'|
    ensures Less(Join(a, b, c), Join(a', b', c')) <==>
      Less(a, a') || (a == a' && (Less(b, b') || (b == b' && Less(c, c'))))
  {
    LessAfter(a, a', b + ("-" + c), b' + ("-" + c'));
    LessAfter(b, b', c, c');
  }

  lemma DigitsOrder(n: nat, k: nat, w: nat)
    requires w > 0 && n < Pow10(w) && k < Pow10(w)
    ensures Less(Digits(n, w), Digits(k, w)) <==> n < k
    ensures Digits(n, w) == Digits(k, w) <==> n == k
  {
    DigitOrder(Digits(n, w), Digits(k, w));
  }

  lemma CivilKeyOrder(y: nat, m: Month, d: nat, y': nat, m': Month, d': nat)
    requires y < 10_000 && y' < 10_000 && d <= 31 && d' <= 31
    ensures Less(KeyOfCivil(y, m, d), KeyOfCivil(y', m', d')) <==>
      y < y' || (y == y' && (m < m' || (m == m' && d < d')))
  {
    assert Pow10(2) == 100 && Pow10(4) == 10_000;
    DigitsOrder(y, y', 4);
    DigitsOrder(m + 1, m' + 1, 2);
    DigitsOrder(d, d', 2);
    JoinOrder(Digits(y, 4), Digits(m + 1, 2), Digits(d, 2), Digits(y', 4), Digits(m' + 1, 2), Digits(d', 2));
  }

  /** Civil dates are ordered as days. */
  lemma CivilOrder(d: int, e: int)
    ensures var a, b := CivilOf(d), CivilOf(e);
      d < e <==> a.month < b.month || (a.month == b.month && a.date < b.date)
  {
    var a, b := CivilOf(d), CivilOf(e);
    MonthStep(a.month);
    MonthStep(b.month);
    if a.month < b.month { MonthsIncrease(a.month + 1, b.month); }
    if b.month < a.month { MonthsIncrease(b.month + 1, a.month); }
  }

  lemma MonthOrder(j: int, k: int)
    ensures j < k <==> j / 12 < k / 12 || (j / 12 == k / 12 && j % 12 < k % 12)
  {
  }

  /** Comparing keys as strings compares the days, so different days have different keys. */
  lemma KeyOrder(d: int, e: int)
    requires HasKey(d) && HasKey(e)
    ensures Less(DayKey(d), DayKey(e)) <==> d < e
    ensures DayKey(d) == DayKey(e) <==> d == e
  {
    var a, b := CivilOf(d), CivilOf(e);
    CivilKeyOrder(a.Year(), a.MonthOfYear(), a.date, b.Year(), b.MonthOfYear(), b.date);
    CivilKeyOrder(b.Year(), b.MonthOfYear(), b.date, a.Year(), a.MonthOfYear(), a.date);
    CivilOrder(d, e);
    CivilOrder(e, d);
    MonthOrder(a.month, b.month);
    MonthOrder(b.month, a.month);
    LessIrreflexive(DayKey(d));
  }

  lemma LessIrreflexive(s: string)
    ensures !Less(s, s)
  {
  }

  const LAST_DAY := 2_932_896

  /** From a month before 1970 to the end of the year 9999. */
  predicate KeyedDay(day: int) {
    -30 <= day <= LAST_DAY
  }

  lemma MonthBounds(day: int, k: int)
    ensures FirstDay(k) <= day <==> k <= CivilOf(day).month
  {
    var m := CivilOf(day).month;
    MonthStep(m);
    if k <= m { MonthsIncrease(k, m); } else { MonthsIncrease(m + 1, k); }
  }

  lemma YearStart(k: int, y: int)
    requires k == 12 * y
    ensures FirstDay(k) == DayFromYear(y)
  {
    FirstDayFormula(k);
    assert k / 12 == y && k % 12 == 0;
  }

  lemma KeyedDayHasKey(day: int)
    requires KeyedDay(day)
    ensures HasKey(day)
  {
    var k, j := 120_000, 23_628;
    YearStart(k, 10_000);
    assert DayFromYear(10_000) == LAST_DAY + 1;
    MonthBounds(day, k);
    MonthsIncrease(j, j + 12);
    assert FirstDay(j) <= -336 by { assert j + 12 == JANUARY_1970; }
    MonthBounds(day, j);
  }

  function KeyOf(day: int): string {
    if HasKey(day) then DayKey(day) else ""
  }

  /** What matters about keys: they have the pattern, and comparing them compares the days. */
  ghost predicate OrderedKeys(key: int -> string) {
    forall d, e :: KeyedDay(d) && KeyedDay(e) ==>
      KeyPattern(key(d)) && (Less(key(d), key(e)) <==> d < e) && (key(d) == key(e) ==> d == e)
  }

  lemma DayKeysAreOrdered()
    ensures OrderedKeys(KeyOf)
  {
    forall d, e | KeyedDay(d) && KeyedDay(e)
      ensures KeyPattern(KeyOf(d)) && (Less(KeyOf(d), KeyOf(e)) <==> d < e) && (KeyOf(d) == KeyOf(e) ==> d == e)
    {
      KeyedDayHasKey(d);
      KeyedDayHasKey(e);
      KeyHasPattern(d);
      KeyOrder(d, e);
    }
  }
}
