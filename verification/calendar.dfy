/** The UTC calendar of ECMAScript dates (section 21.4.1 of ECMA-262): a time value is a number of
    milliseconds since 1970, a day is its quotient by 86400000. Months count from 0. */
module Calendar {
  import opened Arithmetic
  import opened Wrappers

  const MS_PER_DAY := 86_400_000
  const MAX_TIME := 8_640_000_000_000_000

  function Day(t: int): int { t / MS_PER_DAY }

  function TimeWithinDay(t: int): (r: nat)
    ensures r < MS_PER_DAY
  {
    t % MS_PER_DAY
  }

  predicate IsLeap(y: int) {
    y % 4 == 0 && (y % 100 != 0 || y % 400 == 0)
  }

  function DaysInYear(y: int): nat { if IsLeap(y) then 366 else 365 }

  function DayFromYear(y: int): int {
    365 * (y - 1970) + (y - 1969) / 4 - (y - 1901) / 100 + (y - 1601) / 400
  }

  lemma QuotientSteps(a: int, d: nat)
    requires d > 0
    ensures (a + 1) / d == a / d + (if (a + 1) % d == 0 then 1 else 0)
  {
    var q, r := a / d, a % d;
    assert a == q * d + r;
    if r + 1 < d {
      DivModUnique(a + 1, d, q, r + 1);
    } else {
      assert a + 1 == (q + 1) * d;
      DivModUnique(a + 1, d, q + 1, 0);
    }
  }

  lemma WholeMultiple(n: int, d: nat, c: int)
    requires d > 0
    ensures (n - c * d) % d == n % d
  {
    assert n - c * d == (n / d - c) * d + n % d;
    DivModUnique(n - c * d, d, n / d - c, n % d);
  }

  lemma YearLength(y: int)
    ensures DayFromYear(y + 1) == DayFromYear(y) + DaysInYear(y)
  {
    var a, b, c := y - 1969, y - 1901, y - 1601;
    assert (a + 1) / 4 == a / 4 + (if y % 4 == 0 then 1 else 0) by {
      QuotientSteps(a, 4);
      WholeMultiple(y, 4, 492);
    }
    assert (b + 1) / 100 == b / 100 + (if y % 100 == 0 then 1 else 0) by {
      QuotientSteps(b, 100);
      WholeMultiple(y, 100, 19);
    }
    assert (c + 1) / 400 == c / 400 + (if y % 400 == 0 then 1 else 0) by {
      QuotientSteps(c, 400);
      WholeMultiple(y, 400, 4);
    }
    NestedDivisors(y);
  }

  lemma NestedDivisors(y: int)
    ensures y % 400 == 0 ==> y % 100 == 0
    ensures y % 100 == 0 ==> y % 4 == 0
  {
    if y % 400 == 0 { DivModUnique(y, 100, 4 * (y / 400), 0); }
    if y % 100 == 0 { DivModUnique(y, 4, 25 * (y / 100), 0); }
  }

  type Month = m: nat | m < 12

  function DaysInMonth(y: int, m: Month): (n: nat)
    ensures 28 <= n <= 31
  {
    match m
    case 1 => if IsLeap(y) then 29 else 28
    case 3 => 30
    case 5 => 30
    case 8 => 30
    case 10 => 30
    case _ => 31
  }

  /** Days of the year before month `m`. */
  function DaysBefore(y: int, m: Month): (n: nat)
    ensures n < DaysInYear(y)
  {
    var l := if IsLeap(y) then 1 else 0;
    match m
    case 0 => 0
    case 1 => 31
    case 2 => 59 + l
    case 3 => 90 + l
    case 4 => 120 + l
    case 5 => 151 + l
    case 6 => 181 + l
    case 7 => 212 + l
    case 8 => 243 + l
    case 9 => 273 + l
    case 10 => 304 + l
    case 11 => 334 + l
  }

  lemma DaysBeforeStep(y: int, m: Month)
    ensures DaysBefore(y, m) + DaysInMonth(y, m) == if m == 11 then DaysInYear(y) else DaysBefore(y, m + 1)
  {
  }

  // Months are numbered from January of year 0: month `k` is month k % 12 of year k / 12.

  const JANUARY_1970 := 23640

  function MonthLength(k: int): (n: nat)
    ensures 28 <= n <= 31
  {
    DaysInMonth(k / 12, k % 12)
  }

  /** The first day of month `k`: the months between it and January 1970, laid end to end. */
  function FirstDay(k: int): int
    decreases if k < JANUARY_1970 then JANUARY_1970 - k else k - JANUARY_1970
  {
    if k == JANUARY_1970 then 0
    else if k > JANUARY_1970 then FirstDay(k - 1) + MonthLength(k - 1)
    else FirstDay(k + 1) - MonthLength(k)
  }

  lemma MonthStep(k: int)
    ensures FirstDay(k + 1) == FirstDay(k) + MonthLength(k)
  {
  }

  lemma {:induction false} MonthsIncrease(j: int, k: int)
    requires j <= k
    ensures FirstDay(j) + 28 * (k - j) <= FirstDay(k)
    decreases k - j
  {
    if j < k {
      MonthStep(k - 1);
      MonthsIncrease(j, k - 1);
    }
  }

  lemma ClosedFormStep(k: int)
    ensures DayFromYear((k + 1) / 12) + DaysBefore((k + 1) / 12, (k + 1) % 12)
      == DayFromYear(k / 12) + DaysBefore(k / 12, k % 12) + MonthLength(k)
  {
    var y, m := k / 12, k % 12;
    DaysBeforeStep(y, m);
    YearLength(y);
    if m == 11 {
      assert (k + 1) / 12 == y + 1 && (k + 1) % 12 == 0;
    } else {
      assert (k + 1) / 12 == y && (k + 1) % 12 == m + 1;
    }
  }

  /** The day numbers of section 21.4.1.3 agree with counting months. */
  lemma {:induction false} FirstDayFormula(k: int)
    ensures FirstDay(k) == DayFromYear(k / 12) + DaysBefore(k / 12, k % 12)
    decreases if k < JANUARY_1970 then JANUARY_1970 - k else k - JANUARY_1970
  {
    if k > JANUARY_1970 {
      ClosedFormStep(k - 1);
      FirstDayFormula(k - 1);
    } else if k < JANUARY_1970 {
      ClosedFormStep(k);
      FirstDayFormula(k + 1);
    }
  }

  /** The month that contains day `d`, searched from a month that starts no later. */
  function MonthFrom(d: int, k: int): (r: int)
    requires FirstDay(k) <= d
    ensures FirstDay(r) <= d < FirstDay(r) + MonthLength(r)
    decreases d - FirstDay(k)
  {
    MonthStep(k);
    if d < FirstDay(k) + MonthLength(k) then k else MonthFrom(d, k + 1)
  }

  function MonthOf(d: int): (r: int)
    ensures FirstDay(r) <= d < FirstDay(r) + MonthLength(r)
  {
    if d >= 0 then MonthFrom(d, JANUARY_1970)
    else
      MonthsIncrease(JANUARY_1970 + d / 28, JANUARY_1970);
      MonthFrom(d, JANUARY_1970 + d / 28)
  }

  /** A calendar date: its month number and its date in the month. */
  datatype Civil = Civil(month: int, date: nat) {
    function Year(): int { month / 12 }
    function MonthOfYear(): Month { month % 12 }
  }

  predicate ValidCivil(c: Civil) {
    1 <= c.date <= MonthLength(c.month)
  }

  function DayOf(c: Civil): int {
    FirstDay(c.month) + c.date - 1
  }

  /** YearFromTime, MonthFromTime and DateFromTime of a day. */
  function CivilOf(d: int): (c: Civil)
    ensures ValidCivil(c) && DayOf(c) == d
  {
    var k := MonthOf(d);
    Civil(k, d - FirstDay(k) + 1)
  }

  /** Each day has one civil date, and each civil date one day. */
  lemma CivilIsUnique(d: int, c: Civil)
    requires ValidCivil(c) && DayOf(c) == d
    ensures CivilOf(d) == c
  {
    var e := CivilOf(d);
    MonthStep(c.month);
    MonthStep(e.month);
    if e.month < c.month { MonthsIncrease(e.month + 1, c.month); }
    if c.month < e.month { MonthsIncrease(c.month + 1, e.month); }
  }

  /** The year found is the one whose days, by the formula for years, contain `d`. */
  lemma YearContains(d: int)
    ensures DayFromYear(CivilOf(d).Year()) <= d < DayFromYear(CivilOf(d).Year() + 1)
  {
    var k := CivilOf(d).month;
    FirstDayFormula(k);
    MonthStep(k);
    DaysBeforeStep(k / 12, k % 12);
    YearLength(k / 12);
    var t := 12 * (k / 12 + 1);
    FirstDayFormula(t);
    MonthsIncrease(k + 1, t);
  }

  /** MakeDay: month and date numbers outside their range carry over. */
  function MakeDay(y: int, m: int, date: int): int {
    FirstDay(12 * (y + m / 12) + m % 12) + date - 1
  }

  lemma MonthCarry(k: int, n: int)
    ensures 12 * (k / 12 + (k % 12 + n) / 12) + (k % 12 + n) % 12 == k + n
    ensures 12 * (k / 12 + n + (k % 12) / 12) + (k % 12) % 12 == k + 12 * n
  {
  }

  /** MakeDate: a day at the time of day of `t`. */
  function MakeDate(day: int, t: int): int {
    day * MS_PER_DAY + TimeWithinDay(t)
  }

  function TimeClip(t: int): Option<int> {
    if -MAX_TIME <= t <= MAX_TIME then Some(t) else None
  }

  function SetUTCMonth(t: int, month: int): Option<int> {
    var c := CivilOf(Day(t));
    TimeClip(MakeDate(MakeDay(c.Year(), month, c.date), t))
  }

  function SetUTCFullYear(t: int, year: int): Option<int> {
    var c := CivilOf(Day(t));
    TimeClip(MakeDate(MakeDay(year, c.MonthOfYear(), c.date), t))
  }

  function SetUTCDate(t: int, date: int): Option<int> {
    var c := CivilOf(Day(t));
    TimeClip(MakeDate(MakeDay(c.Year(), c.MonthOfYear(), date), t))
  }

  /** MakeDate reaches the day, at the time of day of `t`: a whole number of days from `t`. */
  lemma MakeDateKeepsTime(day: int, t: int)
    ensures var u := MakeDate(day, t);
      Day(u) == day && TimeWithinDay(u) == TimeWithinDay(t) && u == t + (day - Day(t)) * MS_PER_DAY
  {
    DivModUnique(MakeDate(day, t), MS_PER_DAY, day, TimeWithinDay(t));
  }

  lemma DateCarries(d: int, n: int, e: int)
    requires e == d + n
    ensures var c := CivilOf(d); MakeDay(c.Year(), c.MonthOfYear(), c.date + n) == e
  {
    MonthCarry(CivilOf(d).month, 0);
  }

  /** `setUTCDate(getUTCDate() + n)` moves by exactly `n` days. */
  lemma ShiftDate(t: int, n: int, day: int)
    requires day == Day(t) + n
    ensures SetUTCDate(t, CivilOf(Day(t)).date + n) == TimeClip(MakeDate(day, t))
  {
    DateCarries(Day(t), n, day);
  }
}
