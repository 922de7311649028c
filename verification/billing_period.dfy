/** The end of a paid billing period. */
module BillingPeriod {
  import opened Calendar
  import opened Wrappers

  datatype Interval = Monthly | Yearly

  /** The number of days from a date in month `k` to the same date one period later, before any carry. */
  function PeriodDays(k: int, interval: Interval): (n: nat)
    ensures interval.Monthly? ==> 28 <= n <= 31
    ensures interval.Yearly? ==> n == 365 || n == 366
  {
    match interval
    case Monthly => MonthLength(k)
    case Yearly => if k % 12 <= 1 then DaysInYear(k / 12) else DaysInYear(k / 12 + 1)
  }

  /** At the same time of day, the days of the start month later, or 365 or 366 days later; None past
      the end of time. */
  function PeriodEnd(start: int, interval: Interval): Option<int> {
    TimeClip(MakeDate(Day(start) + PeriodDays(CivilOf(Day(start)).month, interval), start))
  }

  lemma SameMonthNextYear(k: int)
    ensures (k + 12) / 12 == k / 12 + 1 && (k + 12) % 12 == k % 12
  {
  }

  lemma YearGap(y: int, m: Month)
    ensures DayFromYear(y + 1) + DaysBefore(y + 1, m)
      == DayFromYear(y) + DaysBefore(y, m) + (if m <= 1 then DaysInYear(y) else DaysInYear(y + 1))
  {
    YearLength(y);
  }

  lemma YearLater(k: int)
    ensures FirstDay(k + 12) == FirstDay(k) + PeriodDays(k, Yearly)
  {
    SameMonthNextYear(k);
    FirstDayFormula(k);
    FirstDayFormula(k + 12);
    YearGap(k / 12, k % 12);
  }

  lemma MonthLater(day: int)
    ensures var c := CivilOf(day);
      MakeDay(c.Year(), c.MonthOfYear() + 1, c.date) == day + PeriodDays(c.month, Monthly)
  {
    var k := CivilOf(day).month;
    MonthCarry(k, 1);
    MonthStep(k);
  }

  lemma SameDateNextYear(day: int)
    ensures var c := CivilOf(day);
      MakeDay(c.Year() + 1, c.MonthOfYear(), c.date) == day + PeriodDays(c.month, Yearly)
  {
    var k := CivilOf(day).month;
    MonthCarry(k, 1);
    YearLater(k);
  }

  method AddBillingPeriod(start: int, interval: Interval) returns (next: Option<int>)
    ensures next == PeriodEnd(start, interval)
  {
    var c := CivilOf(Day(start));
    if interval == Yearly {
      SameDateNextYear(Day(start));
      next := SetUTCFullYear(start, c.Year() + 1);
    } else {
      MonthLater(Day(start));
      next := SetUTCMonth(start, c.MonthOfYear() + 1);
    }
  }

  /** The days past the end of a month run over into the next one. */
  lemma RunOver(d: int, k: int, date: nat)
    requires 1 <= date <= 31 && d == FirstDay(k) + date - 1
    ensures CivilOf(d) == if date <= MonthLength(k) then Civil(k, date) else Civil(k + 1, date - MonthLength(k))
  {
    if date <= MonthLength(k) {
      CivilIsUnique(d, Civil(k, date));
    } else {
      MonthStep(k);
      CivilIsUnique(d, Civil(k + 1, date - MonthLength(k)));
    }
  }

  /** A monthly period ends on the same date of the next month exactly when that month has the date;
      otherwise the missing days run over into the month after it. */
  lemma MonthEnd(c: Civil, end: int)
    requires ValidCivil(c) && end == DayOf(c) + PeriodDays(c.month, Monthly)
    ensures var next := c.month + 1;
      CivilOf(end) == if c.date <= MonthLength(next) then Civil(next, c.date) else Civil(next + 1, c.date - MonthLength(next))
  {
    MonthStep(c.month);
    RunOver(end, c.month + 1, c.date);
  }

  lemma NoLeapYearsInARow(y: int)
    requires IsLeap(y)
    ensures !IsLeap(y + 1)
  {
  }

  lemma NextYearLength(k: int)
    ensures MonthLength(k + 12) < MonthLength(k) ==> k % 12 == 1 && MonthLength(k) == 29 && MonthLength(k + 12) == 28
    ensures k % 12 == 1 && MonthLength(k) == 29 ==> MonthLength(k + 12) == 28
  {
    SameMonthNextYear(k);
    if IsLeap(k / 12) { NoLeapYearsInARow(k / 12); }
  }

  /** A yearly period ends on the same date of the next year, or on 1 March for a leap day. */
  lemma YearEnd(c: Civil, end: int)
    requires ValidCivil(c) && end == DayOf(c) + PeriodDays(c.month, Yearly)
    ensures var next := c.month + 12;
      CivilOf(end) == if c.MonthOfYear() == 1 && c.date == 29 then Civil(next + 1, 1) else Civil(next, c.date)
  {
    YearLater(c.month);
    RunOver(end, c.month + 12, c.date);
    NextYearLength(c.month);
  }
}
