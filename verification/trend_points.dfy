/** Trend points: reports and rework events counted per day, week or month. */
module TrendPoints {
  import opened Arithmetic
  import opened Calendar
  import opened DateKeys
  import opened Text

  datatype Status = Pending | Assigned | InProgress | CompletedByProvider | Closed | OtherStatus

  /** A report with its status, or a rework event, on a day. */
  datatype Item = Report(day: int, status: Status) | Rework(day: int)

  datatype Point = Point(submitted: nat, resolved: nat, active: nat, rework: nat)

  datatype Interval = Daily | Weekly | Monthly

  const ZERO := Point(0, 0, 0, 0)

  function Add(a: Point, b: Point): Point {
    Point(a.submitted + b.submitted, a.resolved + b.resolved, a.active + b.active, a.rework + b.rework)
  }

  predicate IsActive(s: Status) {
    s == Pending || s == Assigned || s == InProgress || s == CompletedByProvider
  }

  /** What one item contributes. */
  function Unit(item: Item): Point {
    match item
    case Report(_, s) => Point(1, if s == Closed then 1 else 0, if IsActive(s) then 1 else 0, 0)
    case Rework(_) => Point(0, 0, 0, 1)
  }

  // ---------- keys ----------

  /** The year that `Date.UTC` makes of a year number (section 21.4.3.4 of ECMA-262). */
  function UtcYear(y: int): int {
    if 0 <= y < 100 then 1900 + y else y
  }

  /** The days from the first day of month `january` to a date of the year that it starts. */
  function DaysFrom(january: int, c: Civil): int {
    FirstDay(january + c.MonthOfYear()) + c.date - 1 - FirstDay(january)
  }

  /** The days since 1 January; for the years 0 to 99 both dates are put into the twentieth century. */
  function DaysIntoYear(day: int): int {
    DaysFrom(12 * UtcYear(CivilOf(day).Year()), CivilOf(day))
  }

  /** The week of the year, counted in sevens from 1 January. */
  function WeekOf(day: int): int {
    DaysIntoYear(day) / 7 + 1
  }

  lemma MonthStart(y: int, m: Month, k: int)
    requires k == 12 * y + m
    ensures FirstDay(k) == DayFromYear(y) + DaysBefore(y, m)
  {
    DivModUnique(k, 12, y, m);
    FirstDayFormula(k);
  }

  lemma WeekOfDays(days: int)
    requires 0 <= days <= 365
    ensures 1 <= days / 7 + 1 <= 53
  {
  }

  lemma DaysOfYear(y: int, january: int, c: Civil)
    requires january == 12 * y && ValidCivil(c)
    ensures 0 <= DaysFrom(january, c) <= 365
  {
    MonthStart(y, c.MonthOfYear(), january + c.MonthOfYear());
    MonthStart(y, 0, january);
    AtMost335(y, c.MonthOfYear());
  }

  lemma WeekIsInRange(day: int)
    ensures 1 <= WeekOf(day) <= 53
  {
    var y := UtcYear(CivilOf(day).Year());
    DaysOfYear(y, 12 * y, CivilOf(day));
    WeekOfDays(DaysIntoYear(day));
  }

  lemma AtMost335(y: int, m: Month)
    ensures DaysBefore(y, m) <= 335 && DaysBefore(y, 0) == 0
  {
  }

  /** Outside of those years the count is of the days themselves. */
  lemma DaysAreCounted(day: int, january: int)
    requires january == 12 * CivilOf(day).Year() && !(0 <= CivilOf(day).Year() < 100)
    ensures DaysIntoYear(day) == day - FirstDay(january)
  {
    YearAndMonth(CivilOf(day).month);
    DaysOfOwnYear(january, CivilOf(day));
  }

  lemma YearAndMonth(k: int)
    ensures 12 * (k / 12) + k % 12 == k
  {
  }

  lemma DaysOfOwnYear(january: int, c: Civil)
    requires january + c.MonthOfYear() == c.month
    ensures DaysFrom(january, c) == DayOf(c) - FirstDay(january)
  {
  }

  function MonthKeyOfCivil(y: nat, m: Month): string
    requires y < 10_000
  {
    assert Pow10(2) == 100 && Pow10(4) == 10_000;
    Digits(y, 4) + "-" + Digits(m + 1, 2)
  }

  function MonthKey(day: int): string
    requires HasKey(day)
  {
    var c := CivilOf(day);
    MonthKeyOfCivil(c.Year(), c.MonthOfYear())
  }

  function WeekKey(day: int): string
    requires HasKey(day)
  {
    WeekIsInRange(day);
    assert Pow10(2) == 100 && Pow10(4) == 10_000;
    DecimalString(CivilOf(day).Year()) + "-W" + Digits(WeekOf(day), 2)
  }

  /** bucket */
  function Bucket(interval: Interval, day: int): string {
    if !HasKey(day) then ""
    else
      match interval
      case Daily => DayKey(day)
      case Weekly => WeekKey(day)
      case Monthly => MonthKey(day)
  }

  // ---------- points ----------

  /** The point of period `k`: everything that `key` puts there. */
  function PointFor(items: seq<Item>, key: int -> string, k: string): Point
    decreases |items|
  {
    if items == [] then ZERO
    else
      var before, last := PointFor(items[..|items| - 1], key, k), items[|items| - 1];
      if key(last.day) == k then Add(before, Unit(last)) else before
  }

  lemma PointOfOneMore(items: seq<Item>, item: Item, key: int -> string, k: string)
    ensures PointFor(items + [item], key, k) ==
      if key(item.day) == k then Add(PointFor(items, key, k), Unit(item)) else PointFor(items, key, k)
  {
    assert (items + [item])[..|items|] == items;
  }

  /** Add up the points of the periods that `coarse` puts into `g`. */
  function Regrouped(periods: seq<string>, points: map<string, Point>, coarse: string -> string, g: string): Point
    requires forall k :: k in periods ==> k in points
    decreases |periods|
  {
    if periods == [] then ZERO
    else
      var before, k := Regrouped(periods[..|periods| - 1], points, coarse, g), periods[|periods| - 1];
      if coarse(k) == g then Add(before, points[k]) else before
  }

  ghost predicate Distinct(ks: seq<string>) {
    forall i, j :: 0 <= i < j < |ks| ==> ks[i] != ks[j]
  }

  /** The points are those of the items, and every item has its period in the list. */
  ghost predicate PointsOf(periods: seq<string>, points: map<string, Point>, items: seq<Item>, key: int -> string) {
    && Distinct(periods) && (forall k :: k in periods <==> k in points)
    && points.Keys == Periods(items, key)
    && (forall k :: k in points ==> points[k] == PointFor(items, key, k))
  }

  /** The periods in which something happened. */
  function Periods(items: seq<Item>, key: int -> string): set<string> {
    set item | item in items :: key(item.day)
  }

  // ---------- regrouping ----------

  /** The sum over a list of periods of what the items contribute to those that `coarse` puts into `g`. */
  function SumOver(periods: seq<string>, items: seq<Item>, key: int -> string, coarse: string -> string, g: string): Point
    decreases |periods|
  {
    if periods == [] then ZERO
    else
      var before, k := SumOver(periods[..|periods| - 1], items, key, coarse, g), periods[|periods| - 1];
      if coarse(k) == g then Add(before, PointFor(items, key, k)) else before
  }

  lemma {:induction false} RegroupedIsSum(periods: seq<string>, points: map<string, Point>, items: seq<Item>,
                                          key: int -> string, coarse: string -> string, g: string)
    requires forall k :: k in periods ==> k in points && points[k] == PointFor(items, key, k)
    ensures Regrouped(periods, points, coarse, g) == SumOver(periods, items, key, coarse, g)
    decreases |periods|
  {
    if periods != [] { RegroupedIsSum(periods[..|periods| - 1], points, items, key, coarse, g); }
  }

  lemma {:induction false} SumOfNothing(periods: seq<string>, items: seq<Item>, key: int -> string,
                                        coarse: string -> string, g: string)
    requires items == []
    ensures SumOver(periods, items, key, coarse, g) == ZERO
    decreases |periods|
  {
    if periods != [] {
      var n := |periods| - 1;
      SumOfNothing(periods[..n], items, key, coarse, g);
      assert PointFor(items, key, periods[n]) == ZERO;
    }
  }

  /** One more item adds its unit once, where its period is in the list. */
  lemma {:induction false} SumOfOneMore(periods: seq<string>, items: seq<Item>, item: Item, key: int -> string,
                                        coarse: string -> string, g: string)
    requires Distinct(periods)
    ensures SumOver(periods, items + [item], key, coarse, g) ==
      if key(item.day) in periods && coarse(key(item.day)) == g
      then Add(SumOver(periods, items, key, coarse, g), Unit(item)) else SumOver(periods, items, key, coarse, g)
    decreases |periods|
  {
    if periods != [] {
      var n := |periods| - 1;
      assert (items + [item])[..|items|] == items;
      SumOfOneMore(periods[..n], items, item, key, coarse, g);
      assert key(item.day) in periods <==> key(item.day) in periods[..n] || key(item.day) == periods[n];
    }
  }

  lemma {:induction false} SumIsCoarsePoint(periods: seq<string>, items: seq<Item>, key: int -> string,
                                            coarse: string -> string, coarseKey: int -> string, g: string)
    requires Distinct(periods) && forall item :: item in items ==> key(item.day) in periods
    requires forall item :: item in items ==> coarse(key(item.day)) == coarseKey(item.day)
    ensures SumOver(periods, items, key, coarse, g) == PointFor(items, coarseKey, g)
    decreases |items|
  {
    if items == [] {
      SumOfNothing(periods, items, key, coarse, g);
    } else {
      var n := |items| - 1;
      assert items == items[..n] + [items[n]];
      assert forall item :: item in items[..n] ==> item in items;
      SumIsCoarsePoint(periods, items[..n], key, coarse, coarseKey, g);
      SumOfOneMore(periods, items[..n], items[n], key, coarse, g);
    }
  }

  /** Regrouping the points by a coarser key gives exactly the points of the coarser key. */
  lemma RegroupingIsExact(periods: seq<string>, points: map<string, Point>, items: seq<Item>, key: int -> string,
                          coarse: string -> string, coarseKey: int -> string, g: string)
    requires PointsOf(periods, points, items, key)
    requires forall item :: item in items ==> coarse(key(item.day)) == coarseKey(item.day)
    ensures Regrouped(periods, points, coarse, g) == PointFor(items, coarseKey, g)
  {
    RegroupedIsSum(periods, points, items, key, coarse, g);
    assert forall item :: item in items ==> key(item.day) in Periods(items, key);
    SumIsCoarsePoint(periods, items, key, coarse, coarseKey, g);
  }

  // ---------- from daily to weekly and monthly ----------

  /** The month part of a day key. */
  function MonthPart(period: string): string {
    if |period| < 7 then period else period[..7]
  }

  /** The day that a day key names. */
  function DayOfKey(period: string): int {
    if !KeyPattern(period) then 0 else DayOf(CivilOfKey(period))
  }

  function CivilOfKey(period: string): Civil
    requires KeyPattern(period)
  {
    Civil(12 * ParseDecimal(period[..4]) + ParseDecimal(period[5..7]) - 1, ParseDecimal(period[8..]))
  }

  function WeekPart(period: string): string {
    Bucket(Weekly, DayOfKey(period))
  }

  lemma JoinParts(y: string, m: string, d: string)
    requires |y| == 4 && |m| == |d| == 2
    ensures Join(y, m, d)[..4] == y && Join(y, m, d)[5..7] == m && Join(y, m, d)[8..] == d
    ensures Join(y, m, d)[..7] == y + "-" + m
  {
  }

  lemma CivilOfJoin(y: string, m: string, d: string)
    requires |y| == 4 && |m| == |d| == 2 && AllDigits(y) && AllDigits(m) && AllDigits(d)
    ensures KeyPattern(Join(y, m, d))
    ensures CivilOfKey(Join(y, m, d)) == Civil(12 * ParseDecimal(y) + ParseDecimal(m) - 1, ParseDecimal(d))
  {
    JoinHasPattern(y, m, d);
    JoinParts(y, m, d);
  }

  lemma CivilKeyParts(y: nat, m: Month, date: nat)
    requires y < 10_000 && date <= 31
    ensures KeyPattern(KeyOfCivil(y, m, date)) && CivilOfKey(KeyOfCivil(y, m, date)) == Civil(12 * y + m, date)
  {
    assert Pow10(2) == 100 && Pow10(4) == 10_000;
    CivilOfJoin(Digits(y, 4), Digits(m + 1, 2), Digits(date, 2));
  }

  lemma CivilMonthPart(y: nat, m: Month, date: nat)
    requires y < 10_000 && date <= 31
    ensures MonthPart(KeyOfCivil(y, m, date)) == MonthKeyOfCivil(y, m)
  {
    assert Pow10(2) == 100 && Pow10(4) == 10_000;
    JoinParts(Digits(y, 4), Digits(m + 1, 2), Digits(date, 2));
  }

  lemma DayKeyParts(day: int)
    requires HasKey(day)
    ensures DayOfKey(DayKey(day)) == day && MonthPart(DayKey(day)) == MonthKey(day)
  {
    var c := CivilOf(day);
    CivilKeyParts(c.Year(), c.MonthOfYear(), c.date);
    assert Civil(12 * c.Year() + c.MonthOfYear(), c.date) == c;
    CivilMonthPart(c.Year(), c.MonthOfYear(), c.date);
  }

  /** The coarser key of a day is a function of its day key. */
  lemma PartsOfBucket(day: int)
    requires HasKey(day)
    ensures MonthPart(Bucket(Daily, day)) == Bucket(Monthly, day)
    ensures WeekPart(Bucket(Daily, day)) == Bucket(Weekly, day)
  {
    DayKeyParts(day);
  }

  /** Daily points regrouped by month are exactly the monthly points. */
  lemma DailyRegroupsToMonthly(periods: seq<string>, points: map<string, Point>, items: seq<Item>, daily: int -> string,
                               monthly: int -> string, g: string)
    requires PointsOf(periods, points, items, daily)
    requires forall item :: item in items ==> HasKey(item.day)
    requires forall d :: daily(d) == Bucket(Daily, d) && monthly(d) == Bucket(Monthly, d)
    ensures Regrouped(periods, points, MonthPart, g) == PointFor(items, monthly, g)
  {
    forall item | item in items ensures MonthPart(daily(item.day)) == monthly(item.day) {
      PartsOfBucket(item.day);
    }
    RegroupingIsExact(periods, points, items, daily, MonthPart, monthly, g);
  }

  /** Daily points regrouped by week are exactly the weekly points. */
  lemma DailyRegroupsToWeekly(periods: seq<string>, points: map<string, Point>, items: seq<Item>, daily: int -> string,
                              weekly: int -> string, g: string)
    requires PointsOf(periods, points, items, daily)
    requires forall item :: item in items ==> HasKey(item.day)
    requires forall d :: daily(d) == Bucket(Daily, d) && weekly(d) == Bucket(Weekly, d)
    ensures Regrouped(periods, points, WeekPart, g) == PointFor(items, weekly, g)
  {
    forall item | item in items ensures WeekPart(daily(item.day)) == weekly(item.day) {
      PartsOfBucket(item.day);
    }
    RegroupingIsExact(periods, points, items, daily, WeekPart, weekly, g);
  }

  // ---------- totals ----------

  function Total(items: seq<Item>): Point
    decreases |items|
  {
    if items == [] then ZERO else Add(Total(items[..|items| - 1]), Unit(items[|items| - 1]))
  }

  lemma {:induction false} OneGroupIsAll(items: seq<Item>)
    ensures PointFor(items, _ => "", "") == Total(items)
    decreases |items|
  {
    if items != [] { OneGroupIsAll(items[..|items| - 1]); }
  }

  /** Nothing is lost or counted twice: all points together are the total of all items. */
  lemma NothingIsLost(periods: seq<string>, points: map<string, Point>, items: seq<Item>, key: int -> string)
    requires PointsOf(periods, points, items, key)
    ensures Regrouped(periods, points, _ => "", "") == Total(items)
  {
    RegroupingIsExact(periods, points, items, key, _ => "", _ => "", "");
    OneGroupIsAll(items);
  }

  /** Resolved and active reports of a period are disjoint parts of those submitted in it. */
  lemma {:induction false} PartsOfSubmitted(items: seq<Item>, key: int -> string, k: string)
    ensures var p := PointFor(items, key, k); p.resolved + p.active <= p.submitted
    decreases |items|
  {
    if items != [] { PartsOfSubmitted(items[..|items| - 1], key, k); }
  }

  // ---------- what is counted ----------

  /** The reports of period `k` with a status among `statuses`. */
  function ReportsIn(items: seq<Item>, key: int -> string, k: string, statuses: set<Status>): set<nat> {
    set i: nat | i < |items| && items[i].Report? && key(items[i].day) == k && items[i].status in statuses
  }

  function ReworkIn(items: seq<Item>, key: int -> string, k: string): set<nat> {
    set i: nat | i < |items| && items[i].Rework? && key(items[i].day) == k
  }

  function AllStatuses(): set<Status> {
    {Pending, Assigned, InProgress, CompletedByProvider, Closed, OtherStatus}
  }

  lemma ReportsOfOneMore(items: seq<Item>, item: Item, key: int -> string, k: string, statuses: set<Status>, more: nat)
    requires more == if item.Report? && key(item.day) == k && item.status in statuses then 1 else 0
    ensures |ReportsIn(items + [item], key, k, statuses)| == |ReportsIn(items, key, k, statuses)| + more
  {
    var all, before := ReportsIn(items + [item], key, k, statuses), ReportsIn(items, key, k, statuses);
    if more == 1 {
      assert all == before + {|items|};
    } else {
      assert all == before;
    }
  }

  lemma ReworkOfOneMore(items: seq<Item>, item: Item, key: int -> string, k: string, more: nat)
    requires more == if item.Rework? && key(item.day) == k then 1 else 0
    ensures |ReworkIn(items + [item], key, k)| == |ReworkIn(items, key, k)| + more
  {
    var all, before := ReworkIn(items + [item], key, k), ReworkIn(items, key, k);
    if more == 1 {
      assert all == before + {|items|};
    } else {
      assert all == before;
    }
  }

  function OpenStatuses(): set<Status> {
    {Pending, Assigned, InProgress, CompletedByProvider}
  }

  /** The numbers of the period's reports, closed reports, open reports and rework events. */
  function CountsIn(items: seq<Item>, key: int -> string, k: string): Point {
    Point(|ReportsIn(items, key, k, AllStatuses())|, |ReportsIn(items, key, k, {Closed})|,
          |ReportsIn(items, key, k, OpenStatuses())|, |ReworkIn(items, key, k)|)
  }

  lemma EveryStatus(s: Status)
    ensures s in AllStatuses()
  {
    match s
    case Pending =>
    case Assigned =>
    case InProgress =>
    case CompletedByProvider =>
    case Closed =>
    case OtherStatus =>
  }

  lemma CountsOfOneMore(items: seq<Item>, item: Item, key: int -> string, k: string)
    ensures CountsIn(items + [item], key, k) ==
      if key(item.day) == k then Add(CountsIn(items, key, k), Unit(item)) else CountsIn(items, key, k)
  {
    var here := key(item.day) == k;
    if item.Report? { EveryStatus(item.status); }
    ReportsOfOneMore(items, item, key, k, AllStatuses(), if item.Report? && here then 1 else 0);
    ReportsOfOneMore(items, item, key, k, {Closed}, if item.Report? && here && item.status == Closed then 1 else 0);
    ReportsOfOneMore(items, item, key, k, OpenStatuses(), if item.Report? && here && item.status in OpenStatuses() then 1 else 0);
    ReworkOfOneMore(items, item, key, k, if item.Rework? && here then 1 else 0);
  }

  /** A point counts the reports of its period, those that are closed, those that are open, and the rework. */
  lemma {:induction false} PointCounts(items: seq<Item>, key: int -> string, k: string)
    ensures PointFor(items, key, k) == CountsIn(items, key, k)
    decreases |items|
  {
    if items == [] {
      assert CountsIn(items, key, k) == ZERO;
    } else {
      var before, item := items[..|items| - 1], items[|items| - 1];
      assert items == before + [item];
      PointCounts(before, key, k);
      PointOfOneMore(before, item, key, k);
      CountsOfOneMore(before, item, key, k);
    }
  }

  /** A weekly key is the year, `-W` and the two digits of the week. */
  lemma WeekKeyText(day: int)
    requires HasKey(day)
    ensures var k := WeekKey(day); var n := |k| - 4;
      && n >= 1 && k[n..n + 2] == "-W" && AllDigits(k[..n]) && AllDigits(k[n + 2..])
      && ParseDecimal(k[..n]) == CivilOf(day).Year() && ParseDecimal(k[n + 2..]) == DaysIntoYear(day) / 7 + 1
  {
    WeekIsInRange(day);
    assert Pow10(2) == 100;
    TextOfParts(DecimalString(CivilOf(day).Year()), Digits(WeekOf(day), 2));
  }

  lemma TextOfParts(y: string, w: string)
    requires |w| == 2
    ensures var k := y + "-W" + w; k[..|y|] == y && k[|y|..|y| + 2] == "-W" && k[|y| + 2..] == w
  {
  }
}
