/** getTrendAnalytics: two loops over a map of counters, then a sort. */
module AnalyticsService {
  import opened Calendar
  import opened DateKeys
  import opened Text
  import opened TrendPoints

  ghost predicate Sorted(periods: seq<string>) {
    forall i, j :: 0 <= i < j < |periods| ==> Less(periods[i], periods[j])
  }

  /** The map after some items: a point for exactly the periods that occurred. */
  ghost predicate Counts(points: map<string, Point>, items: seq<Item>, key: int -> string) {
    KeysAre(points, items, key) && ValuesAre(points, items, key)
  }

  ghost predicate KeysAre(points: map<string, Point>, items: seq<Item>, key: int -> string) {
    points.Keys == Periods(items, key)
  }

  ghost predicate ValuesAre(points: map<string, Point>, items: seq<Item>, key: int -> string) {
    forall k :: k in points ==> points[k] == PointFor(items, key, k)
  }

  /** ensureTrendPoint */
  function SoFar(points: map<string, Point>, k: string): Point {
    if k in points then points[k] else ZERO
  }

  /** The increments for one item. */
  method Increment(p: Point, item: Item) returns (point: Point)
    ensures point == Add(p, Unit(item))
  {
    point := p;
    match item {
      case Report(_, status) =>
        point := point.(submitted := point.submitted + 1);
        if status == Closed {
          point := point.(resolved := point.resolved + 1);
        }
        if IsActive(status) {
          point := point.(active := point.active + 1);
        }
      case Rework(_) =>
        point := point.(rework := point.rework + 1);
    }
  }

  method CountItem(points: map<string, Point>, item: Item, key: int -> string, ghost items: seq<Item>)
    returns (next: map<string, Point>)
    requires Counts(points, items, key)
    ensures Counts(next, items + [item], key)
  {
    var k := key(item.day);
    var point := Increment(SoFar(points, k), item);
    next := points[k := point];
    CountsOneMore(points, items, item, key, point);
  }

  lemma CountsOneMore(points: map<string, Point>, items: seq<Item>, item: Item, key: int -> string, p: Point)
    requires Counts(points, items, key) && p == Add(SoFar(points, key(item.day)), Unit(item))
    ensures Counts(points[key(item.day) := p], items + [item], key)
  {
    PointSoFar(points, items, key, key(item.day));
    KeysOneMore(points, items, item, key, p);
    ValuesOneMore(points, items, item, key, p);
  }

  lemma KeysOneMore(points: map<string, Point>, items: seq<Item>, item: Item, key: int -> string, p: Point)
    requires KeysAre(points, items, key)
    ensures KeysAre(points[key(item.day) := p], items + [item], key)
  {
    PeriodsOfOneMore(items, item, key);
  }

  lemma ValuesOneMore(points: map<string, Point>, items: seq<Item>, item: Item, key: int -> string, p: Point)
    requires ValuesAre(points, items, key) && p == Add(PointFor(items, key, key(item.day)), Unit(item))
    ensures ValuesAre(points[key(item.day) := p], items + [item], key)
  {
    forall j | j in points || j == key(item.day)
      ensures PointFor(items + [item], key, j) ==
        if key(item.day) == j then Add(PointFor(items, key, j), Unit(item)) else PointFor(items, key, j)
    {
      PointOfOneMore(items, item, key, j);
    }
  }

  /** The point of a period so far, present or not. */
  lemma PointSoFar(points: map<string, Point>, items: seq<Item>, key: int -> string, k: string)
    requires Counts(points, items, key)
    ensures PointFor(items, key, k) == SoFar(points, k)
  {
    if k !in points { AbsentIsZero(items, key, k); }
  }

  lemma PeriodsOfOneMore(items: seq<Item>, item: Item, key: int -> string)
    ensures Periods(items + [item], key) == Periods(items, key) + {key(item.day)}
  {
    assert forall x :: x in items + [item] <==> x in items || x == item;
  }

  lemma {:induction false} AbsentIsZero(items: seq<Item>, key: int -> string, k: string)
    requires k !in Periods(items, key)
    ensures PointFor(items, key, k) == ZERO
    decreases |items|
  {
    if items != [] {
      var before, last := items[..|items| - 1], items[|items| - 1];
      assert items == before + [last];
      PeriodsOfOneMore(before, last, key);
      AbsentIsZero(before, key, k);
    }
  }

  /** Ascending order of the periods. */
  method SortPeriods(keys: set<string>) returns (periods: seq<string>)
    ensures Sorted(periods) && forall k :: k in periods <==> k in keys
  {
    var rest := keys;
    periods := [];
    while rest != {}
      invariant rest <= keys && Sorted(periods)
      invariant forall k :: k in periods <==> k in keys && k !in rest
      decreases rest
    {
      var k :| k in rest;
      rest := rest - {k};
      var i := 0;
      while i < |periods| && Less(periods[i], k)
        invariant i <= |periods| && forall j :: 0 <= j < i ==> Less(periods[j], k)
      {
        i := i + 1;
      }
      InsertKeepsSorted(periods, i, k);
      periods := periods[..i] + [k] + periods[i..];
    }
  }

  lemma InsertKeepsSorted(periods: seq<string>, i: nat, k: string)
    requires Sorted(periods) && i <= |periods| && k !in periods
    requires forall j :: 0 <= j < i ==> Less(periods[j], k)
    requires i < |periods| ==> !Less(periods[i], k)
    ensures var next := periods[..i] + [k] + periods[i..];
      Sorted(next) && forall x :: x in next <==> x in periods || x == k
  {
    var next := periods[..i] + [k] + periods[i..];
    forall j | i <= j < |periods| ensures Less(k, periods[j]) {
      LessIsTotal(k, periods[i]);
      if j > i { LessIsTransitive(k, periods[i], periods[j]); }
    }
    forall x ensures x in next <==> x in periods || x == k {
      assert periods == periods[..i] + periods[i..];
    }
  }

  lemma {:induction false} LessIsTotal(s: string, t: string)
    requires s != t
    ensures Less(s, t) || Less(t, s)
  {
    if s != [] && t != [] && s[0] == t[0] {
      assert s == [s[0]] + s[1..] && t == [t[0]] + t[1..];
      LessIsTotal(s[1..], t[1..]);
    }
  }

  lemma {:induction false} LessIsTransitive(s: string, t: string, u: string)
    requires Less(s, t) && Less(t, u)
    ensures Less(s, u)
    decreases |s|
  {
    if s != [] && s[0] == t[0] == u[0] { LessIsTransitive(s[1..], t[1..], u[1..]); }
  }

  lemma SortedIsDistinct(periods: seq<string>)
    requires Sorted(periods)
    ensures Distinct(periods)
  {
    forall i, j | 0 <= i < j < |periods| ensures periods[i] != periods[j] {
      LessIrreflexive(periods[i]);
    }
  }

  /** The points in ascending order of their periods. `reports` are the reports, `activity` the rework
      events, and `key` is the bucket of the interval. */
  method GetTrendAnalytics(reports: seq<Item>, activity: seq<Item>, key: int -> string)
    returns (periods: seq<string>, points: map<string, Point>)
    requires forall item :: item in reports ==> item.Report?
    requires forall item :: item in activity ==> item.Rework?
    ensures Sorted(periods) && PointsOf(periods, points, reports + activity, key)
  {
    points := map[];
    assert reports[..0] == [];
    for i := 0 to |reports|
      invariant Counts(points, reports[..i], key)
    {
      points := CountItem(points, reports[i], key, reports[..i]);
      assert reports[..i + 1] == reports[..i] + [reports[i]];
    }
    assert reports[..|reports|] == reports && reports + activity[..0] == reports;
    for i := 0 to |activity|
      invariant Counts(points, reports + activity[..i], key)
    {
      points := CountItem(points, activity[i], key, reports + activity[..i]);
      assert reports + activity[..i + 1] == reports + activity[..i] + [activity[i]];
    }
    assert reports + activity[..|activity|] == reports + activity;
    periods := SortPeriods(points.Keys);
    SortedIsDistinct(periods);
  }

  lemma {:induction false} TotalOfReports(items: seq<Item>)
    requires forall item :: item in items ==> item.Report?
    ensures Total(items).submitted == |items| && Total(items).rework == 0
    decreases |items|
  {
    if items != [] {
      assert items[|items| - 1] in items;
      assert forall item :: item in items[..|items| - 1] ==> item in items;
      TotalOfReports(items[..|items| - 1]);
    }
  }

  /** The totals over all points are the numbers of reports and of rework events. */
  lemma {:induction false} TotalsAreInputs(reports: seq<Item>, activity: seq<Item>)
    requires forall item :: item in reports ==> item.Report?
    requires forall item :: item in activity ==> item.Rework?
    ensures Total(reports + activity).submitted == |reports| && Total(reports + activity).rework == |activity|
    decreases |activity|
  {
    if activity == [] {
      assert reports + activity == reports;
      TotalOfReports(reports);
    } else {
      var n := |activity| - 1;
      assert activity[n] in activity;
      assert forall item :: item in activity[..n] ==> item in activity;
      assert (reports + activity)[..|reports| + n] == reports + activity[..n];
      TotalsAreInputs(reports, activity[..n]);
    }
  }
}
