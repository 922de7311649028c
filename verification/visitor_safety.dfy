/** The stored visitor counts are always the summary of the whole event log. */
module VisitorSafety {
  import opened Calendar
  import opened DateKeys
  import opened Text
  import opened VisitorStore
  import opened Wrappers

  // ---------- the summary of a log ----------

  function DayOfVisit(v: Visit): int { Day(v.now) }

  function SessionOf(v: Visit): string { SafeSessionId(v.sessionId, v.anonymous) }

  function Views(log: seq<Visit>, day: int): nat
    decreases |log|
  {
    if log == [] then 0
    else Views(log[..|log| - 1], day) + if DayOfVisit(log[|log| - 1]) == day then 1 else 0
  }

  /** The distinct sessions of a day in the order they were first seen. */
  function Sessions(log: seq<Visit>, day: int): seq<string>
    decreases |log|
  {
    if log == [] then []
    else
      var before, v := Sessions(log[..|log| - 1], day), log[|log| - 1];
      if DayOfVisit(v) != day || SessionOf(v) in before then before else before + [SessionOf(v)]
  }

  lemma {:induction false} SessionsAreTheDaysIds(log: seq<Visit>, day: int, id: string)
    ensures id in Sessions(log, day) <==> exists i :: 0 <= i < |log| && DayOfVisit(log[i]) == day && SessionOf(log[i]) == id
    decreases |log|
  {
    if log != [] { SessionsAreTheDaysIds(log[..|log| - 1], day, id); }
  }

  /** Each session enters at the first visit that carries it, after those that were seen before. */
  lemma {:induction false} SessionsInFirstSeenOrder(log: seq<Visit>, day: int, j: nat)
    requires j < |Sessions(log, day)|
    ensures exists p: nat :: p < |log| && DayOfVisit(log[p]) == day && SessionOf(log[p]) == Sessions(log, day)[j]
                             && Sessions(log[..p], day) == Sessions(log, day)[..j]
                             && Sessions(log, day)[j] !in Sessions(log, day)[..j]
    decreases |log|
  {
    var n := |log| - 1;
    var before := Sessions(log[..n], day);
    if j < |before| {
      SessionsInFirstSeenOrder(log[..n], day, j);
      var p: nat :| p < n && DayOfVisit(log[..n][p]) == day && SessionOf(log[..n][p]) == before[j]
                    && Sessions(log[..n][..p], day) == before[..j] && before[j] !in before[..j];
      assert log[..n][..p] == log[..p];
      assert Sessions(log, day)[..j] == before[..j];
    } else {
      assert Sessions(log, day)[..j] == before;
    }
  }

  lemma {:induction false} ViewedDays(log: seq<Visit>, day: int)
    ensures Views(log, day) > 0 <==> exists v :: v in log && DayOfVisit(v) == day
    ensures Views(log, day) == 0 ==> Sessions(log, day) == []
    decreases |log|
  {
    if log != [] {
      var before := log[..|log| - 1];
      ViewedDays(before, day);
      assert forall v :: v in log <==> v in before || v == log[|log| - 1];
    }
  }

  ghost predicate Lists(key: int -> string, daily: map<string, DayRow>, log: seq<Visit>, first: int) {
    && (forall v :: v in log && DayOfVisit(v) >= first ==>
      var d := DayOfVisit(v);
      key(d) in daily && daily[key(d)] == DayRow(Views(log, d), Sessions(log, d)))
    && (forall k :: k in daily ==>
      exists v :: v in log && DayOfVisit(v) >= first && k == key(DayOfVisit(v)))
  }

  /** The store is the summary of the log: the total of all events, and a row for exactly the days with
      events that were not yet too old when the last event was recorded. */
  ghost predicate Summarizes(key: int -> string, value: Option<Store>, log: seq<Visit>) {
    if log == [] then value == None
    else
      var last := log[|log| - 1];
      && value.Some? && value.value.totalPageViews == |log| && value.value.lastUpdatedAt == Some(last.stamped)
      && Lists(key, value.value.daily, log, CutoffDay(last.pruned))
  }

  /** The clock never runs back and every session id has the expected form. */
  ghost predicate Orderly(log: seq<Visit>) {
    && (forall i :: 0 <= i < |log| ==> ClockOfVisit(log[i]) && IdPattern(SessionOf(log[i])))
    && (forall i, j :: 0 <= i < j < |log| ==> log[i].pruned <= log[j].now)
  }

  function Stored(key: int -> string, log: seq<Visit>, anonymous: nat -> string): Option<Store>
    requires forall i :: 0 <= i < |log| ==> ClockOfVisit(log[i])
    decreases |log|
  {
    if log == [] then None
    else Some(Recorded(key, Stored(key, log[..|log| - 1], anonymous), log[|log| - 1], anonymous))
  }

  // ---------- proofs ----------

  lemma WellFormedIdIsKept(id: string, anonymous: string)
    requires IdPattern(id)
    ensures SafeSessionId(id, anonymous) == id
  {
    assert IdChar(id[0]) && IdChar(id[|id| - 1]);
    assert Trim(id) == id;
  }

  lemma WellFormedRowIsKept(row: DayRow, anonymous: nat -> string)
    requires forall id :: id in row.sessionIds ==> IdPattern(id)
    ensures NormalizedRow(row, anonymous) == row
  {
    forall i: nat | i < |row.sessionIds| ensures SafeSessionId(row.sessionIds[i], anonymous(i)) == row.sessionIds[i] {
      WellFormedIdIsKept(row.sessionIds[i], anonymous(i));
    }
  }

  ghost predicate Keyed(log: seq<Visit>) {
    forall v :: v in log ==> KeyedDay(DayOfVisit(v)) && IdPattern(SessionOf(v))
  }

  lemma OrderlyIsKeyed(log: seq<Visit>)
    requires Orderly(log)
    ensures Keyed(log)
  {
    forall v | v in log ensures KeyedDay(DayOfVisit(v)) && IdPattern(SessionOf(v)) {
      var i :| 0 <= i < |log| && log[i] == v;
      assert ClockOfVisit(log[i]);
    }
  }

  /** Normalizing changes nothing in a summary that the service wrote. */
  lemma NormalizingKeepsSummaries(key: int -> string, value: Store, log: seq<Visit>, first: int, anonymous: nat -> string)
    requires OrderedKeys(key) && Keyed(log) && Lists(key, value.daily, log, first)
    ensures Normalized(Some(value), anonymous) == value
  {
    forall k | k in value.daily ensures KeyPattern(k) && NormalizedRow(value.daily[k], anonymous) == value.daily[k] {
      var v :| v in log && DayOfVisit(v) >= first && k == key(DayOfVisit(v));
      forall id | id in value.daily[k].sessionIds ensures IdPattern(id) {
        SessionsAreTheDaysIds(log, DayOfVisit(v), id);
      }
      WellFormedRowIsKept(value.daily[k], anonymous);
    }
  }

  /** The row of a day, present or not. */
  lemma RowOfDay(key: int -> string, daily: map<string, DayRow>, log: seq<Visit>, first: int, day: int)
    requires OrderedKeys(key) && Keyed(log) && KeyedDay(day) && Lists(key, daily, log, first) && first <= day
    ensures RowAt(daily, key(day)) == DayRow(Views(log, day), Sessions(log, day))
  {
    ViewedDays(log, day);
    if key(day) in daily {
      var v :| v in log && DayOfVisit(v) >= first && key(day) == key(DayOfVisit(v));
    }
  }

  lemma CountsOfDay(log: seq<Visit>, v: Visit, day: int)
    ensures DayRow(Views(log + [v], day), Sessions(log + [v], day)) ==
      var row := DayRow(Views(log, day), Sessions(log, day));
      if day == DayOfVisit(v) then Counted(row, SessionOf(v)) else row
  {
    assert (log + [v])[..|log|] == log;
  }

  /** After one more visit `v` the row of the day of `w` is that of the longer log. */
  lemma RowAfterVisit(key: int -> string, daily: map<string, DayRow>, log: seq<Visit>, first: int, v: Visit, d: int)
    requires OrderedKeys(key) && Keyed(log) && Lists(key, daily, log, first)
    requires KeyedDay(DayOfVisit(v)) && first <= DayOfVisit(v) && KeyedDay(d) && first <= d
    ensures var today := key(DayOfVisit(v));
      RowAt(daily[today := Counted(RowAt(daily, today), SessionOf(v))], key(d)) == DayRow(Views(log + [v], d), Sessions(log + [v], d))
  {
    RowOfDay(key, daily, log, first, d);
    CountsOfDay(log, v, d);
  }

  lemma CountingAdds(key: int -> string, daily: map<string, DayRow>, log: seq<Visit>, first: int, v: Visit)
    requires OrderedKeys(key) && Keyed(log) && Lists(key, daily, log, first)
    requires KeyedDay(DayOfVisit(v)) && first <= DayOfVisit(v)
    ensures var today := key(DayOfVisit(v));
      Lists(key, daily[today := Counted(RowAt(daily, today), SessionOf(v))], log + [v], first)
  {
    var today := key(DayOfVisit(v));
    var daily' := daily[today := Counted(RowAt(daily, today), SessionOf(v))];
    assert forall w :: w in log + [v] <==> w in log || w == v;
    forall w | w in log + [v] && DayOfVisit(w) >= first
      ensures var d := DayOfVisit(w);
        key(d) in daily' && daily'[key(d)] == DayRow(Views(log + [v], d), Sessions(log + [v], d))
    {
      RowAfterVisit(key, daily, log, first, v, DayOfVisit(w));
    }
  }

  lemma PruningForgetsOldDays(key: int -> string, s: Store, log: seq<Visit>, first: int, t: int)
    requires OrderedKeys(key) && Keyed(log) && Lists(key, s.daily, log, first) && Clock(t) && first <= CutoffDay(t)
    ensures Lists(key, Pruned(key, s, t).daily, log, CutoffDay(t))
  {
    assert KeyedDay(CutoffDay(t));
    forall k | k in Pruned(key, s, t).daily
      ensures exists v :: v in log && DayOfVisit(v) >= CutoffDay(t) && k == key(DayOfVisit(v))
    {
      var v :| v in log && DayOfVisit(v) >= first && k == key(DayOfVisit(v));
    }
  }

  lemma LaterDay(a: int, b: int)
    requires a <= b
    ensures Day(a) <= Day(b) && CutoffDay(a) <= CutoffDay(b)
  {
  }

  /** One event keeps the rows a list of the days since the last cutoff. */
  lemma RecordingKeeps(key: int -> string, value: Option<Store>, log: seq<Visit>, v: Visit, anonymous: nat -> string)
    requires OrderedKeys(key) && Orderly(log + [v]) && Summarizes(key, value, log)
    ensures Summarizes(key, Some(Recorded(key, value, v, anonymous)), log + [v])
  {
    OrderlyIsKeyed(log + [v]);
    assert v == (log + [v])[|log|];
    assert forall w :: w in log ==> w in log + [v];
    var store := Normalized(value, anonymous);
    var first := if log == [] then CutoffDay(v.now) else CutoffDay(log[|log| - 1].pruned);
    if log != [] {
      NormalizingKeepsSummaries(key, value.value, log, first, anonymous);
      assert (log + [v])[|log| - 1] == log[|log| - 1];
      LaterDay(log[|log| - 1].pruned, v.now);
    }
    LaterDay(v.now, v.pruned);
    CountingAdds(key, store.daily, log, first, v);
    PruningForgetsOldDays(key, CountedStore(key, store, v), log + [v], first, v.pruned);
  }

  /** After every orderly log the stored value is the summary of that log. */
  lemma {:induction false} StoreIsSummary(key: int -> string, log: seq<Visit>, anonymous: nat -> string)
    requires OrderedKeys(key) && Orderly(log)
    ensures Summarizes(key, Stored(key, log, anonymous), log)
    decreases |log|
  {
    if log != [] {
      var before, v := log[..|log| - 1], log[|log| - 1];
      OrderlyBefore(before, v, log);
      StoreIsSummary(key, before, anonymous);
      RecordingKeeps(key, Stored(key, before, anonymous), before, v, anonymous);
    }
  }

  lemma OrderlyBefore(before: seq<Visit>, v: Visit, log: seq<Visit>)
    requires |log| > 0 && before == log[..|log| - 1] && v == log[|log| - 1] && Orderly(log)
    ensures log == before + [v] && Orderly(before) && ClockOfVisit(v)
  {
  }

  /** What getVisitorSummary reports at a later time: all events, and those of today. */
  lemma TodayIsReported(key: int -> string, value: Option<Store>, log: seq<Visit>, anonymous: nat -> string, read: int, now: int)
    requires OrderedKeys(key) && Orderly(log) && Summarizes(key, value, log) && Clock(read) && Clock(now) && read <= now
    requires log != [] ==> log[|log| - 1].pruned <= read
    ensures var store := Pruned(key, Normalized(value, anonymous), read);
      store.totalPageViews == |log| && RowAt(store.daily, key(Day(now))) == DayRow(Views(log, Day(now)), Sessions(log, Day(now)))
  {
    OrderlyIsKeyed(log);
    LaterDay(read, now);
    if log != [] {
      var first := CutoffDay(log[|log| - 1].pruned);
      LaterDay(log[|log| - 1].pruned, read);
      NormalizingKeepsSummaries(key, value.value, log, first, anonymous);
      PruningForgetsOldDays(key, value.value, log, first, read);
      RowOfDay(key, Pruned(key, value.value, read).daily, log, CutoffDay(read), Day(now));
    }
  }

  // ---------- which days and ids are kept ----------

  /** Exactly the days with events are listed that are at most thirty days before the last pruning. */
  lemma KeptDays(key: int -> string, log: seq<Visit>, anonymous: nat -> string, d: int)
    requires OrderedKeys(key) && Orderly(log) && log != [] && KeyedDay(d)
    ensures Stored(key, log, anonymous).Some?
    ensures key(d) in Stored(key, log, anonymous).value.daily <==>
      d >= Day(log[|log| - 1].pruned) - 30 && exists v :: v in log && DayOfVisit(v) == d
  {
    StoreIsSummary(key, log, anonymous);
    OrderlyIsKeyed(log);
    var daily := Stored(key, log, anonymous).value.daily;
    if key(d) in daily {
      var v :| v in log && DayOfVisit(v) >= CutoffDay(log[|log| - 1].pruned) && key(d) == key(DayOfVisit(v));
      assert KeyedDay(DayOfVisit(v));
    }
  }

  /** A session id is kept when it has 16 to 80 letters, digits, dashes and underscores, white space around it
      aside; any other is replaced. */
  lemma SessionIdsKept(text: string, anonymous: string)
    requires text != anonymous && Trim(text) != anonymous
    ensures SafeSessionId(text, anonymous) == Trim(text) <==>
      16 <= |Trim(text)| <= 80 && forall c :: c in Trim(text) ==>
        'A' <= c <= 'Z' || 'a' <= c <= 'z' || '0' <= c <= '9' || c == '_' || c == '-'
  {
  }
}
