/** Anonymous visitor counts: a running total and, for each recent day, the page views and the distinct
    sessions. The stored value must stay the summary of all events. */
module VisitorStore {
  import opened Calendar
  import opened DateKeys
  import opened Text
  import opened Wrappers

  type Instant = int

  const RETENTION_DAYS := 31

  datatype DayRow = DayRow(pageViews: nat, sessionIds: seq<string>)
  datatype Store = Store(totalPageViews: nat, daily: map<string, DayRow>, lastUpdatedAt: Option<Instant>)

  /** A page view: the session id that was sent, the anonymous id made up in case it is malformed, and
      the clock when the day key was taken, when the store was stamped and when it was pruned. */
  datatype Visit = Visit(sessionId: string, anonymous: string, now: Instant, stamped: Instant, pruned: Instant)

  predicate IdChar(c: char) {
    'A' <= c <= 'Z' || 'a' <= c <= 'z' || '0' <= c <= '9' || c == '_' || c == '-'
  }

  predicate IdPattern(s: string) {
    16 <= |s| <= 80 && forall c :: c in s ==> IdChar(c)
  }

  function SafeSessionId(text: string, anonymous: string): string {
    if IdPattern(Trim(text)) then Trim(text) else anonymous
  }

  /** Ids are cleaned one by one; `anonymous` gives the replacements. */
  function NormalizedRow(row: DayRow, anonymous: nat -> string): DayRow {
    DayRow(row.pageViews, seq(|row.sessionIds|, i requires 0 <= i < |row.sessionIds| =>
      SafeSessionId(row.sessionIds[i], anonymous(i))))
  }

  function Normalized(value: Option<Store>, anonymous: nat -> string): Store {
    match value
    case None => Store(0, map[], None)
    case Some(s) =>
      s.(daily := map key | key in s.daily && KeyPattern(key) :: NormalizedRow(s.daily[key], anonymous))
  }

  /** The clock of a running server: from 1970 to the year 9999. */
  predicate Clock(t: Instant) {
    0 <= t < (LAST_DAY + 1) * MS_PER_DAY
  }

  function CutoffDay(t: Instant): int {
    Day(t) - (RETENTION_DAYS - 1)
  }

  lemma CutoffByDateSetter(t: Instant)
    requires Clock(t)
    ensures var r := SetUTCDate(t, CivilOf(Day(t)).date - RETENTION_DAYS + 1);
      r.Some? && Day(r.value) == CutoffDay(t)
  {
    ShiftDate(t, 1 - RETENTION_DAYS, CutoffDay(t));
    MakeDateKeepsTime(CutoffDay(t), t);
  }

  /** `key` is the key of a day. */
  function Pruned(key: int -> string, s: Store, t: Instant): Store {
    s.(daily := map k | k in s.daily && !Less(k, key(CutoffDay(t))) :: s.daily[k])
  }

  function Counted(row: DayRow, id: string): DayRow {
    DayRow(row.pageViews + 1, if id in row.sessionIds then row.sessionIds else row.sessionIds + [id])
  }

  function RowAt(daily: map<string, DayRow>, k: string): DayRow {
    if k in daily then daily[k] else DayRow(0, [])
  }

  predicate ClockOfVisit(v: Visit) {
    Clock(v.now) && Clock(v.pruned) && v.now <= v.stamped <= v.pruned
  }

  function CountedStore(key: int -> string, store: Store, v: Visit): Store {
    var today := key(Day(v.now));
    Store(store.totalPageViews + 1,
          store.daily[today := Counted(RowAt(store.daily, today), SafeSessionId(v.sessionId, v.anonymous))],
          Some(v.stamped))
  }

  /** The value that one event leaves. */
  function Recorded(key: int -> string, value: Option<Store>, v: Visit, anonymous: nat -> string): Store {
    Pruned(key, CountedStore(key, Normalized(value, anonymous), v), v.pruned)
  }
}
