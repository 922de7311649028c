/** The visitor part of PublicMetricsService over its one setting. */
module PublicMetricsService {
  import opened Calendar
  import opened DateKeys
  import opened Text
  import opened VisitorSafety
  import opened VisitorStore
  import opened Wrappers

  class PublicMetricsService {
    /** The key of a day. */
    const key: int -> string
    var setting: Option<Store>

    constructor ()
      ensures key == KeyOf && OrderedKeys(key) && setting == None && Summarizes(key, setting, [])
    {
      DayKeysAreOrdered();
      key := KeyOf;
      setting := None;
    }

    method NormalizeVisitorStore(anonymous: nat -> string) returns (store: Store)
      ensures store == Normalized(setting, anonymous)
    {
      if setting.None? {
        return Store(0, map[], None);
      }
      var source := setting.value;
      var daily: map<string, DayRow> := map[];
      var rest := source.daily.Keys;
      while rest != {}
        invariant rest <= source.daily.Keys
        invariant forall k :: k in daily <==> k in source.daily && k !in rest && KeyPattern(k)
        invariant forall k :: k in daily ==> daily[k] == NormalizedRow(source.daily[k], anonymous)
        decreases rest
      {
        var date :| date in rest;
        rest := rest - {date};
        if KeyPattern(date) {
          daily := daily[date := NormalizedRow(source.daily[date], anonymous)];
        }
      }
      return Store(source.totalPageViews, daily, source.lastUpdatedAt);
    }

    method PruneVisitorStore(store: Store, now: Instant) returns (r: Store)
      requires Clock(now)
      ensures r == Pruned(key, store, now)
    {
      CutoffByDateSetter(now);
      var cutoff := SetUTCDate(now, CivilOf(Day(now)).date - RETENTION_DAYS + 1).value;
      var cutoffKey := key(Day(cutoff));
      return store.(daily := map k | k in store.daily && !Less(k, cutoffKey) :: store.daily[k]);
    }

    method RecordVisitorEvent(v: Visit, anonymous: nat -> string)
      requires ClockOfVisit(v)
      modifies this
      ensures setting == Some(Recorded(key, old(setting), v, anonymous))
    {
      var store := NormalizeVisitorStore(anonymous);
      var today := key(Day(v.now));
      var daily := if today in store.daily then store.daily[today] else DayRow(0, []);
      var sessionId := SafeSessionId(v.sessionId, v.anonymous);
      var hasSession := sessionId in daily.sessionIds;
      daily := daily.(pageViews := daily.pageViews + 1);
      if !hasSession {
        daily := daily.(sessionIds := daily.sessionIds + [sessionId]);
      }
      var next := PruneVisitorStore(
        Store(store.totalPageViews + 1, store.daily[today := daily], Some(v.stamped)), v.pruned);
      setting := Some(next);
    }

    /** The totals at `read`, with the rows of the day at `now`. */
    method GetVisitorSummary(read: Instant, now: Instant, anonymous: nat -> string, ghost log: seq<Visit>)
      returns (totalPageViews: nat, todayPageViews: nat, todaySessions: nat)
      requires OrderedKeys(key) && Orderly(log) && Summarizes(key, setting, log)
      requires Clock(read) && Clock(now) && read <= now && (log != [] ==> log[|log| - 1].pruned <= read)
      ensures totalPageViews == |log| && todayPageViews == Views(log, Day(now))
      ensures todaySessions == |Sessions(log, Day(now))|
    {
      TodayIsReported(key, setting, log, anonymous, read, now);
      var normalized := NormalizeVisitorStore(anonymous);
      var store := PruneVisitorStore(normalized, read);
      var today := key(Day(now));
      if today in store.daily {
        return store.totalPageViews, store.daily[today].pageViews, |store.daily[today].sessionIds|;
      }
      return store.totalPageViews, 0, 0;
    }
  }
}
