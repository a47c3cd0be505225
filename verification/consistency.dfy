/** What the backend promises across calls: a query reads back exactly what
    was tracked in each period, untracked periods read zero, tracking is
    additive and order-independent, and undated totals never show up in a
    time series. */
module Consistency {
  import opened Calendar
  import opened Format
  import opened RedisStore
  import opened Keys
  import opened Merge
  import opened Backend

  /** A call that writes: `track_metric` or `track_count`. */
  datatype Event =
    | Metric(id: string, metric: string, date: Date, amt: int)
    | Count(id: string, metric: string, amt: int)

  /** Does the event write field `field` of hash `key`? */
  predicate Touches(e: Event, key: string, field: string) {
    e.Metric? && Hit(key, field, e.id, e.metric, e.date)
  }

  /** The fields of hash `key` the event creates if missing. */
  function FieldsOf(e: Event, key: string): set<string> {
    if e.Metric? then TouchedFields(key, e.id, e.metric, e.date) else {}
  }

  /** The hashes the event creates if missing. */
  function HashesOf(e: Event): set<string> {
    if e.Metric? then {DailyKey(e.id, e.date), WeeklyKey(e.id, e.date)} else {}
  }

  /** `t` is `s` after event `e`: the fields the event touches and its total
      grow by its amount, the keys and fields it names exist, nothing else
      changes. */
  ghost predicate Effect(s: Store, t: Store, e: Event) {
    && (forall k, f :: FieldValue(t, k, f) == FieldValue(s, k, f) + (if Touches(e, k, f) then e.amt else 0))
    && (forall k :: ScalarValue(t, k) == ScalarValue(s, k) + (if k == AggregateKey(e.id, e.metric) then e.amt else 0))
    && t.hashes.Keys == s.hashes.Keys + HashesOf(e)
    && (forall k :: HashAt(t, k).Keys == HashAt(s, k).Keys + FieldsOf(e, k))
    && t.scalars.Keys == s.scalars.Keys + {AggregateKey(e.id, e.metric)}
  }

  /** The store after one call. */
  function Apply(s: Store, e: Event): (r: Store)
    ensures Effect(s, r, e)
  {
    match e
    case Metric(id, metric, date, amt) =>
      MetricEffect(s, e);
      TrackMetric(s, id, metric, date, amt).0
    case Count(id, metric, amt) =>
      CountEffect(s, e);
      TrackCount(s, id, metric, amt).0
  }

  lemma MetricEffect(s: Store, e: Event)
    requires e.Metric?
    ensures Effect(s, TrackMetric(s, e.id, e.metric, e.date, e.amt).0, e)
  {
    var t := TrackMetric(s, e.id, e.metric, e.date, e.amt).0;
    TrackEffect(s, t, e);
  }

  /** The postconditions of `TrackMetric` are the effect of its event. */
  lemma TrackEffect(s: Store, t: Store, e: Event)
    requires e.Metric?
    requires forall k, f :: FieldValue(t, k, f) == FieldValue(s, k, f) + (if Hit(k, f, e.id, e.metric, e.date) then e.amt else 0)
    requires forall k :: ScalarValue(t, k) == ScalarValue(s, k) + (if k == AggregateKey(e.id, e.metric) then e.amt else 0)
    requires t.hashes.Keys == s.hashes.Keys + {DailyKey(e.id, e.date), WeeklyKey(e.id, e.date)}
    requires forall k :: HashAt(t, k).Keys == HashAt(s, k).Keys + TouchedFields(k, e.id, e.metric, e.date)
    requires t.scalars.Keys == s.scalars.Keys + {AggregateKey(e.id, e.metric)}
    ensures Effect(s, t, e)
  {
    assert forall k, f :: Touches(e, k, f) == Hit(k, f, e.id, e.metric, e.date);
    assert forall k :: FieldsOf(e, k) == TouchedFields(k, e.id, e.metric, e.date);
  }

  lemma CountEffect(s: Store, e: Event)
    requires e.Count?
    ensures Effect(s, TrackCount(s, e.id, e.metric, e.amt).0, e)
  {
  }

  /** The store after a sequence of calls, in order. */
  function Replay(s: Store, events: seq<Event>): Store
    decreases |events|
  {
    if |events| == 0 then s
    else Apply(Replay(s, events[..|events| - 1]), events[|events| - 1])
  }

  /** A period of a time series. */
  datatype Period = Day(day: Date) | Week(monday: Date) | Month(first: Date)

  /** Whether an event belongs to a subject's metric in a period. */
  predicate InPeriod(e: Event, id: string, metric: string, p: Period) {
    && e.Metric?
    && e.id == id
    && e.metric == metric
    && match p
       case Day(d) => e.date == d
       case Week(m) => ClosestWeek(e.date) == m
       case Month(f) => MonthIndex(e.date) == MonthIndex(f)
  }

  /** Whether the event is a `track_metric` call for the subject's metric. */
  predicate Tracks(e: Event, id: string, metric: string) {
    e.Metric? && e.id == id && e.metric == metric
  }

  /** The amounts tracked for a subject's metric in a period. */
  function Tracked(events: seq<Event>, id: string, metric: string, p: Period): int {
    if |events| == 0 then 0
    else
      var e := events[|events| - 1];
      Tracked(events[..|events| - 1], id, metric, p) + (if InPeriod(e, id, metric, p) then e.amt else 0)
  }

  /** The amounts tracked under one undated total. */
  function CountTracked(events: seq<Event>, key: string): int {
    if |events| == 0 then 0
    else
      var e := events[|events| - 1];
      CountTracked(events[..|events| - 1], key) + (if AggregateKey(e.id, e.metric) == key then e.amt else 0)
  }

  /** What one event adds to a field summed over a list of hashes. */
  function Added(e: Event, keys: seq<string>, field: string): int {
    if |keys| == 0 then 0
    else Added(e, keys[..|keys| - 1], field) + (if Touches(e, keys[|keys| - 1], field) then e.amt else 0)
  }

  lemma {:induction false} SlotSumAfterApply(s: Store, e: Event, keys: seq<string>, field: string)
    ensures SlotSum(Apply(s, e), keys, field) == SlotSum(s, keys, field) + Added(e, keys, field)
    decreases |keys|
  {
    if |keys| > 0 {
      SlotSumAfterApply(s, e, keys[..|keys| - 1], field);
    }
  }

  lemma {:induction false} AddedNone(e: Event, keys: seq<string>, field: string)
    requires forall h :: 0 <= h < |keys| ==> !Touches(e, keys[h], field)
    ensures Added(e, keys, field) == 0
    decreases |keys|
  {
    if |keys| > 0 {
      AddedNone(e, keys[..|keys| - 1], field);
    }
  }

  /** An event that writes the field in exactly one of the hashes adds its amount once. */
  lemma {:induction false} AddedOnce(e: Event, keys: seq<string>, field: string, h0: nat)
    requires h0 < |keys| && Touches(e, keys[h0], field)
    requires forall h :: 0 <= h < |keys| && h != h0 ==> !Touches(e, keys[h], field)
    ensures Added(e, keys, field) == e.amt
    decreases |keys|
  {
    var n := |keys| - 1;
    if h0 < n {
      AddedOnce(e, keys[..n], field, h0);
    } else {
      AddedNone(e, keys[..n], field);
    }
  }

  /** A year whose month index lies between two others lies between their years. */
  lemma YearBetween(a: Date, x: Date, b: Date)
    requires MonthIndex(a) <= MonthIndex(x) <= MonthIndex(b)
    ensures a.year <= x.year <= b.year
  {
  }

  /** A call for another subject or metric writes none of a day query's counters. */
  lemma ForeignDaily(e: Event, id: string, metric: string, range: seq<Date>, d: Date)
    requires e.Metric? && !Tracks(e, id, metric)
    ensures Added(e, DailyKeys(id, range), DailyName(metric, d)) == 0
  {
    var keys := DailyKeys(id, range);
    forall h | 0 <= h < |keys|
      ensures !Touches(e, keys[h], DailyName(metric, d))
    {
      DailyKeyInjective(id, range[h], e.id, e.date);
      DailyKeyNotWeeklyKey(id, range[h], e.id, e.date);
      DailyNameInjective(metric, d, e.metric, e.date);
    }
    AddedNone(e, keys, DailyName(metric, d));
  }

  /** A call for another subject or metric writes none of a week query's counters. */
  lemma ForeignWeekly(e: Event, id: string, metric: string, range: seq<Date>, m: Date)
    requires e.Metric? && !Tracks(e, id, metric)
    ensures Added(e, WeeklyKeys(id, range), WeeklyName(metric, m)) == 0
  {
    var keys := WeeklyKeys(id, range);
    var w := ClosestWeek(e.date);
    assert WeeklyName(metric, m) == DailyName(metric, m) && WeeklyName(e.metric, w) == DailyName(e.metric, w);
    DailyNameInjective(metric, m, e.metric, w);
    WeeklyNameNotMonthlyName(metric, m, e.metric, e.date);
    forall h | 0 <= h < |keys|
      ensures !Touches(e, keys[h], WeeklyName(metric, m))
    {
      WeeklyKeyInjective(id, range[h], e.id, e.date);
      DailyKeyNotWeeklyKey(e.id, e.date, id, range[h]);
    }
    AddedNone(e, keys, WeeklyName(metric, m));
  }

  /** A call for another subject or metric writes none of a month query's counters. */
  lemma ForeignMonthly(e: Event, id: string, metric: string, range: seq<Date>, p: Date)
    requires e.Metric? && !Tracks(e, id, metric)
    ensures Added(e, WeeklyKeys(id, range), MonthlyName(metric, p)) == 0
  {
    var keys := WeeklyKeys(id, range);
    MonthlyNameInjective(metric, p, e.metric, e.date);
    WeeklyNameNotMonthlyName(e.metric, ClosestWeek(e.date), metric, p);
    forall h | 0 <= h < |keys|
      ensures !Touches(e, keys[h], MonthlyName(metric, p))
    {
      WeeklyKeyInjective(id, range[h], e.id, e.date);
      DailyKeyNotWeeklyKey(e.id, e.date, id, range[h]);
    }
    AddedNone(e, keys, MonthlyName(metric, p));
  }

  /** Within one century, the one counter of a day query's `i`-th day that an
      event can write is that day's, and only when the event is on that day. */
  lemma DayAdded(e: Event, id: string, metric: string, from: Date, limit: nat, i: nat)
    requires i < limit
    requires Century(from) == Century(Plus(from, Days(limit)))
    requires Tracks(e, id, metric) ==> Century(e.date) == Century(from)
    ensures var d := DaySeries(from, limit)[i];
      Added(e, DayHashes(id, from, limit), DailyName(metric, d)) == (if InPeriod(e, id, metric, Day(d)) then e.amt else 0)
  {
    var end := Plus(from, Days(limit));
    var r := Ranges.DailyDateRange(from, Days(limit));
    var keys := DayHashes(id, from, limit);
    var d := DaySeries(from, limit)[i];
    var f := DailyName(metric, d);
    if !e.Metric? {
      AddedNone(e, keys, f);
    } else if !Tracks(e, id, metric) {
      ForeignDaily(e, id, metric, r, d);
    } else {
      OrdinalMonthIndex(from, d);
      OrdinalMonthIndex(d, end);
      CenturyBetween(from, d, end);
      DailyNameInCentury(metric, d, e.metric, e.date);
      forall h | 0 <= h < |keys|
        ensures Touches(e, keys[h], f) <==> InPeriod(e, id, metric, Day(d)) && MonthIndex(r[h]) == MonthIndex(d)
      {
        YearBetween(from, r[h], end);
        CenturyBetween(from, r[h], end);
        DailyKeyNotWeeklyKey(id, r[h], e.id, e.date);
        DailyKeyInCentury(id, r[h], e.id, e.date);
      }
      if InPeriod(e, id, metric, Day(d)) {
        AddedOnce(e, keys, f, MonthIndex(d) - MonthIndex(from));
      } else {
        AddedNone(e, keys, f);
      }
    }
  }

  /** Within one century, the one counter of a week query's `i`-th Monday that
      an event can write is that week's, in the hash of the event's own year,
      and only when the event falls in that week. */
  lemma WeekAdded(e: Event, id: string, metric: string, from: Date, limit: nat, i: nat)
    requires i < limit
    requires Century(ClosestWeek(from)) == Century(Plus(ClosestWeek(from), Days(7 * limit)))
    requires Tracks(e, id, metric) ==>
      Century(e.date) == Century(ClosestWeek(from)) && Century(ClosestWeek(e.date)) == Century(ClosestWeek(from))
    ensures var m := WeekSeries(ClosestWeek(from), limit)[i];
      Added(e, WeekHashes(id, from, limit), WeeklyName(metric, m)) == (if InPeriod(e, id, metric, Week(m)) then e.amt else 0)
  {
    var monday := ClosestWeek(from);
    var end := Plus(monday, Days(7 * limit));
    var r := Ranges.WeeklyDateRange(monday, Days(7 * limit));
    var keys := WeekHashes(id, from, limit);
    var m := WeekSeries(monday, limit)[i];
    var f := WeeklyName(metric, m);
    if !e.Metric? {
      AddedNone(e, keys, f);
    } else if !Tracks(e, id, metric) {
      ForeignWeekly(e, id, metric, r, m);
    } else {
      OrdinalMonthIndex(monday, m);
      OrdinalMonthIndex(m, end);
      CenturyBetween(monday, m, end);
      WeeklyNameInCentury(metric, m, e.metric, ClosestWeek(e.date));
      WeeklyNameNotMonthlyName(metric, m, e.metric, e.date);
      forall h | 0 <= h < |keys|
        ensures Touches(e, keys[h], f) <==> InPeriod(e, id, metric, Week(m)) && r[h].year == e.date.year
      {
        CenturyBetween(monday, r[h], end);
        DailyKeyNotWeeklyKey(e.id, e.date, id, r[h]);
        WeeklyKeyInCentury(id, r[h], e.id, e.date);
      }
      if InPeriod(e, id, metric, Week(m)) {
        OrdinalMonthIndex(monday, e.date);
        OrdinalMonthIndex(e.date, end);
        AddedOnce(e, keys, f, e.date.year - monday.year);
      } else {
        AddedNone(e, keys, f);
      }
    }
  }

  /** Within one century, the one counter of a month query's `i`-th month that
      an event can write is that month's, and only when the event falls in it. */
  lemma MonthAdded(e: Event, id: string, metric: string, from: Date, limit: nat, i: nat)
    requires i < limit
    requires Century(from) == Century(Plus(FirstOfMonth(from), Months(limit)))
    requires Tracks(e, id, metric) ==> Century(e.date) == Century(from)
    ensures var p := MonthSeries(FirstOfMonth(from), limit)[i];
      Added(e, MonthHashes(id, from, limit), MonthlyName(metric, p)) == (if InPeriod(e, id, metric, Month(p)) then e.amt else 0)
  {
    var first := FirstOfMonth(from);
    var end := Plus(first, Months(limit));
    var r := Ranges.WeeklyDateRange(first, Months(limit));
    var keys := MonthHashes(id, from, limit);
    var p := MonthSeries(first, limit)[i];
    var f := MonthlyName(metric, p);
    if !e.Metric? {
      AddedNone(e, keys, f);
    } else if !Tracks(e, id, metric) {
      ForeignMonthly(e, id, metric, r, p);
    } else {
      YearBetween(first, p, end);
      CenturyBetween(first, p, end);
      MonthlyNameInCentury(metric, p, e.metric, e.date);
      WeeklyNameNotMonthlyName(e.metric, ClosestWeek(e.date), metric, p);
      forall h | 0 <= h < |keys|
        ensures Touches(e, keys[h], f) <==> InPeriod(e, id, metric, Month(p)) && r[h].year == e.date.year
      {
        CenturyBetween(first, r[h], end);
        DailyKeyNotWeeklyKey(e.id, e.date, id, r[h]);
        WeeklyKeyInCentury(id, r[h], e.id, e.date);
      }
      if InPeriod(e, id, metric, Month(p)) {
        AddedOnce(e, keys, f, e.date.year - first.year);
      } else {
        AddedNone(e, keys, f);
      }
    }
  }

  /** Every event tracking the subject's metric falls in century `c`. */
  predicate DatedIn(events: seq<Event>, id: string, metric: string, c: int) {
    forall j :: 0 <= j < |events| && Tracks(events[j], id, metric) ==> Century(events[j].date) == c
  }

  /** Every event tracking the subject's metric, and the Monday of its week, falls in century `c`. */
  predicate WeeksIn(events: seq<Event>, id: string, metric: string, c: int) {
    forall j :: 0 <= j < |events| && Tracks(events[j], id, metric) ==>
      Century(events[j].date) == c && Century(ClosestWeek(events[j].date)) == c
  }

  /** If every event adds to a field, summed over some hashes, exactly its
      amount when it falls in the period and nothing otherwise, then replaying
      the events adds what was tracked in the period. */
  lemma {:induction false} ReplaySlots(s: Store, events: seq<Event>, keys: seq<string>, field: string,
                                       id: string, metric: string, p: Period)
    requires forall j :: 0 <= j < |events| ==>
      Added(events[j], keys, field) == (if InPeriod(events[j], id, metric, p) then events[j].amt else 0)
    ensures SlotSum(Replay(s, events), keys, field) == SlotSum(s, keys, field) + Tracked(events, id, metric, p)
    decreases |events|
  {
    if |events| > 0 {
      var n := |events| - 1;
      ReplaySlots(s, events[..n], keys, field, id, metric, p);
      SlotSumAfterApply(Replay(s, events[..n]), events[n], keys, field);
    }
  }

  /** Read after write by day: within one century, each day of the series
      reads what it read before plus everything tracked on that day. */
  lemma DayReadAfterWrite(s: Store, events: seq<Event>, id: string, metric: string, from: Date, limit: nat, i: nat)
    requires i < limit
    requires Century(from) == Century(Plus(from, Days(limit)))
    requires DatedIn(events, id, metric, Century(from))
    ensures var d := DaySeries(from, limit)[i];
      GetMetricByDay(Replay(s, events), id, metric, from, limit).value.values[LongDay(d)]
        == GetMetricByDay(s, id, metric, from, limit).value.values[LongDay(d)] + Tracked(events, id, metric, Day(d))
  {
    var d := DaySeries(from, limit)[i];
    forall j | 0 <= j < |events|
      ensures Added(events[j], DayHashes(id, from, limit), DailyName(metric, d))
           == (if InPeriod(events[j], id, metric, Day(d)) then events[j].amt else 0)
    {
      DayAdded(events[j], id, metric, from, limit, i);
    }
    ReplaySlots(s, events, DayHashes(id, from, limit), DailyName(metric, d), id, metric, Day(d));
  }

  /** Read after write by week, across year boundaries: a week whose days span
      two years is summed over both years' hashes. */
  lemma WeekReadAfterWrite(s: Store, events: seq<Event>, id: string, metric: string, from: Date, limit: nat, i: nat)
    requires i < limit
    requires Century(ClosestWeek(from)) == Century(Plus(ClosestWeek(from), Days(7 * limit)))
    requires WeeksIn(events, id, metric, Century(ClosestWeek(from)))
    ensures var m := WeekSeries(ClosestWeek(from), limit)[i];
      GetMetricByWeek(Replay(s, events), id, metric, from, limit).value.values[LongDay(m)]
        == GetMetricByWeek(s, id, metric, from, limit).value.values[LongDay(m)] + Tracked(events, id, metric, Week(m))
  {
    var m := WeekSeries(ClosestWeek(from), limit)[i];
    forall j | 0 <= j < |events|
      ensures Added(events[j], WeekHashes(id, from, limit), WeeklyName(metric, m))
           == (if InPeriod(events[j], id, metric, Week(m)) then events[j].amt else 0)
    {
      WeekAdded(events[j], id, metric, from, limit, i);
    }
    ReplaySlots(s, events, WeekHashes(id, from, limit), WeeklyName(metric, m), id, metric, Week(m));
  }

  /** Read after write by month. */
  lemma MonthReadAfterWrite(s: Store, events: seq<Event>, id: string, metric: string, from: Date, limit: nat, i: nat)
    requires i < limit
    requires Century(from) == Century(Plus(FirstOfMonth(from), Months(limit)))
    requires DatedIn(events, id, metric, Century(from))
    ensures var p := MonthSeries(FirstOfMonth(from), limit)[i];
      GetMetricByMonth(Replay(s, events), id, metric, from, limit).value.values[LongDay(p)]
        == GetMetricByMonth(s, id, metric, from, limit).value.values[LongDay(p)] + Tracked(events, id, metric, Month(p))
  {
    var p := MonthSeries(FirstOfMonth(from), limit)[i];
    forall j | 0 <= j < |events|
      ensures Added(events[j], MonthHashes(id, from, limit), MonthlyName(metric, p))
           == (if InPeriod(events[j], id, metric, Month(p)) then events[j].amt else 0)
    {
      MonthAdded(events[j], id, metric, from, limit, i);
    }
    ReplaySlots(s, events, MonthHashes(id, from, limit), MonthlyName(metric, p), id, metric, Month(p));
  }

  /** Nothing is stored in an empty store. */
  lemma {:induction false} SlotSumEmpty(keys: seq<string>, field: string)
    ensures SlotSum(Empty, keys, field) == 0
    decreases |keys|
  {
    if |keys| > 0 {
      SlotSumEmpty(keys[..|keys| - 1], field);
    }
  }

  /** Zero fill: on a store where nothing was tracked, every period of every
      query is present and reads zero. */
  lemma EmptyReadsZero(g: Granularity, id: string, metric: string, from: Date, limit: nat)
    ensures GetMetricBy(g, Empty, id, metric, from, limit).Failure? <==> limit == 0
    ensures limit > 0 ==> var a := GetMetricBy(g, Empty, id, metric, from, limit).value;
      |a.series| == limit && |a.values| == limit &&
      forall i :: 0 <= i < limit ==> a.values[LongDay(a.series[i])] == 0
  {
    if limit == 0 {
      return;
    }
    var a := GetMetricBy(g, Empty, id, metric, from, limit).value;
    forall i | 0 <= i < limit
      ensures a.values[LongDay(a.series[i])] == 0
    {
      match g
      case ByDay => SlotSumEmpty(DayHashes(id, from, limit), DailyName(metric, a.series[i]));
      case ByWeek => SlotSumEmpty(WeekHashes(id, from, limit), WeeklyName(metric, a.series[i]));
      case ByMonth => SlotSumEmpty(MonthHashes(id, from, limit), MonthlyName(metric, a.series[i]));
    }
  }

  /** Read after write for the undated total. The total is shared by every
      (subject, metric) pair with the same aggregate key (see
      `Keys.AggregateKeyAmbiguous`). */
  lemma {:induction false} CountReadAfterWrite(s: Store, events: seq<Event>, id: string, metric: string)
    ensures GetCount(Replay(s, events), id, metric) == GetCount(s, id, metric) + CountTracked(events, AggregateKey(id, metric))
    decreases |events|
  {
    if |events| > 0 {
      CountReadAfterWrite(s, events[..|events| - 1], id, metric);
    }
  }

  /** Any two calls commute: the store does not depend on their order. */
  lemma ApplyCommute(s: Store, e1: Event, e2: Event)
    ensures Apply(Apply(s, e1), e2) == Apply(Apply(s, e2), e1)
  {
    var m1, m2 := Apply(s, e1), Apply(s, e2);
    EffectsCommute(s, m1, Apply(m1, e2), m2, Apply(m2, e1), e1, e2);
  }

  /** Two effects applied in either order reach the same store. */
  lemma EffectsCommute(s: Store, m1: Store, l: Store, m2: Store, r: Store, e1: Event, e2: Event)
    requires Effect(s, m1, e1) && Effect(m1, l, e2)
    requires Effect(s, m2, e2) && Effect(m2, r, e1)
    ensures l == r
  {
    forall k
      ensures HashAt(l, k).Keys == HashAt(r, k).Keys
    {
      UnionSwap(HashAt(s, k).Keys, FieldsOf(e1, k), FieldsOf(e2, k));
    }
    StoreExtensional(l, r);
  }

  /** Tracking `a` then `b` on the same slots is tracking `a + b` once. */
  lemma TrackMetricAdd(s: Store, id: string, metric: string, date: Date, a: int, b: int)
    ensures Apply(Apply(s, Metric(id, metric, date, a)), Metric(id, metric, date, b)) == Apply(s, Metric(id, metric, date, a + b))
  {
    var m := Apply(s, Metric(id, metric, date, a));
    EffectsAdd(s, m, Apply(m, Metric(id, metric, date, b)), Apply(s, Metric(id, metric, date, a + b)), id, metric, date, a, b);
  }

  lemma EffectsAdd(s: Store, m: Store, l: Store, r: Store, id: string, metric: string, date: Date, a: int, b: int)
    requires Effect(s, m, Metric(id, metric, date, a)) && Effect(m, l, Metric(id, metric, date, b))
    requires Effect(s, r, Metric(id, metric, date, a + b))
    ensures l == r
  {
    StoreExtensional(l, r);
  }

  lemma {:induction false} ReplayAppend(s: Store, a: seq<Event>, b: seq<Event>)
    ensures Replay(s, a + b) == Replay(Replay(s, a), b)
    decreases |b|
  {
    if |b| == 0 {
      assert a + b == a;
    } else {
      var n := |b| - 1;
      assert (a + b)[..|a + b| - 1] == a + b[..n];
      ReplayAppend(s, a, b[..n]);
    }
  }

  /** Swapping two neighbouring calls leaves the final store unchanged. */
  lemma ReplaySwap(s: Store, events: seq<Event>, j: nat)
    requires j + 1 < |events|
    ensures Replay(s, events) == Replay(s, events[j := events[j + 1]][j + 1 := events[j]])
  {
    var a, x, y, b := events[..j], events[j], events[j + 1], events[j + 2..];
    var swapped := events[j := events[j + 1]][j + 1 := events[j]];
    assert events == (a + [x, y]) + b;
    assert swapped == (a + [y, x]) + b;
    ReplayAppend(s, a + [x, y], b);
    ReplayAppend(s, a + [y, x], b);
    ReplayAppend(s, a, [x, y]);
    ReplayAppend(s, a, [y, x]);
    ReplayPair(Replay(s, a), x, y);
    ReplayPair(Replay(s, a), y, x);
    ApplyCommute(Replay(s, a), x, y);
  }

  lemma ReplayPair(s: Store, x: Event, y: Event)
    ensures Replay(s, [x, y]) == Apply(Apply(s, x), y)
  {
    var p := [x, y];
    assert p[..1] == [x];
    assert Replay(s, [x]) == Apply(s, x) by {
      assert [x][..0] == [];
    }
    assert Replay(s, p) == Apply(Replay(s, [x]), y);
  }

  lemma UnionSwap<T>(a: set<T>, b: set<T>, c: set<T>)
    ensures a + b + c == a + c + b
  {
  }

  /** HMGET reads only hashes. */
  lemma {:induction false} SameHashesSameReplies(s1: Store, s2: Store, keys: seq<string>, fields: seq<string>)
    requires s1.hashes == s2.hashes
    ensures HMGetEach(s1, keys, fields) == HMGetEach(s2, keys, fields)
    decreases |keys|
  {
    if |keys| > 0 {
      SameHashesSameReplies(s1, s2, keys[..|keys| - 1], fields);
      assert HMGet(s1, keys[|keys| - 1], fields) == HMGet(s2, keys[|keys| - 1], fields);
    }
  }

  /** A total tracked with `track_count` never shows up in a time series: every
      query reads the same before and after. */
  lemma TrackCountNotQueryable(s: Store, id: string, metric: string, amt: int,
                               g: Granularity, qid: string, qmetric: string, from: Date, limit: nat)
    ensures GetMetricBy(g, TrackCount(s, id, metric, amt).0, qid, qmetric, from, limit)
         == GetMetricBy(g, s, qid, qmetric, from, limit)
  {
    var t := TrackCount(s, id, metric, amt).0;
    match g
    case ByDay =>
      var series := DaySeries(from, limit);
      SameHashesSameReplies(t, s, DayHashes(qid, from, limit), DailyNames(qmetric, series));
    case ByWeek =>
      var series := WeekSeries(ClosestWeek(from), limit);
      SameHashesSameReplies(t, s, WeekHashes(qid, from, limit), WeeklyNames(qmetric, series));
    case ByMonth =>
      var series := MonthSeries(FirstOfMonth(from), limit);
      SameHashesSameReplies(t, s, MonthHashes(qid, from, limit), MonthlyNames(qmetric, series));
  }

  // Days add up to their month.

  /** The values a merged answer holds for some dates, added up (a date
      missing from the answer counts as 0). */
  function ValuesTotal(values: map<string, int>, days: seq<Date>): int {
    if |days| == 0 then 0
    else
      var d := days[|days| - 1];
      ValuesTotal(values, days[..|days| - 1]) + (if LongDay(d) in values then values[LongDay(d)] else 0)
  }

  /** The amounts tracked for a subject's metric on each of some days, added up. */
  function DaysTracked(events: seq<Event>, id: string, metric: string, days: seq<Date>): int {
    if |days| == 0 then 0
    else DaysTracked(events, id, metric, days[..|days| - 1]) + Tracked(events, id, metric, Day(days[|days| - 1]))
  }

  /** What one event adds to the days of a list: its amount once for each
      listed day it falls on. */
  function DaysHit(e: Event, id: string, metric: string, days: seq<Date>): int {
    if |days| == 0 then 0
    else DaysHit(e, id, metric, days[..|days| - 1]) + (if InPeriod(e, id, metric, Day(days[|days| - 1])) then e.amt else 0)
  }

  /** Cross-granularity consistency: on a store built by tracking from empty,
      the daily series over the days of one month adds up to that month's
      entry in the monthly series. The events of the pair must fall in the
      month's century, and the month must not be December of a year ending
      in 99 (the day and month queries then read the next century's hashes). */
  lemma DaysSumToMonth(events: seq<Event>, id: string, metric: string, first: Date)
    requires first.day == 1
    requires first.month < 12 || first.year % 100 != 99
    requires DatedIn(events, id, metric, Century(first))
    ensures var t := Replay(Empty, events);
      var n := DaysInMonth(first.year, first.month);
      var monthValues := GetMetricByMonth(t, id, metric, first, 1).value.values;
      && LongDay(first) in monthValues
      && ValuesTotal(GetMetricByDay(t, id, metric, first, n).value.values, DaySeries(first, n)) == monthValues[LongDay(first)]
  {
    var n := DaysInMonth(first.year, first.month);
    DayTotal(events, id, metric, first);
    MonthTotal(events, id, metric, first);
    MonthDays(first, n, DaySeries(first, n));
    DaysOfMonth(events, id, metric, DaySeries(first, n), first);
  }

  /** The daily series over a month, replayed from empty, adds up to the
      amounts tracked on its days. */
  lemma DayTotal(events: seq<Event>, id: string, metric: string, first: Date)
    requires first.day == 1
    requires first.month < 12 || first.year % 100 != 99
    requires DatedIn(events, id, metric, Century(first))
    ensures var n := DaysInMonth(first.year, first.month);
      ValuesTotal(GetMetricByDay(Replay(Empty, events), id, metric, first, n).value.values, DaySeries(first, n))
        == DaysTracked(events, id, metric, DaySeries(first, n))
  {
    var n := DaysInMonth(first.year, first.month);
    var days := DaySeries(first, n);
    var t := Replay(Empty, events);
    var values := GetMetricByDay(t, id, metric, first, n).value.values;
    forall i | 0 <= i < n
      ensures LongDay(days[i]) in values && values[LongDay(days[i])] == Tracked(events, id, metric, Day(days[i]))
    {
      assert Names(days)[i] in Elements(Names(days));
      DayEntry(events, id, metric, first, i);
    }
    TotalIsTracked(values, events, id, metric, days);
  }

  /** The counter of one day of the month, summed over the hashes the day
      query reads, holds after replaying from empty what was tracked on it. */
  lemma DayEntry(events: seq<Event>, id: string, metric: string, first: Date, i: nat)
    requires first.day == 1
    requires first.month < 12 || first.year % 100 != 99
    requires DatedIn(events, id, metric, Century(first))
    requires i < DaysInMonth(first.year, first.month)
    ensures var n := DaysInMonth(first.year, first.month);
      var d := DaySeries(first, n)[i];
      SlotSum(Replay(Empty, events), DayHashes(id, first, n), DailyName(metric, d)) == Tracked(events, id, metric, Day(d))
  {
    var n := DaysInMonth(first.year, first.month);
    var d := DaySeries(first, n)[i];
    MonthSpanInCentury(first);
    forall j | 0 <= j < |events|
      ensures Added(events[j], DayHashes(id, first, n), DailyName(metric, d))
           == (if InPeriod(events[j], id, metric, Day(d)) then events[j].amt else 0)
    {
      DayAdded(events[j], id, metric, first, n, i);
    }
    ReplaySlots(Empty, events, DayHashes(id, first, n), DailyName(metric, d), id, metric, Day(d));
    SlotSumEmpty(DayHashes(id, first, n), DailyName(metric, d));
  }

  /** The monthly series' entry for a month, replayed from empty, is the
      amount tracked in that month. */
  lemma MonthTotal(events: seq<Event>, id: string, metric: string, first: Date)
    requires first.day == 1
    requires first.month < 12 || first.year % 100 != 99
    requires DatedIn(events, id, metric, Century(first))
    ensures var values := GetMetricByMonth(Replay(Empty, events), id, metric, first, 1).value.values;
      LongDay(first) in values && values[LongDay(first)] == Tracked(events, id, metric, Month(first))
  {
    MonthSpanInCentury(first);
    var p := MonthSeries(FirstOfMonth(first), 1)[0];
    MonthIndexDay(p, first);
    MonthReadAfterWrite(Empty, events, id, metric, first, 1, 0);
    SlotSumEmpty(MonthHashes(id, first, 1), MonthlyName(metric, p));
  }

  /** The day query and the month query over one month end in its century. */
  lemma MonthSpanInCentury(first: Date)
    requires first.day == 1
    requires first.month < 12 || first.year % 100 != 99
    ensures Century(first) == Century(Plus(first, Days(DaysInMonth(first.year, first.month))))
    ensures Century(first) == Century(Plus(FirstOfMonth(first), Months(1)))
  {
    NextMonthStart(first, DaysInMonth(first.year, first.month));
    NextMonthInCentury(first, MonthStart(MonthIndex(first) + 1));
    NextMonthInCentury(first, Plus(FirstOfMonth(first), Months(1)));
  }

  /** The month after `first` lies in `first`'s century unless `first` is
      December of a year ending in 99. */
  lemma NextMonthInCentury(first: Date, x: Date)
    requires first.month < 12 || first.year % 100 != 99
    requires MonthIndex(x) == MonthIndex(first) + 1
    ensures Century(x) == Century(first)
  {
    if first.month == 12 {
      assert x.year == first.year + 1;
      var y := first.year;
      assert y == 100 * (y / 100) + y % 100;
      assert y + 1 == 100 * (y / 100) + (y % 100 + 1);
    } else {
      assert x.year == first.year;
    }
  }

  /** The days of the series from the first of a month, as long as the month,
      are exactly the days of that month. */
  lemma MonthDays(first: Date, n: nat, days: seq<Date>)
    requires first.day == 1 && n == DaysInMonth(first.year, first.month)
    requires days == DaySeries(first, n)
    ensures forall d: Date :: d in days <==> MonthIndex(d) == MonthIndex(first)
  {
    var next := MonthStart(MonthIndex(first) + 1);
    OrdinalOfNextMonth(first, next);
    forall d: Date
      ensures d in days <==> MonthIndex(d) == MonthIndex(first)
    {
      if d in days {
        var i :| 0 <= i < n && days[i] == d;
        OrdinalMonthIndex(first, d);
        OrdinalOrder(d, next);
      }
      if MonthIndex(d) == MonthIndex(first) {
        assert d.year == first.year && d.month == first.month;
        var i := d.day - 1;
        OrdinalInjective(days[i], d);
      }
    }
  }

  /** The daily values of an answer that reads each day's tracked amount add
      up to the tracked amounts. */
  lemma {:induction false} TotalIsTracked(values: map<string, int>, events: seq<Event>, id: string, metric: string, days: seq<Date>)
    requires forall i :: 0 <= i < |days| ==>
      LongDay(days[i]) in values && values[LongDay(days[i])] == Tracked(events, id, metric, Day(days[i]))
    ensures ValuesTotal(values, days) == DaysTracked(events, id, metric, days)
    decreases |days|
  {
    if |days| > 0 {
      TotalIsTracked(values, events, id, metric, days[..|days| - 1]);
    }
  }

  /** Summed over distinct days covering exactly one month, the amounts
      tracked per day are the amount tracked in the month. */
  lemma {:induction false} DaysOfMonth(events: seq<Event>, id: string, metric: string, days: seq<Date>, first: Date)
    requires Distinct(days)
    requires forall d: Date :: d in days <==> MonthIndex(d) == MonthIndex(first)
    ensures DaysTracked(events, id, metric, days) == Tracked(events, id, metric, Month(first))
    decreases |events|
  {
    if |events| == 0 {
      DaysTrackedNone(events, id, metric, days);
    } else {
      var n := |events| - 1;
      var e := events[n];
      DaysOfMonth(events[..n], id, metric, days, first);
      DaysTrackedSplit(events, id, metric, days);
      if e.Metric? {
        DaysHitOnce(e, id, metric, days);
      } else {
        DaysHitNone(e, id, metric, days);
      }
    }
  }

  /** With no events, nothing is tracked on any day. */
  lemma {:induction false} DaysTrackedNone(events: seq<Event>, id: string, metric: string, days: seq<Date>)
    requires |events| == 0
    ensures DaysTracked(events, id, metric, days) == 0
    decreases |days|
  {
    if |days| > 0 {
      DaysTrackedNone(events, id, metric, days[..|days| - 1]);
    }
  }

  /** The per-day totals split into those of all events but the last, plus
      what the last adds. */
  lemma {:induction false} DaysTrackedSplit(events: seq<Event>, id: string, metric: string, days: seq<Date>)
    requires |events| > 0
    ensures var n := |events| - 1;
      DaysTracked(events, id, metric, days)
        == DaysTracked(events[..n], id, metric, days) + DaysHit(events[n], id, metric, days)
    decreases |days|
  {
    if |days| > 0 {
      DaysTrackedSplit(events, id, metric, days[..|days| - 1]);
    }
  }

  /** An event on no listed day adds nothing to the listed days. */
  lemma {:induction false} DaysHitNone(e: Event, id: string, metric: string, days: seq<Date>)
    requires e.Count? || !Tracks(e, id, metric) || e.date !in days
    ensures DaysHit(e, id, metric, days) == 0
    decreases |days|
  {
    if |days| > 0 {
      if e.Metric? && Tracks(e, id, metric) {
        assert e.date !in days[..|days| - 1];
      }
      DaysHitNone(e, id, metric, days[..|days| - 1]);
    }
  }

  /** Over distinct days, a `track_metric` event of the pair adds its amount
      once if it falls on one of them and nothing otherwise. */
  lemma {:induction false} DaysHitOnce(e: Event, id: string, metric: string, days: seq<Date>)
    requires e.Metric? && Distinct(days)
    ensures DaysHit(e, id, metric, days) == (if Tracks(e, id, metric) && e.date in days then e.amt else 0)
    decreases |days|
  {
    if |days| > 0 {
      var n := |days| - 1;
      assert Distinct(days[..n]);
      DaysHitOnce(e, id, metric, days[..n]);
      assert e.date in days <==> e.date in days[..n] || e.date == days[n];
      if e.date == days[n] {
        assert e.date !in days[..n];
      }
    }
  }
}
