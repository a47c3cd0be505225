/** A worked scenario from the backend's test suite: a week that straddles New
    Year is counted from two yearly hashes and still reads the sum of its
    events. */
module Scenarios {
  import opened Calendar
  import opened Format
  import opened RedisStore
  import opened Keys
  import opened Backend
  import opened Consistency
  import opened Merge

  /** Six events of one subject's metric around New Year 2012 (the dates are
      parameters so that the solver does not evaluate the calendar on
      literals). */
  function NewYearEvents(d0: Date, d1: Date, d2: Date, d3: Date, d4: Date, d5: Date): seq<Event> {
    [ Metric("1234", "badge:25", d0, 2),
      Metric("1234", "badge:25", d1, 2),
      Metric("1234", "badge:25", d2, 2),
      Metric("1234", "badge:25", d3, 2),
      Metric("1234", "badge:25", d4, 3),
      Metric("1234", "badge:25", d5, 1) ]
  }

  /** The ordinals of the scenario's dates. */
  lemma NewYearOrdinals(d0: Date, d1: Date, d2: Date, d3: Date, d4: Date, d5: Date, m: Date)
    requires d0 == Ymd(2011, 12, 5) && d1 == Ymd(2011, 12, 8) && d2 == Ymd(2011, 12, 30)
    requires d3 == Ymd(2012, 1, 1) && d4 == Ymd(2012, 1, 5) && d5 == Ymd(2012, 4, 7)
    requires m == Ymd(2011, 12, 26)
    ensures ToOrdinal(d0) == 734476 && ToOrdinal(d1) == 734479 && ToOrdinal(d2) == 734501
    ensures ToOrdinal(d3) == 734503 && ToOrdinal(d4) == 734507 && ToOrdinal(d5) == 734600
    ensures ToOrdinal(m) == 734497
  {
  }

  /** Whether an event falls in the week of a Monday depends only on its ordinal. */
  lemma InWeekByOrdinal(e: Event, id: string, metric: string, m: Date)
    requires e.Metric? && e.id == id && e.metric == metric && IsoWeekday(m) == 1
    ensures InPeriod(e, id, metric, Week(m)) <==> ToOrdinal(m) <= ToOrdinal(e.date) < ToOrdinal(m) + 7
  {
    ClosestWeekUnique(e.date, m);
  }

  /** Only the events of 30 December and 1 January fall in the week of Monday
      26 December 2011, though they are stored under different years. */
  lemma NewYearWeekTracked(d0: Date, d1: Date, d2: Date, d3: Date, d4: Date, d5: Date, m: Date)
    requires d0 == Ymd(2011, 12, 5) && d1 == Ymd(2011, 12, 8) && d2 == Ymd(2011, 12, 30)
    requires d3 == Ymd(2012, 1, 1) && d4 == Ymd(2012, 1, 5) && d5 == Ymd(2012, 4, 7)
    requires m == Ymd(2011, 12, 26)
    ensures Tracked(NewYearEvents(d0, d1, d2, d3, d4, d5), "1234", "badge:25", Week(m)) == 4
  {
    var es := NewYearEvents(d0, d1, d2, d3, d4, d5);
    NewYearOrdinals(d0, d1, d2, d3, d4, d5, m);
    forall j | 0 <= j < 6
      ensures InPeriod(es[j], "1234", "badge:25", Week(m)) <==> ToOrdinal(m) <= ToOrdinal(es[j].date) < ToOrdinal(m) + 7
    {
      InWeekByOrdinal(es[j], "1234", "badge:25", m);
    }
    TrackedSix(es, "1234", "badge:25", Week(m));
  }

  /** Tracked over six events, spelled out. */
  lemma TrackedSix(es: seq<Event>, id: string, metric: string, p: Period)
    requires |es| == 6
    ensures Tracked(es, id, metric, p)
         == (if InPeriod(es[0], id, metric, p) then es[0].amt else 0)
          + (if InPeriod(es[1], id, metric, p) then es[1].amt else 0)
          + (if InPeriod(es[2], id, metric, p) then es[2].amt else 0)
          + (if InPeriod(es[3], id, metric, p) then es[3].amt else 0)
          + (if InPeriod(es[4], id, metric, p) then es[4].amt else 0)
          + (if InPeriod(es[5], id, metric, p) then es[5].amt else 0)
  {
    var v := seq(6, j requires 0 <= j < 6 => if InPeriod(es[j], id, metric, p) then es[j].amt else 0);
    assert es[..1][..0] == [];
    assert Tracked(es[..1], id, metric, p) == v[0];
    assert es[..2][..1] == es[..1];
    assert Tracked(es[..2], id, metric, p) == v[0] + v[1];
    assert es[..3][..2] == es[..2];
    assert Tracked(es[..3], id, metric, p) == v[0] + v[1] + v[2];
    assert es[..4][..3] == es[..3];
    assert Tracked(es[..4], id, metric, p) == v[0] + v[1] + v[2] + v[3];
    assert es[..5][..4] == es[..4];
    assert Tracked(es[..5], id, metric, p) == v[0] + v[1] + v[2] + v[3] + v[4];
    assert es[..5] == es[..|es| - 1];
  }

  /** The Monday of a date at least six days after `lo` lies between the year
      of `lo` and the date's own year. */
  lemma ClosestWeekYear(d: Date, lo: Date)
    requires ToOrdinal(lo) + 6 <= ToOrdinal(d)
    ensures lo.year <= ClosestWeek(d).year <= d.year
  {
    OrdinalMonthIndex(lo, ClosestWeek(d));
    OrdinalMonthIndex(ClosestWeek(d), d);
  }

  /** Events whose dates lie at least six days after `lo` and in years no
      later than `hi`, with `lo` and `hi` in one century, have their dates and
      Mondays in that century. */
  lemma WeeksBetween(es: seq<Event>, id: string, metric: string, lo: Date, hi: Date)
    requires Century(lo) == Century(hi)
    requires forall j :: 0 <= j < |es| && Tracks(es[j], id, metric) ==>
      ToOrdinal(lo) + 6 <= ToOrdinal(es[j].date) && es[j].date.year <= hi.year
    ensures WeeksIn(es, id, metric, Century(lo))
  {
    forall j | 0 <= j < |es| && Tracks(es[j], id, metric)
      ensures Century(es[j].date) == Century(lo) && Century(ClosestWeek(es[j].date)) == Century(lo)
    {
      var d := es[j].date;
      ClosestWeekYear(d, lo);
      CenturyBetween(lo, d, hi);
      CenturyBetween(lo, ClosestWeek(d), hi);
    }
  }

  /** The scenario's events and their Mondays all lie in the 21st century. */
  lemma NewYearWeeksIn(es: seq<Event>, id: string, metric: string, d0: Date, d1: Date, d2: Date, d3: Date, d4: Date, d5: Date)
    requires d0 == Ymd(2011, 12, 5) && d1 == Ymd(2011, 12, 8) && d2 == Ymd(2011, 12, 30)
    requires d3 == Ymd(2012, 1, 1) && d4 == Ymd(2012, 1, 5) && d5 == Ymd(2012, 4, 7)
    requires es == NewYearEvents(d0, d1, d2, d3, d4, d5)
    ensures WeeksIn(es, id, metric, 20)
  {
    var lo := Ymd(2011, 1, 1);
    assert ToOrdinal(lo) == 734138;
    NewYearOrdinals(d0, d1, d2, d3, d4, d5, Ymd(2011, 12, 26));
    WeeksBetween(es, id, metric, lo, Ymd(2012, 12, 31));
  }

  /** From an empty store, a week reads exactly what was tracked in it. */
  lemma WeekFromEmpty(events: seq<Event>, id: string, metric: string, from: Date, limit: nat, i: nat)
    requires i < limit
    requires Century(ClosestWeek(from)) == Century(Plus(ClosestWeek(from), Days(7 * limit)))
    requires WeeksIn(events, id, metric, Century(ClosestWeek(from)))
    ensures var m := WeekSeries(ClosestWeek(from), limit)[i];
      var a := GetMetricByWeek(Replay(Empty, events), id, metric, from, limit).value;
      LongDay(m) in a.values && a.values[LongDay(m)] == Tracked(events, id, metric, Week(m))
  {
    WeekKeyPresent(Replay(Empty, events), id, metric, from, limit, i);
    WeekEmptyZero(id, metric, from, limit, i);
    WeekReadAfterWrite(Empty, events, id, metric, from, limit, i);
  }

  lemma WeekKeyPresent(s: Store, id: string, metric: string, from: Date, limit: nat, i: nat)
    requires i < limit
    ensures LongDay(WeekSeries(ClosestWeek(from), limit)[i]) in GetMetricByWeek(s, id, metric, from, limit).value.values
  {
    var a := GetMetricByWeek(s, id, metric, from, limit).value;
    assert Names(a.series)[i] == LongDay(a.series[i]);
  }

  lemma WeekEmptyZero(id: string, metric: string, from: Date, limit: nat, i: nat)
    requires i < limit
    ensures GetMetricByWeek(Empty, id, metric, from, limit).value.values[LongDay(WeekSeries(ClosestWeek(from), limit)[i])] == 0
  {
    EmptyReadsZero(ByWeek, id, metric, from, limit);
  }

  /** The week test across New Year: reading six weeks from 1 December 2011
      after the six calls, the week of Monday 26 December holds 4, the sum of
      the calls of 30 December (stored in the 2011 hash) and 1 January (stored
      in the 2012 hash). */
  lemma NewYearWeek(es: seq<Event>, d0: Date, d1: Date, d2: Date, d3: Date, d4: Date, d5: Date,
                    m: Date, from: Date, limit: nat)
    requires d0 == Ymd(2011, 12, 5) && d1 == Ymd(2011, 12, 8) && d2 == Ymd(2011, 12, 30)
    requires d3 == Ymd(2012, 1, 1) && d4 == Ymd(2012, 1, 5) && d5 == Ymd(2012, 4, 7)
    requires es == NewYearEvents(d0, d1, d2, d3, d4, d5)
    requires m == Ymd(2011, 12, 26) && from == Ymd(2011, 12, 1) && limit == 6
    ensures var a := GetMetricByWeek(Replay(Empty, es), "1234", "badge:25", from, limit).value;
      LongDay(m) in a.values && a.values[LongDay(m)] == 4
  {
    NewYearSeries(from, limit, m);
    NewYearWeeksIn(es, "1234", "badge:25", d0, d1, d2, d3, d4, d5);
    NewYearWeekTracked(d0, d1, d2, d3, d4, d5, m);
    WeekReadsTracked(es, "1234", "badge:25", from, limit, 4, m, 4);
  }

  /** Six weeks from 1 December 2011 start on Monday 28 November, end in
      2012, and their fifth week is that of Monday 26 December. */
  lemma NewYearSeries(from: Date, limit: nat, m: Date)
    requires m == Ymd(2011, 12, 26) && from == Ymd(2011, 12, 1) && limit == 6
    ensures Century(ClosestWeek(from)) == 20 == Century(Plus(ClosestWeek(from), Days(7 * limit)))
    ensures WeekSeries(ClosestWeek(from), limit)[4] == m
  {
    var w := Ymd(2011, 11, 28);
    assert ToOrdinal(from) == 734472 && ToOrdinal(w) == 734469 && ToOrdinal(m) == 734497;
    ClosestWeekUnique(from, w);
    AddDaysByOrdinal(w, 42, Ymd(2012, 1, 9));
    OrdinalInjective(WeekSeries(w, limit)[4], m);
  }

  /** A week of the series reads its tracked total, once the week is known. */
  lemma WeekReadsTracked(events: seq<Event>, id: string, metric: string, from: Date, limit: nat, i: nat, m: Date, total: int)
    requires i < limit
    requires Century(ClosestWeek(from)) == Century(Plus(ClosestWeek(from), Days(7 * limit)))
    requires WeeksIn(events, id, metric, Century(ClosestWeek(from)))
    requires WeekSeries(ClosestWeek(from), limit)[i] == m && Tracked(events, id, metric, Week(m)) == total
    ensures var a := GetMetricByWeek(Replay(Empty, events), id, metric, from, limit).value;
      LongDay(m) in a.values && a.values[LongDay(m)] == total
  {
    WeekFromEmpty(events, id, metric, from, limit, i);
  }
}
