/** The date-range planner: which coarse hashes a query has to read. */
module Ranges {
  import opened Calendar

  /** One step of the loop of `_get_daily_date_range`: forward by the days
      left in the month plus one, which is the first of the next month. */
  function ShiftToNextMonth(d: Date): (r: Date)
    ensures MonthIndex(r) == MonthIndex(d) + 1 && r.day == 1
  {
    var step := DaysInMonth(d.year, d.month) - d.day + 1;
    NextMonthStart(d, step);
    AddDays(d, step)
  }

  /** The loop guard of `_get_daily_date_range` compares months correctly as
      long as the walk has not passed the end month. */
  lemma LoopGuard(start: Date, end: Date)
    requires MonthIndex(start) <= MonthIndex(end)
    ensures (start.month < end.month || start.year < end.year) <==> MonthIndex(start) < MonthIndex(end)
  {
    if start.month < end.month || start.year < end.year {
      MonthsBefore(start, end);
    } else {
      MonthsNotBefore(start, end);
    }
  }

  lemma MonthsBefore(start: Date, end: Date)
    requires MonthIndex(start) <= MonthIndex(end)
    requires start.month < end.month || start.year < end.year
    ensures MonthIndex(start) < MonthIndex(end)
  {
  }

  lemma MonthsNotBefore(start: Date, end: Date)
    requires MonthIndex(start) <= MonthIndex(end)
    requires !(start.month < end.month || start.year < end.year)
    ensures MonthIndex(start) == MonthIndex(end)
  {
  }

  /** The loop of `_get_daily_date_range`: `start`, then the first of every
      later month up to the month of `end`. */
  function MonthWalk(start: Date, end: Date): (r: seq<Date>)
    requires MonthIndex(start) <= MonthIndex(end)
    ensures |r| == MonthIndex(end) - MonthIndex(start) + 1
    ensures r[0] == start
    ensures forall j :: 0 <= j < |r| ==> MonthIndex(r[j]) == MonthIndex(start) + j
    ensures forall j :: 1 <= j < |r| ==> r[j].day == 1
    decreases MonthIndex(end) - MonthIndex(start)
  {
    LoopGuard(start, end);
    if start.month < end.month || start.year < end.year then
      var rest := MonthWalk(ShiftToNextMonth(start), end);
      WalkStep(start, rest);
      [start] + rest
    else
      [start]
  }

  /** Prefixing the start to a walk from the next month keeps month indices consecutive. */
  lemma WalkStep(start: Date, rest: seq<Date>)
    requires |rest| >= 1
    requires forall j :: 0 <= j < |rest| ==> MonthIndex(rest[j]) == MonthIndex(start) + 1 + j
    requires forall j :: 0 <= j < |rest| ==> rest[j].day == 1
    ensures var r := [start] + rest;
      && (forall j :: 0 <= j < |r| ==> MonthIndex(r[j]) == MonthIndex(start) + j)
      && (forall j :: 1 <= j < |r| ==> r[j].day == 1)
  {
    assert forall j :: 1 <= j < |rest| + 1 ==> ([start] + rest)[j] == rest[j - 1];
  }

  /** `_get_daily_date_range(d, delta)`: one date per month hash to read, from
      the month of `d` through the month of `d + delta`. */
  function DailyDateRange(d: Date, delta: Delta): (r: seq<Date>)
    ensures |r| == MonthIndex(Plus(d, delta)) - MonthIndex(d) + 1
    ensures r[0] == d
    ensures forall j :: 0 <= j < |r| ==> MonthIndex(r[j]) == MonthIndex(d) + j
    ensures forall j :: 1 <= j < |r| ==> r[j].day == 1
    ensures MonthIndex(r[|r| - 1]) == MonthIndex(Plus(d, delta))
  {
    MonthWalk(d, Plus(d, delta))
  }

  /** `_get_weekly_date_range(d, delta)`: `d`, then the 1st of January of
      every later year up to the year of `d + delta`. */
  function WeeklyDateRange(d: Date, delta: Delta): (r: seq<Date>)
    ensures |r| == Plus(d, delta).year - d.year + 1
    ensures r[0] == d
    ensures forall j :: 0 <= j < |r| ==> r[j].year == d.year + j
    ensures forall j :: 1 <= j < |r| ==> r[j].month == 1 && r[j].day == 1
    ensures r[|r| - 1].year == Plus(d, delta).year
  {
    var spanning := Plus(d, delta).year - d.year;
    [d] + seq(spanning, i requires 0 <= i < spanning => Ymd(d.year + i + 1, 1, 1))
  }

  /** Every day from `d` through `d + delta` has its month among the daily
      range's months, exactly once. */
  lemma DailyRangeCovers(d: Date, delta: Delta, x: Date)
    requires ToOrdinal(d) <= ToOrdinal(x) <= ToOrdinal(Plus(d, delta))
    ensures var r := DailyDateRange(d, delta);
      exists j :: 0 <= j < |r| && MonthIndex(r[j]) == MonthIndex(x)
    ensures var r := DailyDateRange(d, delta);
      forall j, k :: 0 <= j < |r| && 0 <= k < |r| && MonthIndex(r[j]) == MonthIndex(x) == MonthIndex(r[k]) ==> j == k
  {
    var r := DailyDateRange(d, delta);
    OrdinalMonthIndex(d, x);
    OrdinalMonthIndex(x, Plus(d, delta));
    var j := MonthIndex(x) - MonthIndex(d);
    assert MonthIndex(r[j]) == MonthIndex(x);
  }

  /** Every day from `d` through `d + delta` has its year among the weekly
      range's years, exactly once. */
  lemma WeeklyRangeCovers(d: Date, delta: Delta, x: Date)
    requires ToOrdinal(d) <= ToOrdinal(x) <= ToOrdinal(Plus(d, delta))
    ensures var r := WeeklyDateRange(d, delta);
      exists j :: 0 <= j < |r| && r[j].year == x.year
    ensures var r := WeeklyDateRange(d, delta);
      forall j, k :: 0 <= j < |r| && 0 <= k < |r| && r[j].year == x.year == r[k].year ==> j == k
  {
    var r := WeeklyDateRange(d, delta);
    OrdinalMonthIndex(d, x);
    OrdinalMonthIndex(x, Plus(d, delta));
    var j := x.year - d.year;
    assert r[j].year == x.year;
  }

  /** The daily range of the test suite: 30 days from 2011-11-15 read two month hashes. */
  lemma DailyRangeThirtyDays(d: Date, n: nat, dec: Date)
    requires d == Ymd(2011, 11, 15) && n == 30 && dec == Ymd(2011, 12, 1)
    ensures DailyDateRange(d, Days(n)) == [d, dec]
  {
    DaysLater(d, n, Ymd(2011, 12, 15));
    TwoMonthStarts(d, Days(n), dec);
  }

  /** 65 days from 2011-11-15 cross a year and read three month hashes. */
  lemma DailyRangeSixtyFiveDays(d: Date, n: nat, dec: Date, jan: Date)
    requires d == Ymd(2011, 11, 15) && n == 65 && dec == Ymd(2011, 12, 1) && jan == Ymd(2012, 1, 1)
    ensures DailyDateRange(d, Days(n)) == [d, dec, jan]
  {
    DaysLater(d, n, Ymd(2012, 1, 19));
    ThreeMonthStarts(d, Days(n), dec, jan);
  }

  /** A daily range ending in the next month is the start and the 1st of that month. */
  lemma TwoMonthStarts(d: Date, delta: Delta, next: Date)
    requires MonthIndex(Plus(d, delta)) == MonthIndex(d) + 1
    requires MonthIndex(next) == MonthIndex(d) + 1 && next.day == 1
    ensures DailyDateRange(d, delta) == [d, next]
  {
    var r := DailyDateRange(d, delta);
    MonthIndexDay(r[1], next);
  }

  /** A daily range ending two months later is the start and the 1sts of the next two months. */
  lemma ThreeMonthStarts(d: Date, delta: Delta, next: Date, after: Date)
    requires MonthIndex(Plus(d, delta)) == MonthIndex(d) + 2
    requires MonthIndex(next) == MonthIndex(d) + 1 && next.day == 1
    requires MonthIndex(after) == MonthIndex(d) + 2 && after.day == 1
    ensures DailyDateRange(d, delta) == [d, next, after]
  {
    var r := DailyDateRange(d, delta);
    MonthIndexDay(r[1], next);
    MonthIndexDay(r[2], after);
  }

  /** `n` days after 2011-11-15 is `e`, for the two spans the test suite uses. */
  lemma DaysLater(d: Date, n: nat, e: Date)
    requires d == Ymd(2011, 11, 15)
    requires (n == 30 && e == Ymd(2011, 12, 15)) || (n == 65 && e == Ymd(2012, 1, 19))
    ensures Plus(d, Days(n)) == e
  {
    assert ToOrdinal(d) == 734456;
    if n == 30 {
      assert ToOrdinal(e) == 734486;
    } else {
      assert ToOrdinal(e) == 734521;
    }
    OrdinalInjective(Plus(d, Days(n)), e);
  }

  /** The weekly range of the test suite: twelve weeks from 2011-11-01 read two year hashes. */
  lemma WeeklyRangeTwelveWeeks(d: Date, weeks: nat)
    requires d == Ymd(2011, 11, 1) && weeks == 12
    ensures WeeklyDateRange(d, Days(7 * weeks)) == [d, Ymd(2012, 1, 1)]
  {
    assert ToOrdinal(d) == 734442;
    assert ToOrdinal(Ymd(2012, 1, 24)) == 734526;
    OrdinalInjective(Plus(d, Days(7 * weeks)), Ymd(2012, 1, 24));
  }
}
