/** Key-space encoding of the Redis backend: where each counter lives.
    Daily counters share one hash per (subject, `%y-%m`); weekly and monthly
    counters share one hash per (subject, `%y`), told apart by the shape of
    their field names; the undated total is a plain scalar. */
module Keys {
  import opened Calendar
  import opened Format

  /** The Monday on or before `d` (`_get_closest_week`). */
  function ClosestWeek(d: Date): (r: Date)
    ensures IsoWeekday(r) == 1
    ensures ToOrdinal(r) <= ToOrdinal(d) < ToOrdinal(r) + 7
    ensures IsoWeekday(d) == 1 ==> r == d
  {
    var n := ToOrdinal(d);
    var k := (n - 1) % 7;
    WeekdayShift(n, k);
    AddDays(d, -k)
  }

  /** The Monday on or before `d` is the only Monday among the seven days ending at `d`. */
  lemma ClosestWeekUnique(d: Date, m: Date)
    requires IsoWeekday(m) == 1
    ensures ClosestWeek(d) == m <==> ToOrdinal(m) <= ToOrdinal(d) < ToOrdinal(m) + 7
  {
    var c := ClosestWeek(d);
    if ToOrdinal(m) <= ToOrdinal(d) < ToOrdinal(m) + 7 {
      var x, y := ToOrdinal(c) - 1, ToOrdinal(m) - 1;
      assert x % 7 == 0 && y % 7 == 0 && -7 < x - y < 7;
      MultiplesOfSeven(x, y);
      OrdinalInjective(c, m);
    }
  }

  lemma MultiplesOfSeven(x: int, y: int)
    requires x % 7 == 0 && y % 7 == 0 && -7 < x - y < 7
    ensures x == y
  {
    assert x == 7 * (x / 7) && y == 7 * (y / 7);
  }

  /** Stepping back to the Monday never leaves the calendar, because its first day is a Monday. */
  lemma WeekdayShift(n: int, k: int)
    requires n >= FirstOrdinal && k == (n - 1) % 7
    ensures 0 <= k < 7 && n - k >= FirstOrdinal
    ensures (n - k - 1) % 7 == 0
  {
    assert (FirstOrdinal - 1) % 7 == 0;
    assert n - 1 == 7 * ((n - 1) / 7) + k;
  }

  /** Hash key of a subject's daily counters for the month of `d`: `user:<id>:analy:<yy-mm>`. */
  function DailyKey(id: string, d: Date): string {
    "user:" + id + ":analy:" + ShortMonth(d)
  }

  /** Hash key of a subject's weekly and monthly counters for the year of `d`: `user:<id>:analy:<yy>`. */
  function WeeklyKey(id: string, d: Date): string {
    "user:" + id + ":analy:" + ShortYear(d)
  }

  /** A field name: the metric, a colon and a date stamp. */
  function Field(metric: string, stamp: string): string {
    metric + ":" + stamp
  }

  /** Field of a daily counter: `<metric>:<yy-mm-dd>`. */
  function DailyName(metric: string, d: Date): string {
    Field(metric, ShortDay(d))
  }

  /** Field of a weekly counter, named by the week's Monday: `<metric>:<yy-mm-dd>`. */
  function WeeklyName(metric: string, monday: Date): string {
    Field(metric, ShortDay(monday))
  }

  /** Field of a monthly counter: `<metric>:<yy-mm>`. */
  function MonthlyName(metric: string, d: Date): string {
    Field(metric, ShortMonth(d))
  }

  /** Scalar key of the undated total: `analy:<id>:count:<metric>`. */
  function AggregateKey(id: string, metric: string): string {
    "analy:" + id + ":count:" + metric
  }

  /** A daily key names exactly one subject and one two-digit-year month. */
  lemma DailyKeyInjective(id1: string, a: Date, id2: string, b: Date)
    ensures DailyKey(id1, a) == DailyKey(id2, b) <==>
      id1 == id2 && a.year % 100 == b.year % 100 && a.month == b.month
  {
    if DailyKey(id1, a) == DailyKey(id2, b) {
      SplitTail("user:" + id1 + ":analy:", ShortMonth(a), "user:" + id2 + ":analy:", ShortMonth(b));
      SplitTail("user:" + id1, ":analy:", "user:" + id2, ":analy:");
      SplitHead("user:", id1, "user:", id2);
      ShortMonthInjective(a, b);
    } else if id1 == id2 && a.year % 100 == b.year % 100 && a.month == b.month {
      ShortMonthInjective(a, b);
    }
  }

  /** A weekly key names exactly one subject and one two-digit year. */
  lemma WeeklyKeyInjective(id1: string, a: Date, id2: string, b: Date)
    ensures WeeklyKey(id1, a) == WeeklyKey(id2, b) <==> id1 == id2 && a.year % 100 == b.year % 100
  {
    if WeeklyKey(id1, a) == WeeklyKey(id2, b) {
      SplitTail("user:" + id1 + ":analy:", ShortYear(a), "user:" + id2 + ":analy:", ShortYear(b));
      SplitTail("user:" + id1, ":analy:", "user:" + id2, ":analy:");
      SplitHead("user:", id1, "user:", id2);
      ShortYearInjective(a, b);
    } else if id1 == id2 && a.year % 100 == b.year % 100 {
      ShortYearInjective(a, b);
    }
  }

  /** No daily hash is ever a weekly hash, whatever the subjects: the third
      character from the end is '-' in one and ':' in the other. */
  lemma DailyKeyNotWeeklyKey(id1: string, a: Date, id2: string, b: Date)
    ensures DailyKey(id1, a) != WeeklyKey(id2, b)
  {
    var dk, wk := DailyKey(id1, a), WeeklyKey(id2, b);
    assert dk == ("user:" + id1 + ":analy:") + ShortMonth(a);
    assert dk[|dk| - 3] == ShortMonth(a)[2] == '-';
    assert wk == ("user:" + id2 + ":analy") + (":" + ShortYear(b));
    assert wk[|wk| - 3] == ':';
  }

  /** No hash key is an aggregate key: they start with different prefixes. */
  lemma HashKeyNotAggregateKey(id1: string, d: Date, id2: string, metric: string)
    ensures DailyKey(id1, d) != AggregateKey(id2, metric)
    ensures WeeklyKey(id1, d) != AggregateKey(id2, metric)
  {
    assert DailyKey(id1, d)[0] == 'u';
    assert WeeklyKey(id1, d)[0] == 'u';
    assert AggregateKey(id2, metric)[0] == 'a';
  }

  /** A daily (or weekly) field names exactly one metric and one two-digit-year day. */
  lemma DailyNameInjective(m1: string, a: Date, m2: string, b: Date)
    ensures DailyName(m1, a) == DailyName(m2, b) <==>
      m1 == m2 && a.year % 100 == b.year % 100 && a.month == b.month && a.day == b.day
  {
    if DailyName(m1, a) == DailyName(m2, b) {
      SplitTail(m1 + ":", ShortDay(a), m2 + ":", ShortDay(b));
      SplitTail(m1, ":", m2, ":");
    }
    ShortDayInjective(a, b);
  }

  /** A monthly field names exactly one metric and one two-digit-year month. */
  lemma MonthlyNameInjective(m1: string, a: Date, m2: string, b: Date)
    ensures MonthlyName(m1, a) == MonthlyName(m2, b) <==>
      m1 == m2 && a.year % 100 == b.year % 100 && a.month == b.month
  {
    if MonthlyName(m1, a) == MonthlyName(m2, b) {
      SplitTail(m1 + ":", ShortMonth(a), m2 + ":", ShortMonth(b));
      SplitTail(m1, ":", m2, ":");
    }
    ShortMonthInjective(a, b);
  }

  /** Weekly and monthly counters can share a hash: no weekly field name is a
      monthly field name, whatever the metrics (the sixth character from the end
      is '-' in one and ':' in the other). */
  lemma WeeklyNameNotMonthlyName(m1: string, a: Date, m2: string, b: Date)
    ensures WeeklyName(m1, a) != MonthlyName(m2, b)
  {
    var w, mo := WeeklyName(m1, a), MonthlyName(m2, b);
    assert w == (m1 + ":") + ShortDay(a);
    assert w[|w| - 6] == ShortDay(a)[2] == '-';
    assert mo == m2 + (":" + ShortMonth(b));
    assert mo[|mo| - 6] == ':';
  }

  /** Within one century a daily key names one subject and one month. */
  lemma DailyKeyInCentury(id1: string, a: Date, id2: string, b: Date)
    requires Century(a) == Century(b)
    ensures DailyKey(id1, a) == DailyKey(id2, b) <==> id1 == id2 && MonthIndex(a) == MonthIndex(b)
  {
    DailyKeyInjective(id1, a, id2, b);
    if a.year % 100 == b.year % 100 {
      YearInCentury(a, b);
    }
  }

  /** Within one century a weekly key names one subject and one year. */
  lemma WeeklyKeyInCentury(id1: string, a: Date, id2: string, b: Date)
    requires Century(a) == Century(b)
    ensures WeeklyKey(id1, a) == WeeklyKey(id2, b) <==> id1 == id2 && a.year == b.year
  {
    WeeklyKeyInjective(id1, a, id2, b);
    if a.year % 100 == b.year % 100 {
      YearInCentury(a, b);
    }
  }

  /** Within one century a daily or weekly field names one metric and one day. */
  lemma DailyNameInCentury(m1: string, a: Date, m2: string, b: Date)
    requires Century(a) == Century(b)
    ensures DailyName(m1, a) == DailyName(m2, b) <==> m1 == m2 && a == b
  {
    DailyNameInjective(m1, a, m2, b);
    if a.year % 100 == b.year % 100 {
      YearInCentury(a, b);
    }
  }

  /** Within one century a weekly field names one metric and one Monday. */
  lemma WeeklyNameInCentury(m1: string, a: Date, m2: string, b: Date)
    requires Century(a) == Century(b)
    ensures WeeklyName(m1, a) == WeeklyName(m2, b) <==> m1 == m2 && a == b
  {
    assert WeeklyName(m1, a) == DailyName(m1, a) && WeeklyName(m2, b) == DailyName(m2, b);
    DailyNameInCentury(m1, a, m2, b);
  }

  /** Within one century a monthly field names one metric and one month. */
  lemma MonthlyNameInCentury(m1: string, a: Date, m2: string, b: Date)
    requires Century(a) == Century(b)
    ensures MonthlyName(m1, a) == MonthlyName(m2, b) <==> m1 == m2 && MonthIndex(a) == MonthIndex(b)
  {
    MonthlyNameInjective(m1, a, m2, b);
    if a.year % 100 == b.year % 100 {
      YearInCentury(a, b);
    }
  }

  /** Two events on different days of different centuries land in the same
      daily counter when their two-digit years agree: `%y` drops the century. */
  lemma CenturyAliasing()
    ensures DailyKey("1", Ymd(1911, 12, 5)) == DailyKey("1", Ymd(2011, 12, 5))
    ensures DailyName("m", Ymd(1911, 12, 5)) == DailyName("m", Ymd(2011, 12, 5))
    ensures Ymd(1911, 12, 5) != Ymd(2011, 12, 5)
  {
    DailyKeyInjective("1", Ymd(1911, 12, 5), "1", Ymd(2011, 12, 5));
    DailyNameInjective("m", Ymd(1911, 12, 5), "m", Ymd(2011, 12, 5));
  }

  /** The aggregate key does not separate subject from metric: a colon in
      either lets two different pairs share one total. */
  lemma AggregateKeyAmbiguous()
    ensures AggregateKey("a:count:b", "c") == AggregateKey("a", "b:count:c")
  {
  }

  /** The closest Monday is found through ordinals alone. */
  lemma ClosestWeekByOrdinal(d: Date, monday: Date)
    requires ToOrdinal(monday) == ToOrdinal(d) - (ToOrdinal(d) - 1) % 7
    ensures ClosestWeek(d) == monday
  {
    OrdinalInjective(ClosestWeek(d), monday);
  }

  /** Examples from the test suite: a Sunday snaps back six days. */
  lemma ClosestWeekOfSunday(d: Date, m: Date)
    requires d == Ymd(2012, 4, 1) && m == Ymd(2012, 3, 26)
    ensures ClosestWeek(d) == m
  {
    assert ToOrdinal(m) == 734588;
    assert ToOrdinal(d) == 734594;
    ClosestWeekByOrdinal(d, m);
  }

  /** A Saturday snaps back five days. */
  lemma ClosestWeekOfSaturday(d: Date, m: Date)
    requires d == Ymd(2012, 4, 7) && m == Ymd(2012, 4, 2)
    ensures ClosestWeek(d) == m
  {
    assert ToOrdinal(m) == 734595;
    assert ToOrdinal(d) == 734600;
    ClosestWeekByOrdinal(d, m);
  }

  /** A Monday is its own week start. */
  lemma ClosestWeekOfMonday(d: Date)
    requires d == Ymd(2012, 4, 9)
    ensures ClosestWeek(d) == d
  {
    assert ToOrdinal(d) == 734602;
    assert IsoWeekday(d) == 1;
  }
}
