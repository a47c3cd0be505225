/** The slice of Python's `datetime`, `calendar` and `dateutil.relativedelta`
    that the backend relies on: proleptic Gregorian dates, their ordinal
    numbering (`date.toordinal`), ISO weekdays, day arithmetic
    (`date + timedelta`) and month arithmetic (`date + relativedelta(months=k)`). */
module Calendar {

  /** A year-month-day triple; `Date` below restricts it to real calendar days. */
  datatype Ymd = Ymd(year: int, month: int, day: int)

  /** `calendar.isleap`. */
  predicate IsLeap(y: int) {
    y % 4 == 0 && (y % 100 != 0 || y % 400 == 0)
  }

  function DaysInYear(y: int): int {
    if IsLeap(y) then 366 else 365
  }

  /** `calendar.monthrange(y, m)[1]`. */
  function DaysInMonth(y: int, m: int): int
    requires 1 <= m <= 12
  {
    if m == 2 then (if IsLeap(y) then 29 else 28)
    else if m == 4 || m == 6 || m == 9 || m == 11 then 30
    else 31
  }

  /** Python 2's `date.strftime` rejects years before 1900, and every key the
      backend builds goes through it, so dates start at 1900-01-01. */
  const MinYear := 1900

  /** `date(1900, 1, 1).toordinal()`, a Monday. */
  const FirstOrdinal := 693596

  predicate IsValid(d: Ymd) {
    && MinYear <= d.year
    && 1 <= d.month <= 12
    && 1 <= d.day <= DaysInMonth(d.year, d.month)
  }

  /** A Python `date` that `strftime` accepts (the upper bound MAXYEAR = 9999 is not imposed). */
  type Date = d: Ymd | IsValid(d) witness Ymd(MinYear, 1, 1)

  /** Days in the years 1 .. y-1. */
  function DaysBeforeYear(y: int): int
    requires y >= 1
  {
    var p := y - 1;
    365 * p + p / 4 - p / 100 + p / 400
  }

  /** Days in the months 1 .. m-1 of year y. */
  function DaysBeforeMonth(y: int, m: int): int
    requires 1 <= m <= 12
  {
    [0, 31, 59, 90, 120, 151, 181, 212, 243, 273, 304, 334][m - 1]
    + (if m > 2 && IsLeap(y) then 1 else 0)
  }

  /** `date.toordinal`: 0001-01-01 is day 1. */
  function ToOrdinal(d: Date): int {
    DaysBeforeYear(d.year) + DaysBeforeMonth(d.year, d.month) + d.day
  }

  /** 1900-01-01 is the first date, so every ordinal is at least FirstOrdinal. */
  lemma FirstDate(d: Date)
    ensures ToOrdinal(d) >= FirstOrdinal
    ensures ToOrdinal(d) == FirstOrdinal <==> d == Ymd(MinYear, 1, 1)
  {
    DaysBeforeYearFloor(d.year);
  }

  /** The years before MinYear hold FirstOrdinal - 1 days, and each later year adds a full year. */
  lemma DaysBeforeYearFloor(y: int)
    requires y >= MinYear
    ensures DaysBeforeYear(y) >= FirstOrdinal - 1
    ensures y > MinYear ==> DaysBeforeYear(y) >= FirstOrdinal - 1 + 365
  {
    assert DaysBeforeYear(MinYear) == FirstOrdinal - 1;
    if y > MinYear {
      DaysBeforeYearOrdered(MinYear, y);
    }
  }

  /** `date.isoweekday`: Monday is 1, Sunday is 7. */
  function IsoWeekday(d: Date): int {
    (ToOrdinal(d) - 1) % 7 + 1
  }

  /** Lexicographic (year, month, day) order. */
  predicate Before(a: Ymd, b: Ymd) {
    || a.year < b.year
    || (a.year == b.year && a.month < b.month)
    || (a.year == b.year && a.month == b.month && a.day < b.day)
  }

  /** Months counted from year 0, so that consecutive months differ by one. */
  function MonthIndex(d: Ymd): int {
    d.year * 12 + d.month - 1
  }

  function Century(d: Ymd): int {
    d.year / 100
  }

  /** A year between two years of one century lies in that century. */
  lemma CenturyBetween(a: Ymd, x: Ymd, b: Ymd)
    requires Century(a) == Century(b) && a.year <= x.year <= b.year
    ensures Century(x) == Century(a)
  {
  }

  /** Within one century the two-digit year determines the year. */
  lemma YearInCentury(a: Ymd, b: Ymd)
    requires Century(a) == Century(b) && a.year % 100 == b.year % 100
    ensures a.year == b.year
  {
  }

  lemma DaysBeforeYearStep(y: int)
    requires y >= 1
    ensures DaysBeforeYear(y + 1) == DaysBeforeYear(y) + DaysInYear(y)
  {
    var p := y - 1;
    var a, b, c := (if y % 4 == 0 then 1 else 0), (if y % 100 == 0 then 1 else 0), (if y % 400 == 0 then 1 else 0);
    QuotientSteps(y);
    LeapDivisors(y);
    assert DaysBeforeYear(y + 1) == DaysBeforeYear(y) + 365 + a - b + c;
  }

  /** The leap-rule quotients grow by one exactly at multiples of their divisors. */
  lemma QuotientSteps(y: int)
    ensures y / 4 == (y - 1) / 4 + (if y % 4 == 0 then 1 else 0)
    ensures y / 100 == (y - 1) / 100 + (if y % 100 == 0 then 1 else 0)
    ensures y / 400 == (y - 1) / 400 + (if y % 400 == 0 then 1 else 0)
  {
  }

  lemma LeapDivisors(y: int)
    ensures y % 400 == 0 ==> y % 100 == 0
    ensures y % 100 == 0 ==> y % 4 == 0
  {
    var q := y / 400;
    assert y == 400 * q + y % 400;
    assert y / 100 == 4 * q + (y % 400) / 100;
    var h := y / 100;
    assert y == 100 * h + y % 100;
    assert y / 4 == 25 * h + (y % 100) / 4;
  }

  lemma DaysBeforeMonthStep(y: int, m: int)
    requires 1 <= m < 12
    ensures DaysBeforeMonth(y, m + 1) == DaysBeforeMonth(y, m) + DaysInMonth(y, m)
  {
  }

  lemma DaysBeforeYearOrdered(y1: int, y2: int)
    requires 1 <= y1 < y2
    ensures DaysBeforeYear(y1) + DaysInYear(y1) <= DaysBeforeYear(y2)
    decreases y2 - y1
  {
    DaysBeforeYearStep(y1);
    if y1 + 1 < y2 {
      DaysBeforeYearOrdered(y1 + 1, y2);
    }
  }

  /** The ordinal of a date lies inside its year's block of ordinals. */
  lemma OrdinalWithinYear(d: Date)
    ensures DaysBeforeYear(d.year) < ToOrdinal(d) <= DaysBeforeYear(d.year) + DaysInYear(d.year)
  {
  }

  /** Ordinals follow calendar order. */
  lemma OrdinalMonotonic(a: Date, b: Date)
    requires Before(a, b)
    ensures ToOrdinal(a) < ToOrdinal(b)
  {
    if a.year < b.year {
      OrdinalWithinYear(a);
      OrdinalWithinYear(b);
      DaysBeforeYearOrdered(a.year, b.year);
    } else if a.month < b.month {
      assert DaysBeforeMonth(a.year, a.month) + DaysInMonth(a.year, a.month) <= DaysBeforeMonth(b.year, b.month);
    }
  }

  /** Distinct dates have distinct ordinals, and ordinals compare as dates do. */
  lemma OrdinalOrder(a: Date, b: Date)
    ensures ToOrdinal(a) == ToOrdinal(b) <==> a == b
    ensures ToOrdinal(a) < ToOrdinal(b) <==> Before(a, b)
  {
    if Before(a, b) {
      OrdinalMonotonic(a, b);
    } else if Before(b, a) {
      OrdinalMonotonic(b, a);
    }
  }

  lemma OrdinalInjective(a: Date, b: Date)
    requires ToOrdinal(a) == ToOrdinal(b)
    ensures a == b
  {
    OrdinalOrder(a, b);
  }

  /** A date no later than another is in the same or an earlier month. */
  lemma OrdinalMonthIndex(a: Date, b: Date)
    requires ToOrdinal(a) <= ToOrdinal(b)
    ensures MonthIndex(a) <= MonthIndex(b)
    ensures a.year <= b.year
  {
    OrdinalOrder(a, b);
  }

  function NextDay(d: Date): (r: Date)
    ensures ToOrdinal(r) == ToOrdinal(d) + 1
  {
    if d.day < DaysInMonth(d.year, d.month) then
      Ymd(d.year, d.month, d.day + 1)
    else if d.month < 12 then
      DaysBeforeMonthStep(d.year, d.month);
      Ymd(d.year, d.month + 1, 1)
    else
      DaysBeforeYearStep(d.year);
      Ymd(d.year + 1, 1, 1)
  }

  function PrevDay(d: Date): (r: Date)
    requires ToOrdinal(d) > FirstOrdinal
    ensures ToOrdinal(r) == ToOrdinal(d) - 1
  {
    if d.day > 1 then
      Ymd(d.year, d.month, d.day - 1)
    else if d.month > 1 then
      DaysBeforeMonthStep(d.year, d.month - 1);
      Ymd(d.year, d.month - 1, DaysInMonth(d.year, d.month - 1))
    else
      assert DaysBeforeYear(MinYear) == FirstOrdinal - 1;
      DaysBeforeYearStep(d.year - 1);
      Ymd(d.year - 1, 12, 31)
  }

  /** `d + timedelta(days=k)`; defined whenever the result is not before 1900-01-01. */
  function AddDays(d: Date, k: int): (r: Date)
    requires ToOrdinal(d) + k >= FirstOrdinal
    ensures ToOrdinal(r) == ToOrdinal(d) + k
    decreases if k < 0 then -k else k
  {
    if k == 0 then d
    else if k > 0 then AddDays(NextDay(d), k - 1)
    else AddDays(PrevDay(d), k + 1)
  }

  /** Adding days composes. */
  lemma AddDaysAdd(d: Date, a: int, b: int)
    requires ToOrdinal(d) + a >= FirstOrdinal && ToOrdinal(d) + a + b >= FirstOrdinal
    ensures AddDays(AddDays(d, a), b) == AddDays(d, a + b)
  {
    OrdinalInjective(AddDays(AddDays(d, a), b), AddDays(d, a + b));
  }

  function Min(a: int, b: int): int {
    if a <= b then a else b
  }

  /** `d + relativedelta(months=k)`: the same day k months on, clamped to the
      length of the target month. */
  function AddMonths(d: Date, k: nat): (r: Date)
    ensures MonthIndex(r) == MonthIndex(d) + k
    ensures r.day == Min(d.day, DaysInMonth(r.year, r.month))
  {
    var idx := MonthIndex(d) + k;
    Ymd(idx / 12, idx % 12 + 1, Min(d.day, DaysInMonth(idx / 12, idx % 12 + 1)))
  }

  /** `date(d.year, d.month, 1)`. */
  function FirstOfMonth(d: Date): (r: Date)
    ensures MonthIndex(r) == MonthIndex(d) && r.day == 1
  {
    Ymd(d.year, d.month, 1)
  }

  /** The first day of the month with the given index. */
  function MonthStart(idx: int): (r: Date)
    requires idx >= 12 * MinYear
    ensures MonthIndex(r) == idx && r.day == 1
  {
    Ymd(idx / 12, idx % 12 + 1, 1)
  }

  /** Dates are determined by their month index and day. */
  lemma MonthIndexDay(a: Ymd, b: Ymd)
    requires 1 <= a.month <= 12 && 1 <= b.month <= 12
    requires MonthIndex(a) == MonthIndex(b) && a.day == b.day
    ensures a == b
  {
  }

  /** A Python `timedelta(days=n)` or a `relativedelta(months=n)`. */
  datatype Delta = Days(days: nat) | Months(months: nat)

  /** `d + delta`: never earlier than `d`. */
  function Plus(d: Date, delta: Delta): (r: Date)
    ensures ToOrdinal(d) <= ToOrdinal(r)
    ensures MonthIndex(d) <= MonthIndex(r) && d.year <= r.year
  {
    match delta
    case Days(n) =>
      var r := AddDays(d, n);
      OrdinalMonthIndex(d, r);
      r
    case Months(n) =>
      var r := AddMonths(d, n);
      OrdinalOrder(d, r);
      r
  }

  /** Adding the rest of a month plus one day lands on the first of the next month. */
  lemma NextMonthStart(d: Date, k: int)
    requires k == DaysInMonth(d.year, d.month) - d.day + 1
    ensures AddDays(d, k) == MonthStart(MonthIndex(d) + 1)
  {
    var next := MonthStart(MonthIndex(d) + 1);
    OrdinalOfNextMonth(d, next);
    AddDaysByOrdinal(d, k, next);
  }

  /** The first of the following month is the rest of the month plus one day away. */
  lemma OrdinalOfNextMonth(d: Date, next: Date)
    requires next.day == 1 && MonthIndex(next) == MonthIndex(d) + 1
    ensures ToOrdinal(next) == ToOrdinal(d) + DaysInMonth(d.year, d.month) - d.day + 1
  {
    if d.month < 12 {
      assert next == Ymd(d.year, d.month + 1, 1);
      DaysBeforeMonthStep(d.year, d.month);
    } else {
      assert next == Ymd(d.year + 1, 1, 1);
      DaysBeforeYearStep(d.year);
    }
  }

  /** AddDays is pinned down by the ordinal it reaches. */
  lemma AddDaysByOrdinal(d: Date, k: int, x: Date)
    requires ToOrdinal(x) == ToOrdinal(d) + k
    ensures AddDays(d, k) == x
  {
    OrdinalInjective(AddDays(d, k), x);
  }
}
