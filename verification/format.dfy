/** The `strftime` directives the backend uses to build keys and field names:
    `%Y`, `%y`, `%m` and `%d`, rendered as zero-padded decimals. */
module Format {
  import opened Calendar

  function DigitChar(n: int): char
    requires 0 <= n < 10
  {
    "0123456789"[n]
  }

  /** The decimal digits of n, left-padded with '0' to at least `width` characters. */
  function Digits(n: nat, width: nat): (s: string)
    ensures |s| >= 1 && |s| >= width
    decreases n + width
  {
    if n < 10 && width <= 1 then [DigitChar(n)]
    else Digits(n / 10, if width == 0 then 0 else width - 1) + [DigitChar(n % 10)]
  }

  /** Two-digit fields (`%y`, `%m`, `%d`) are exactly two characters long. */
  lemma TwoDigitsLength(n: nat)
    requires n < 100
    ensures |Digits(n, 2)| == 2
  {
    assert Digits(n, 2) == Digits(n / 10, 1) + [DigitChar(n % 10)];
  }

  /** A rendering is one character long exactly when the number is a single digit and no padding is asked for. */
  lemma DigitsSingle(n: nat, width: nat)
    ensures |Digits(n, width)| == 1 <==> n < 10 && width <= 1
  {
    if !(n < 10 && width <= 1) {
      assert |Digits(n / 10, if width == 0 then 0 else width - 1)| >= 1;
    }
  }

  /** Rendering at a fixed width is injective, so a formatted number can be read back. */
  lemma {:induction false} DigitsInjective(a: nat, b: nat, width: nat)
    requires Digits(a, width) == Digits(b, width)
    ensures a == b
    decreases a + width
  {
    var sa, sb := Digits(a, width), Digits(b, width);
    var w' := if width == 0 then 0 else width - 1;
    DigitsSingle(a, width);
    DigitsSingle(b, width);
    if a < 10 && width <= 1 {
      assert DigitChar(a) == sa[0] == sb[0] == DigitChar(b);
    } else {
      var pa, pb := Digits(a / 10, w'), Digits(b / 10, w');
      assert sa == pa + [DigitChar(a % 10)];
      assert sb == pb + [DigitChar(b % 10)];
      assert DigitChar(a % 10) == sa[|sa| - 1] == sb[|sb| - 1] == DigitChar(b % 10);
      assert pa == sa[..|sa| - 1] == sb[..|sb| - 1] == pb;
      DigitsInjective(a / 10, b / 10, w');
    }
  }

  /** `%y`: the year within its century, two digits. */
  function ShortYear(d: Date): (s: string)
    ensures |s| == 2
  {
    TwoDigitsLength(d.year % 100);
    Digits(d.year % 100, 2)
  }

  /** `%m` or `%d` of a month or day number. */
  function TwoDigits(n: nat): (s: string)
    requires n < 100
    ensures |s| == 2
  {
    TwoDigitsLength(n);
    Digits(n, 2)
  }

  /** `%y-%m`. */
  function ShortMonth(d: Date): (s: string)
    ensures |s| == 5 && s[2] == '-'
  {
    ShortYear(d) + "-" + TwoDigits(d.month)
  }

  /** `%y-%m-%d`. */
  function ShortDay(d: Date): (s: string)
    ensures |s| == 8 && s[2] == '-' && s[5] == '-'
  {
    ShortYear(d) + "-" + TwoDigits(d.month) + "-" + TwoDigits(d.day)
  }

  /** `%Y-%m-%d`, the key of a merged time series. */
  function LongDay(d: Date): (s: string)
    ensures |s| >= 10
  {
    Digits(d.year, 4) + "-" + TwoDigits(d.month) + "-" + TwoDigits(d.day)
  }

  /** Two strings with equal-length tails split the same way. */
  lemma SplitTail(p1: string, t1: string, p2: string, t2: string)
    requires p1 + t1 == p2 + t2 && |t1| == |t2|
    ensures p1 == p2 && t1 == t2
  {
    assert p1 == (p1 + t1)[..|p1|];
    assert p2 == (p2 + t2)[..|p2|];
    assert t1 == (p1 + t1)[|p1|..];
    assert t2 == (p2 + t2)[|p2|..];
  }

  /** Two strings with equal-length heads split the same way. */
  lemma SplitHead(h1: string, r1: string, h2: string, r2: string)
    requires h1 + r1 == h2 + r2 && |h1| == |h2|
    ensures h1 == h2 && r1 == r2
  {
    assert h1 == (h1 + r1)[..|h1|];
    assert h2 == (h2 + r2)[..|h2|];
    assert r1 == (h1 + r1)[|h1|..];
    assert r2 == (h2 + r2)[|h2|..];
  }

  lemma ShortMonthInjective(a: Date, b: Date)
    ensures ShortMonth(a) == ShortMonth(b) <==> a.year % 100 == b.year % 100 && a.month == b.month
  {
    if ShortMonth(a) == ShortMonth(b) {
      assert ShortMonth(a) == ShortYear(a) + ("-" + TwoDigits(a.month));
      assert ShortMonth(b) == ShortYear(b) + ("-" + TwoDigits(b.month));
      SplitHead(ShortYear(a), "-" + TwoDigits(a.month), ShortYear(b), "-" + TwoDigits(b.month));
      DigitsInjective(a.year % 100, b.year % 100, 2);
      SplitHead("-", TwoDigits(a.month), "-", TwoDigits(b.month));
      DigitsInjective(a.month, b.month, 2);
    }
  }

  lemma ShortDayInjective(a: Date, b: Date)
    ensures ShortDay(a) == ShortDay(b) <==>
      a.year % 100 == b.year % 100 && a.month == b.month && a.day == b.day
  {
    if ShortDay(a) == ShortDay(b) {
      var ma, mb := ShortYear(a) + "-" + TwoDigits(a.month), ShortYear(b) + "-" + TwoDigits(b.month);
      assert ShortDay(a) == ma + ("-" + TwoDigits(a.day));
      assert ShortDay(b) == mb + ("-" + TwoDigits(b.day));
      SplitTail(ma, "-" + TwoDigits(a.day), mb, "-" + TwoDigits(b.day));
      assert ma == ShortMonth(a) && mb == ShortMonth(b);
      ShortMonthInjective(a, b);
      SplitHead("-", TwoDigits(a.day), "-", TwoDigits(b.day));
      DigitsInjective(a.day, b.day, 2);
    }
  }

  /** The series key `%Y-%m-%d` identifies a date. */
  lemma LongDayInjective(a: Date, b: Date)
    ensures LongDay(a) == LongDay(b) <==> a == b
  {
    if LongDay(a) == LongDay(b) {
      var ta, tb := "-" + TwoDigits(a.month) + "-" + TwoDigits(a.day), "-" + TwoDigits(b.month) + "-" + TwoDigits(b.day);
      assert LongDay(a) == Digits(a.year, 4) + ta;
      assert LongDay(b) == Digits(b.year, 4) + tb;
      SplitTail(Digits(a.year, 4), ta, Digits(b.year, 4), tb);
      DigitsInjective(a.year, b.year, 4);
      assert ta == ("-" + TwoDigits(a.month)) + ("-" + TwoDigits(a.day));
      assert tb == ("-" + TwoDigits(b.month)) + ("-" + TwoDigits(b.day));
      SplitHead("-" + TwoDigits(a.month), "-" + TwoDigits(a.day), "-" + TwoDigits(b.month), "-" + TwoDigits(b.day));
      SplitHead("-", TwoDigits(a.month), "-", TwoDigits(b.month));
      SplitHead("-", TwoDigits(a.day), "-", TwoDigits(b.day));
      DigitsInjective(a.month, b.month, 2);
      DigitsInjective(a.day, b.day, 2);
    }
  }

  /** Within one century the two-digit renderings identify the day and month. */
  lemma ShortDayInCentury(a: Date, b: Date)
    requires Century(a) == Century(b)
    ensures ShortDay(a) == ShortDay(b) <==> a == b
  {
    ShortDayInjective(a, b);
  }

  lemma ShortMonthInCentury(a: Date, b: Date)
    requires Century(a) == Century(b)
    ensures ShortMonth(a) == ShortMonth(b) <==> MonthIndex(a) == MonthIndex(b)
  {
    ShortMonthInjective(a, b);
  }

  lemma ShortYearInjective(a: Date, b: Date)
    ensures ShortYear(a) == ShortYear(b) <==> a.year % 100 == b.year % 100
  {
    if ShortYear(a) == ShortYear(b) {
      DigitsInjective(a.year % 100, b.year % 100, 2);
    }
  }
}
