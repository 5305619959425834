/** The `Date` helpers of the data-usage window: Gregorian components, the
    month key used for grouping, the length of a month, month arithmetic and
    clamping. A date is its local calendar reading; the time zone is fixed. */
module Dates {
  import opened Decimal

  /** A local date and time: `second` counts seconds since midnight. Years are
      astronomical (year 0 is 1 BC). */
  datatype Date = Date(year: int, month: int, day: int, second: int)

  predicate IsLeapYear(y: int) {
    y % 4 == 0 && (y % 100 != 0 || y % 400 == 0)
  }

  /** `daysInMonth`, by the Gregorian month lengths. */
  function DaysInMonth(y: int, m: int): (days: int)
    requires 1 <= m <= 12
    ensures 28 <= days <= 31
    ensures m == 2 ==> (days == 29 <==> IsLeapYear(y))
    ensures m != 2 ==> days >= 30
  {
    if m == 2 then (if IsLeapYear(y) then 29 else 28)
    else if m == 4 || m == 6 || m == 9 || m == 11 then 30
    else 31
  }

  predicate Valid(d: Date) {
    && 1 <= d.month <= 12
    && 1 <= d.day <= DaysInMonth(d.year, d.month)
    && 0 <= d.second < 86400
  }

  // --------------------------------------------- an independent day count

  /** Days from 1 January of year 1 to 1 January of year `y`. */
  function DaysBeforeYear(y: int): int {
    365 * (y - 1) + (y - 1) / 4 - (y - 1) / 100 + (y - 1) / 400
  }

  /** Days from 1 January to the first of month `m`, from the cumulative
      table of a common year plus the leap day. */
  function DaysBeforeMonth(y: int, m: int): int
    requires 1 <= m <= 12
  {
    [0, 31, 59, 90, 120, 151, 181, 212, 243, 273, 304, 334][m - 1]
      + (if m > 2 && IsLeapYear(y) then 1 else 0)
  }

  /** A day's serial number: 1 for 1 January of year 1. */
  function DayNumber(y: int, m: int, d: int): int
    requires 1 <= m <= 12
  {
    DaysBeforeYear(y) + DaysBeforeMonth(y, m) + d
  }

  lemma YearLength(y: int)
    ensures DaysBeforeYear(y + 1) - DaysBeforeYear(y) == if IsLeapYear(y) then 366 else 365
  {
    assert y / 4 - (y - 1) / 4 == if y % 4 == 0 then 1 else 0;
    assert y / 100 - (y - 1) / 100 == if y % 100 == 0 then 1 else 0;
    assert y / 400 - (y - 1) / 400 == if y % 400 == 0 then 1 else 0;
  }

  /** `daysInMonth` is the number of days from the first of the month to the
      first of the next month. */
  lemma DaysInMonthIsInterval(y: int, m: int)
    requires 1 <= m <= 12
    ensures m < 12 ==> DaysInMonth(y, m) == DayNumber(y, m + 1, 1) - DayNumber(y, m, 1)
    ensures m == 12 ==> DaysInMonth(y, m) == DayNumber(y + 1, 1, 1) - DayNumber(y, m, 1)
  {
    if m == 12 {
      YearLength(y);
    }
  }

  // ---------------------------------------------------------- month keys

  /** The key "\(year)-\(month)": decimal year, a dash, unpadded month. */
  function MonthKey(y: int, m: nat): string {
    IntToString(y) + "-" + NatToString(m)
  }

  /** `yearMonthKey`. */
  function YearMonthKey(d: Date): string
    requires Valid(d)
  {
    MonthKey(d.year, d.month)
  }

  /** `a + sep + b == c + sep + d` splits uniquely at the last `sep` when
      neither tail contains one. */
  lemma SplitAtLastSeparator(a: string, b: string, c: string, d: string, sep: char)
    requires sep !in b && sep !in d
    requires a + [sep] + b == c + [sep] + d
    ensures a == c && b == d
  {
    var s := a + [sep] + b;
    assert b == s[|a| + 1..] && d == s[|c| + 1..];
    if |a| < |c| {
      InSuffix(s, |a| + 1, |c|);
      assert false;
    } else if |c| < |a| {
      InSuffix(s, |c| + 1, |a|);
      assert false;
    } else {
      assert a == s[..|a|] && c == s[..|c|];
    }
  }

  lemma InSuffix(s: string, k: nat, i: nat)
    requires k <= i < |s|
    ensures s[i] in s[k..]
  {
    assert s[k..][i - k] == s[i];
  }

  lemma DigitsHaveNoDash(s: string)
    requires AllDigits(s)
    ensures '-' !in s
  {
  }

  /** Distinct (year, month) pairs have distinct keys, for every year,
      negative ones included. */
  lemma MonthKeyInjective(y1: int, m1: nat, y2: int, m2: nat)
    ensures MonthKey(y1, m1) == MonthKey(y2, m2) <==> y1 == y2 && m1 == m2
  {
    if MonthKey(y1, m1) == MonthKey(y2, m2) {
      DigitsHaveNoDash(NatToString(m1));
      DigitsHaveNoDash(NatToString(m2));
      assert IntToString(y1) + "-" + NatToString(m1) == IntToString(y1) + ['-'] + NatToString(m1);
      assert IntToString(y2) + "-" + NatToString(m2) == IntToString(y2) + ['-'] + NatToString(m2);
      SplitAtLastSeparator(IntToString(y1), NatToString(m1), IntToString(y2), NatToString(m2), '-');
      IntToStringInjective(y1, y2);
      NatToStringInjective(m1, m2);
    }
  }

  /** A year and month, the information a month key carries. */
  datatype YearMonth = YearMonth(year: int, month: int)

  function YearMonthOf(d: Date): YearMonth {
    YearMonth(d.year, d.month)
  }

  /** Keys render (year, month) pairs one-to-one, so a dictionary keyed by
      the rendered key holds the same entries as one keyed by the pair. */
  lemma YearMonthKeyOneToOne(a: Date, b: Date)
    requires Valid(a) && Valid(b)
    ensures YearMonthKey(a) == YearMonthKey(b) <==> YearMonthOf(a) == YearMonthOf(b)
  {
    MonthKeyInjective(a.year, a.month, b.year, b.month);
  }

  /** The example format. */
  lemma KeyExample()
    ensures MonthKey(2021, 7) == "2021-7"
    ensures MonthKey(2021, 12) == "2021-12"
  {
    assert NatToString(2021) == "2021" by {
      assert NatToString(2) == "2";
      assert NatToString(20) == "20";
      assert NatToString(202) == "202";
    }
    assert NatToString(12) == "12" by {
      assert NatToString(1) == "1";
    }
  }

  // ------------------------------------------------------ month arithmetic

  /** Months counted from January of year 0. */
  function MonthIndex(y: int, m: int): int {
    y * 12 + (m - 1)
  }

  function YearOfIndex(i: int): int { i / 12 }
  function MonthOfIndex(i: int): (m: int)
    ensures 1 <= m <= 12
  {
    i % 12 + 1
  }

  lemma IndexRoundTrip(y: int, m: int)
    requires 1 <= m <= 12
    ensures YearOfIndex(MonthIndex(y, m)) == y && MonthOfIndex(MonthIndex(y, m)) == m
  {
  }

  lemma IndexOfComponents(i: int)
    ensures MonthIndex(YearOfIndex(i), MonthOfIndex(i)) == i
  {
  }

  /** `fromYearAndMonth`: the first of the month at 12:00; a month outside
      1...12 rolls over into neighbouring years as the calendar does. */
  function FromYearAndMonth(y: int, m: int): (d: Date)
    ensures Valid(d)
    ensures MonthIndex(d.year, d.month) == MonthIndex(y, m)
    ensures 1 <= m <= 12 ==> d == Date(y, m, 1, 12 * 3600)
  {
    var i := MonthIndex(y, m);
    IndexRoundTrip(y, if 1 <= m <= 12 then m else 1);
    Date(YearOfIndex(i), MonthOfIndex(i), 1, 12 * 3600)
  }

  /** The key of the month built by `fromYearAndMonth` is the hand-built key
      "\(year)-\(month)": both spellings index the same map entry. */
  lemma KeyOfFromYearAndMonth(y: int, m: int)
    requires 1 <= m <= 12
    ensures YearMonthKey(FromYearAndMonth(y, m)) == MonthKey(y, m)
  {
  }

  /** `Calendar.date(byAdding: month k)`: the same day and time `k` months
      away, with the day cut back to the last day of a shorter month. */
  function AddMonths(d: Date, k: int): (r: Date)
    requires Valid(d)
    ensures Valid(r)
    ensures MonthIndex(r.year, r.month) == MonthIndex(d.year, d.month) + k
    ensures r.day == if d.day <= DaysInMonth(r.year, r.month) then d.day else DaysInMonth(r.year, r.month)
    ensures r.second == d.second
  {
    var i := MonthIndex(d.year, d.month) + k;
    var y, m := YearOfIndex(i), MonthOfIndex(i);
    var last := DaysInMonth(y, m);
    Date(y, m, if d.day <= last then d.day else last, d.second)
  }

  /** A month later and a month earlier is not always the same day: the day
      cut is not undone. */
  lemma AddMonthsLosesDay()
    ensures AddMonths(AddMonths(Date(2021, 1, 31, 0), 1), -1) == Date(2021, 1, 28, 0)
  {
    assert MonthIndex(2021, 1) == 24252;
    assert YearOfIndex(24253) == 2021 && MonthOfIndex(24253) == 2;
    assert AddMonths(Date(2021, 1, 31, 0), 1) == Date(2021, 2, 28, 0);
    assert MonthIndex(2021, 2) == 24253;
    assert YearOfIndex(24252) == 2021 && MonthOfIndex(24252) == 1;
  }

  // ----------------------------------------------------------- ordering

  /** Chronological order of valid dates: by year, month, day, time of day. */
  predicate Before(a: Date, b: Date) {
    || a.year < b.year
    || (a.year == b.year && a.month < b.month)
    || (a.year == b.year && a.month == b.month && a.day < b.day)
    || (a.year == b.year && a.month == b.month && a.day == b.day && a.second < b.second)
  }

  predicate AtMost(a: Date, b: Date) {
    a == b || Before(a, b)
  }

  lemma OrderTotal(a: Date, b: Date)
    ensures AtMost(a, b) || AtMost(b, a)
    ensures !(Before(a, b) && AtMost(b, a))
  {
  }

  lemma OrderTransitive(a: Date, b: Date, c: Date)
    ensures AtMost(a, b) && AtMost(b, c) ==> AtMost(a, c)
  {
  }

  /** Earlier dates lie in the same or an earlier month. */
  lemma OrderMonthIndex(a: Date, b: Date)
    requires Valid(a) && Valid(b)
    ensures AtMost(a, b) ==> MonthIndex(a.year, a.month) <= MonthIndex(b.year, b.month)
  {
  }

  /** Swift's `max(x, y)`: `y` when `y >= x`. */
  function Max(x: Date, y: Date): (r: Date)
    ensures AtMost(x, r) && AtMost(y, r)
    ensures r == x || r == y
  {
    if AtMost(x, y) then y else x
  }

  /** Swift's `min(x, y)`: `y` when `y < x`. */
  function Min(x: Date, y: Date): (r: Date)
    ensures AtMost(r, x) && AtMost(r, y)
    ensures r == x || r == y
  {
    if Before(y, x) then y else x
  }

  /** `clamp(from:until:)`: `min(max(from, self), until)`. */
  function Clamp(d: Date, from: Date, until: Date): (r: Date)
    ensures AtMost(r, until)
    ensures AtMost(from, until) ==> AtMost(from, r)
    ensures AtMost(from, d) && AtMost(d, until) ==> r == d
    ensures Before(until, from) ==> r == until
    ensures r == d || r == from || r == until
  {
    Min(Max(from, d), until)
  }

  lemma ClampIdempotent(d: Date, from: Date, until: Date)
    ensures Clamp(Clamp(d, from, until), from, until) == Clamp(d, from, until)
  {
    var r := Clamp(d, from, until);
    if !AtMost(from, until) {
      assert r == until;
    }
  }
}
