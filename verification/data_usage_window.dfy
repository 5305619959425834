/** The data-usage window over the aggregated map: what is shown for the
    current month, the month and year choices, loading from the stored
    sessions, and the search for the next or previous month with data. */
module DataUsageWindow {
  import opened Wrappers
  import opened BoundedInts
  import opened Dates
  import opened DataUsage

  /** The window's traps: `lastSessionCreated!` with no sessions, a
      `ClosedRange` whose lower bound exceeds its upper one, the monthly
      `reduce` overflowing Int64, and a trap of the aggregation. */
  datatype WindowTrap = NoSessions | ReversedRange | TotalOverflow | AggregationTrap(cause: Trap)

  // ------------------------------------------------------ the month shown

  /** The sum of an array, first element first. */
  function Sum(a: seq<int>): int {
    if |a| == 0 then 0 else a[0] + Sum(a[1..])
  }

  lemma {:induction false} SumSnoc(a: seq<int>, x: int)
    ensures Sum(a + [x]) == Sum(a) + x
  {
    if |a| > 0 {
      assert (a + [x])[1..] == a[1..] + [x];
      SumSnoc(a[1..], x);
    }
  }

  predicate InInt64(v: int) {
    INT64_MIN <= v <= INT64_MAX
  }

  /** `reduce(0, +)` over the first `n` entries, trapping as Swift's `+` on
      Int64 does when a partial sum leaves the range. */
  function Reduce(a: seq<int>, n: nat): (r: Result<int, WindowTrap>)
    requires n <= |a|
    ensures r.Success? <==> forall k :: 1 <= k <= n ==> InInt64(Sum(a[..k]))
    ensures r.Success? ==> r.value == Sum(a[..n])
    ensures r.Failure? ==> r.error == TotalOverflow
  {
    if n == 0 then Success(0)
    else
      assert a[..n] == a[..n - 1] + [a[n - 1]];
      SumSnoc(a[..n - 1], a[n - 1]);
      match Reduce(a, n - 1)
      case Failure(t) => Failure(t)
      case Success(v) =>
        if InInt64(v + a[n - 1]) then Success(v + a[n - 1]) else Failure(TotalOverflow)
  }

  /** The array handed to the chart and the month's byte total. */
  datatype Shown = Shown(daily: seq<int>, total: int)

  /** `visualizeDataUsageOfCurrentDate` without the text formatting. */
  function Visualize(u: Usage, d: Date): (r: Result<Shown, WindowTrap>)
    requires Valid(d)
    ensures YearMonthOf(d) in u ==> r.Success? ==> r.value.daily == u[YearMonthOf(d)]
    ensures YearMonthOf(d) in u ==> (r.Success? <==> Reduce(u[YearMonthOf(d)], |u[YearMonthOf(d)]|).Success?)
    ensures YearMonthOf(d) !in u ==> r == Success(Shown(Zeros(DaysInMonth(d.year, d.month)), 0))
    ensures LengthsMatch(u) && r.Success? ==> |r.value.daily| == DaysInMonth(d.year, d.month)
    ensures r.Success? ==> r.value.total == Sum(r.value.daily)
    ensures r.Failure? ==> r.error == TotalOverflow
  {
    var key := YearMonthOf(d);
    if key in u then
      var a := u[key];
      assert a[..|a|] == a;
      assert MonthDays(key) == DaysInMonth(d.year, d.month);
      match Reduce(a, |a|)
      case Failure(t) => Failure(t)
      case Success(v) => Success(Shown(a, v))
    else
      ZerosSum(DaysInMonth(d.year, d.month));
      Success(Shown(Zeros(DaysInMonth(d.year, d.month)), 0))
  }

  lemma {:induction false} ZerosSum(n: nat)
    ensures Sum(Zeros(n)) == 0
  {
    if n > 0 {
      assert Zeros(n)[1..] == Zeros(n - 1);
      ZerosSum(n - 1);
    }
  }

  predicate AllNonNegative(a: seq<int>) {
    forall i :: 0 <= i < |a| ==> a[i] >= 0
  }

  lemma {:induction false} PrefixSumBounds(a: seq<int>, k: nat)
    requires AllNonNegative(a) && k <= |a|
    ensures 0 <= Sum(a[..k]) <= Sum(a)
  {
    if |a| > 0 && k > 0 {
      assert a[..k][1..] == a[1..][..k - 1];
      PrefixSumBounds(a[1..], k - 1);
    } else if |a| > 0 {
      PrefixSumBounds(a[1..], 0);
    }
  }

  /** A month whose days are non-negative and whose sum fits in Int64 always
      gets its total. */
  lemma VisualizeSucceeds(u: Usage, d: Date)
    requires Valid(d)
    requires YearMonthOf(d) in u ==> AllNonNegative(u[YearMonthOf(d)]) && Sum(u[YearMonthOf(d)]) <= INT64_MAX
    ensures Visualize(u, d).Success?
  {
    var key := YearMonthOf(d);
    if key in u {
      var a := u[key];
      forall k | 1 <= k <= |a|
        ensures InInt64(Sum(a[..k]))
      {
        PrefixSumBounds(a, k);
      }
    }
  }

  // ---------------------------------------------------- the two choices

  /** The months `m...12` whose key for `year` is in the map, ascending. */
  function MonthsFrom(u: Usage, year: int, m: int): (r: seq<int>)
    requires 1 <= m <= 13
    ensures forall i :: 0 <= i < |r| ==> m <= r[i] <= 12
    ensures forall i, j :: 0 <= i < j < |r| ==> r[i] < r[j]
    ensures forall k :: k in r <==> m <= k <= 12 && YearMonth(year, k) in u
    decreases 13 - m
  {
    if m == 13 then []
    else (if YearMonth(year, m) in u then [m] else []) + MonthsFrom(u, year, m + 1)
  }

  /** The month list: the numbers of the months of `year` that have data,
      in calendar order (the names are `standaloneMonthSymbols[m - 1]`). */
  function MonthsWithData(u: Usage, year: int): (r: seq<int>)
    ensures forall i, j :: 0 <= i < j < |r| ==> r[i] < r[j]
    ensures forall k :: k in r <==> 1 <= k <= 12 && YearMonth(year, k) in u
  {
    MonthsFrom(u, year, 1)
  }

  /** The year list: `first.yearNumber...last.yearNumber`, which traps when
      the range is reversed. */
  function YearList(first: Date, last: Date): (r: Result<seq<int>, WindowTrap>)
    ensures r.Failure? <==> first.year > last.year
    ensures r.Failure? ==> r.error == ReversedRange
    ensures r.Success? ==> |r.value| == last.year - first.year + 1
    ensures r.Success? ==> forall y :: y in r.value <==> first.year <= y <= last.year
    ensures r.Success? ==> forall i, j :: 0 <= i < j < |r.value| ==> r.value[i] < r.value[j]
  {
    if first.year > last.year then Failure(ReversedRange)
    else
      var ys := seq(last.year - first.year + 1, i => first.year + i);
      forall y | first.year <= y <= last.year
        ensures y in ys
      {
        assert ys[y - first.year] == y;
      }
      Success(ys)
  }

  // -------------------------------------------------------------- loading

  /** The window's state after `viewDidLoad`. */
  datatype Window = Window(
    first: Date,
    last: Date,
    current: Date,
    usage: Usage,
    years: seq<int>,
    months: seq<int>,
    shown: Shown)

  predicate ValidWindow(w: Window) {
    Valid(w.first) && Valid(w.last) && Valid(w.current)
  }

  /** `viewDidLoad`: bounds from the oldest and newest session, the newest
      month first, then the aggregation and both lists and the chart. */
  function Load(s: seq<Session>): (r: Result<Window, WindowTrap>)
    requires ValidSessions(s)
    ensures |s| == 0 <==> r == Failure(NoSessions)
    ensures |s| == 1 ==> r == Failure(AggregationTrap(NilPrevious))
    ensures |s| >= 2 ==> (r.Success? <==> && Aggregate(s).Success?
                                          && YearList(s[|s| - 1].created, s[0].created).Success?
                                          && Visualize(Aggregate(s).value, s[0].created).Success?)
    ensures r.Success? ==> ValidWindow(r.value)
    ensures r.Success? ==> && r.value.first == s[|s| - 1].created
                           && r.value.last == s[0].created
                           && r.value.current == s[0].created
    ensures r.Success? ==> Aggregate(s) == Success(r.value.usage)
    ensures r.Success? ==> YearList(r.value.first, r.value.last) == Success(r.value.years)
    ensures r.Success? ==> r.value.months == MonthsWithData(r.value.usage, r.value.current.year)
    ensures r.Success? ==> Visualize(r.value.usage, r.value.current) == Success(r.value.shown)
  {
    if |s| == 0 then Failure(NoSessions)
    else
      var first, last := s[|s| - 1].created, s[0].created;
      AggregateOutcomes(s);
      match Aggregate(s)
      case Failure(t) => Failure(AggregationTrap(t))
      case Success(u) =>
        match YearList(first, last)
        case Failure(t) => Failure(t)
        case Success(years) =>
          match Visualize(u, last)
          case Failure(t) => Failure(t)
          case Success(shown) => Success(Window(first, last, last, u, years, MonthsWithData(u, last.year), shown))
  }

  /** Newest-first sessions never give a reversed year range. */
  lemma NewestFirstYearList(s: seq<Session>)
    requires ValidSessions(s) && NewestFirst(s) && |s| >= 1
    ensures YearList(s[|s| - 1].created, s[0].created).Success?
  {
    if |s| > 1 {
      assert AtMost(s[|s| - 1].created, s[0].created);
    }
  }

  // ----------------------------------------------------------- navigation

  /** `MonthSearchDirection`. */
  datatype Direction = Next | Previous

  function Summand(dir: Direction): int {
    if dir == Next then 1 else -1
  }

  /** `currentDateIsInBounds`: not after the newest session when searching
      forward, not before the oldest when searching backward. */
  predicate InBounds(dir: Direction, d: Date, first: Date, last: Date) {
    if dir == Next then AtMost(d, last) else AtMost(first, d)
  }

  /** `k` single-month steps from `d`; each step cuts the day on its own. */
  function Walk(d: Date, delta: int, k: nat): (r: Date)
    requires Valid(d)
    ensures Valid(r)
  {
    if k == 0 then d else AddMonths(Walk(d, delta, k - 1), delta)
  }

  /** Months left before the search leaves its bound. */
  function Distance(dir: Direction, d: Date, first: Date, last: Date): int {
    if dir == Next then MonthIndex(last.year, last.month) - MonthIndex(d.year, d.month)
    else MonthIndex(d.year, d.month) - MonthIndex(first.year, first.month)
  }

  lemma InBoundsDistance(dir: Direction, d: Date, first: Date, last: Date)
    requires Valid(d) && Valid(first) && Valid(last)
    ensures InBounds(dir, d, first, last) ==> Distance(dir, d, first, last) >= 0
  {
    OrderMonthIndex(d, last);
    OrderMonthIndex(first, d);
  }

  /** Each step brings the walk one month closer to its bound. */
  lemma {:induction false} WalkDistance(dir: Direction, d: Date, first: Date, last: Date, k: nat)
    requires Valid(d)
    ensures Distance(dir, Walk(d, Summand(dir), k), first, last) + k == Distance(dir, d, first, last)
  {
    if k > 0 {
      WalkDistance(dir, d, first, last, k - 1);
    }
  }

  /** The search passed the first `n` dates of the walk: each was in bounds,
      and none after the starting date lies in a month with data. */
  predicate Searched(u: Usage, dir: Direction, current: Date, first: Date, last: Date, n: nat)
    requires Valid(current)
  {
    && (forall k :: 0 <= k < n ==> InBounds(dir, Walk(current, Summand(dir), k), first, last))
    && (forall k :: 1 <= k < n ==> YearMonthOf(Walk(current, Summand(dir), k)) !in u)
  }

  lemma SearchedStep(u: Usage, dir: Direction, current: Date, first: Date, last: Date, n: nat)
    requires Valid(current) && Searched(u, dir, current, first, last, n)
    requires InBounds(dir, Walk(current, Summand(dir), n), first, last)
    requires n >= 1 ==> YearMonthOf(Walk(current, Summand(dir), n)) !in u
    ensures Searched(u, dir, current, first, last, n + 1)
  {
    var delta := Summand(dir);
    assert forall k :: 0 <= k < n + 1 ==> InBounds(dir, Walk(current, delta, k), first, last) by {
      forall k | 0 <= k < n + 1
        ensures InBounds(dir, Walk(current, delta, k), first, last)
      {
        if k < n {
          assert InBounds(dir, Walk(current, delta, k), first, last);
        }
      }
    }
    assert forall k :: 1 <= k < n + 1 ==> YearMonthOf(Walk(current, delta, k)) !in u by {
      forall k | 1 <= k < n + 1
        ensures YearMonthOf(Walk(current, delta, k)) !in u
      {
        if k < n {
          assert YearMonthOf(Walk(current, delta, k)) !in u;
        }
      }
    }
  }

  /** `selectNextOrPreviousMonth` up to the clamp: step one month at a time
      while no month with data has been found and the date is in bounds;
      `steps` is the number of steps taken. */
  method SelectMonth(u: Usage, first: Date, last: Date, current: Date, dir: Direction)
    returns (r: Date, steps: nat)
    requires Valid(first) && Valid(last) && Valid(current)
    ensures steps > 0 <==> InBounds(dir, current, first, last)
    ensures Searched(u, dir, current, first, last, steps)
    ensures steps > 0 ==> || YearMonthOf(Walk(current, Summand(dir), steps)) in u
                          || !InBounds(dir, Walk(current, Summand(dir), steps), first, last)
    ensures steps > 0 ==> steps <= Distance(dir, current, first, last) + 1
    ensures r == Clamp(Walk(current, Summand(dir), steps), first, last)
    ensures AtMost(first, last) ==> AtMost(first, r) && AtMost(r, last)
  {
    var d := current;
    var found := false;
    steps := 0;
    while !found && InBounds(dir, d, first, last)
      invariant Valid(d) && d == Walk(current, Summand(dir), steps)
      invariant steps > 0 ==> InBounds(dir, current, first, last)
      invariant Searched(u, dir, current, first, last, steps)
      invariant found <==> steps > 0 && YearMonthOf(d) in u
      invariant steps > 0 ==> steps <= Distance(dir, current, first, last) + 1
      decreases if found then 0 else 1, Distance(dir, d, first, last) + 1
    {
      InBoundsDistance(dir, d, first, last);
      WalkDistance(dir, current, first, last, steps);
      SearchedStep(u, dir, current, first, last, steps);
      d := AddMonths(d, Summand(dir));
      steps := steps + 1;
      found := YearMonthOf(d) in u;
    }
    r := Clamp(d, first, last);
  }
}
