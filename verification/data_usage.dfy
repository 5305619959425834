/** `aggregateDataUsageByMonthAndDay`: the fold of the stored sessions into
    one array of daily byte counts per month, together with an independent
    per-day summation it is compared against. */
module DataUsage {
  import opened Wrappers
  import opened BoundedInts
  import opened Dates

  /** A stored `TetheringSession`: when it was created and its byte count. */
  datatype Session = Session(created: Date, bytesTransferred: Int64)

  /** `[YearMonthKey: [Int64]]`: per month, the bytes of each day. The
      dictionary's string key "\(year)-\(month)" renders the pair one-to-one
      (`Dates.YearMonthKeyOneToOne`), so the model keys by the pair itself. */
  type Usage = map<YearMonth, seq<int>>

  predicate ValidSessions(s: seq<Session>) {
    forall i :: 0 <= i < |s| ==> Valid(s[i].created)
  }

  function Key(x: Session): YearMonth {
    YearMonthOf(x.created)
  }

  /** The number of days of a month; 0 for a month number outside 1...12. */
  function MonthDays(ym: YearMonth): int {
    if 1 <= ym.month <= 12 then DaysInMonth(ym.year, ym.month) else 0
  }

  function Days(x: Session): int {
    MonthDays(Key(x))
  }

  /** Two sessions fall on the same calendar day. */
  predicate SameDay(x: Session, y: Session) {
    && x.created.year == y.created.year
    && x.created.month == y.created.month
    && x.created.day == y.created.day
  }

  /** Sessions on one day form one contiguous run. */
  predicate Grouped(s: seq<Session>)
    requires ValidSessions(s)
  {
    forall a, b, c :: 0 <= a < b < c < |s| && SameDay(s[a], s[c]) ==> SameDay(s[a], s[b])
  }

  function Zeros(n: nat): (z: seq<int>)
    ensures |z| == n && forall i :: 0 <= i < n ==> z[i] == 0
  {
    seq(n, _ => 0)
  }

  /** The array a flush for `x` writes into: the month's existing array, or
      a fresh all-zero one as long as `x`'s month. */
  function Slot(u: Usage, x: Session): seq<int>
    requires Valid(x.created)
  {
    if Key(x) in u then u[Key(x)] else Zeros(Days(x))
  }

  /** Every array is as long as its month. */
  ghost predicate LengthsMatch(u: Usage) {
    forall ym {:trigger MonthDays(ym)} :: ym in u ==> 1 <= ym.month <= 12 && |u[ym]| == MonthDays(ym)
  }

  /** A month's array, existing or fresh, covers every day of the month. */
  lemma SlotLength(u: Usage, x: Session)
    requires Valid(x.created) && LengthsMatch(u)
    ensures |Slot(u, x)| == Days(x) == DaysInMonth(x.created.year, x.created.month)
  {
    assert MonthDays(Key(x)) == DaysInMonth(x.created.year, x.created.month);
  }

  /** The bytes recorded for `x`'s day; 0 before its month has an array. */
  function DayOf(u: Usage, x: Session): int
    requires Valid(x.created) && LengthsMatch(u)
  {
    SlotLength(u, x);
    Slot(u, x)[x.created.day - 1]
  }

  /** Store `v` as the bytes of `x`'s day. */
  function Write(u: Usage, x: Session, v: int): (r: Usage)
    requires Valid(x.created) && LengthsMatch(u)
    ensures LengthsMatch(r)
  {
    SlotLength(u, x);
    var r := u[Key(x) := Slot(u, x)[x.created.day - 1 := v]];
    assert LengthsMatch(r) by {
      forall ym | ym in r
        ensures 1 <= ym.month <= 12 && |r[ym]| == MonthDays(ym)
      {
        if ym == Key(x) {
          assert |r[ym]| == Days(x);
        } else {
          assert ym in u && r[ym] == u[ym];
          assert MonthDays(ym) == |u[ym]|;
        }
      }
    }
    r
  }

  // ------------------------------------------------------------- the fold

  /** `prevYearMonthKey!` on the first session when it is also the last;
      an index outside the month's array; `+=` overflowing Int64. */
  datatype Trap = NilPrevious | IndexOutOfRange | Int64Overflow

  /** The closure's state: the map, the day's running total, and the previous
      session (its key and day are the `prevYearMonthKey` and `prevDay`). */
  datatype Acc = Acc(usage: Usage, daily: int, prev: Option<Session>)

  const Start: Acc := Acc(map[], 0, None)

  /** One pass of the closure for `x`; `isLast` is `session == tetheringSessions.last`. */
  function Step(acc: Acc, x: Session, isLast: bool): (r: Result<Acc, Trap>)
    requires Valid(x.created)
    requires acc.prev.Some? ==> Valid(acc.prev.value.created)
    // The previous session always becomes `x`.
    ensures r.Success? ==> r.value.prev == Some(x)
    // The first session can only trap when it is also the last.
    ensures acc.prev.None? ==> (r == Failure(NilPrevious) <==> isLast)
    // A flush fails exactly when the previous day is outside its month's array.
    ensures acc.prev.Some? && (!SameDay(acc.prev.value, x) || isLast) ==>
              (r.Success? <==> acc.prev.value.created.day - 1 < |Slot(acc.usage, acc.prev.value)|)
    // Accumulating fails exactly when the day's total leaves the Int64 range.
    ensures acc.prev.Some? && SameDay(acc.prev.value, x) && !isLast ==>
              (r.Success? <==> INT64_MIN <= acc.daily + x.bytesTransferred <= INT64_MAX)
    // Without a change of day and before the last session, nothing is written.
    ensures acc.prev.Some? && SameDay(acc.prev.value, x) && !isLast && r.Success? ==>
              r.value.usage == acc.usage && r.value.daily == acc.daily + x.bytesTransferred
    // On a flush, the running total goes into the previous session's day and restarts with `x`.
    ensures acc.prev.Some? && (!SameDay(acc.prev.value, x) || isLast) && r.Success? ==>
              && r.value.daily == x.bytesTransferred
              && acc.prev.value.created.day - 1 < |Slot(acc.usage, acc.prev.value)|
              && r.value.usage == acc.usage[Key(acc.prev.value) :=
                   Slot(acc.usage, acc.prev.value)[acc.prev.value.created.day - 1 := acc.daily]]
  {
    var dayChanged := acc.prev.Some?
      && (x.created.day != acc.prev.value.created.day || Key(x) != Key(acc.prev.value));
    var flushed: Result<Acc, Trap> :=
      if dayChanged || isLast then
        if acc.prev.None? then Failure(NilPrevious)
        else
          var p := acc.prev.value;
          var slot := Slot(acc.usage, p);
          if !(p.created.day - 1 < |slot|) then Failure(IndexOutOfRange)
          else Success(Acc(acc.usage[Key(p) := slot[p.created.day - 1 := acc.daily]], 0, acc.prev))
      else Success(acc);
    match flushed
    case Failure(t) => Failure(t)
    case Success(a) =>
      var daily := a.daily + x.bytesTransferred;
      if daily < INT64_MIN || INT64_MAX < daily then Failure(Int64Overflow)
      else Success(Acc(a.usage, daily, Some(x)))
  }

  /** The `forEach` from index `i` on. */
  function Fold(s: seq<Session>, i: nat, acc: Acc): Result<Acc, Trap>
    requires ValidSessions(s) && i <= |s|
    requires acc.prev.Some? ==> Valid(acc.prev.value.created)
    decreases |s| - i
  {
    if i == |s| then Success(acc)
    else
      match Step(acc, s[i], i == |s| - 1)
      case Failure(t) => Failure(t)
      case Success(acc') => Fold(s, i + 1, acc')
  }

  function Aggregate(s: seq<Session>): Result<Usage, Trap>
    requires ValidSessions(s)
  {
    match Fold(s, 0, Start)
    case Failure(t) => Failure(t)
    case Success(acc) => Success(acc.usage)
  }

  // ------------------------------------------------------- the reference

  /** The bytes of the first `n` sessions that fall on `y`'s day. */
  function SumOn(s: seq<Session>, n: nat, y: Session): int
    requires n <= |s| && ValidSessions(s) && Valid(y.created)
  {
    if n == 0 then 0
    else SumOn(s, n - 1, y) + (if SameDay(s[n - 1], y) then s[n - 1].bytesTransferred else 0)
  }

  /** The bytes of the first `n` sessions. */
  function Total(s: seq<Session>, n: nat): int
    requires n <= |s|
  {
    if n == 0 then 0 else Total(s, n - 1) + s[n - 1].bytesTransferred
  }

  /** Adds `x`'s bytes into its day. */
  function Add(u: Usage, x: Session): (r: Usage)
    requires Valid(x.created) && LengthsMatch(u)
    ensures LengthsMatch(r)
  {
    Write(u, x, DayOf(u, x) + x.bytesTransferred)
  }

  /** What the window is meant to show for the first `n` sessions: each
      session's bytes added into the day it was created on, a month's array
      created when the month is first met. */
  function Reference(s: seq<Session>, n: nat): (r: Usage)
    requires n <= |s| && ValidSessions(s)
    ensures LengthsMatch(r)
  {
    if n == 0 then map[] else Add(Reference(s, n - 1), s[n - 1])
  }

  /** Adding `x` changes only `x`'s own day. */
  lemma AddDay(r: Usage, x: Session, y: Session)
    requires Valid(x.created) && Valid(y.created) && LengthsMatch(r)
    ensures DayOf(Add(r, x), y) == DayOf(r, y) + (if SameDay(x, y) then x.bytesTransferred else 0)
  {
    SlotLength(r, x);
    SlotLength(r, y);
    if Key(x) == Key(y) {
      assert Slot(r, x) == Slot(r, y);
      assert Slot(Add(r, x), y) == Slot(r, x)[x.created.day - 1 := DayOf(r, x) + x.bytesTransferred];
    } else {
      assert Slot(Add(r, x), y) == Slot(r, y);
    }
  }

  /** Each day of the reference holds the sum over the sessions of that day,
      and days without sessions read 0. */
  lemma {:induction false} ReferenceDay(s: seq<Session>, n: nat, y: Session)
    requires n <= |s| && ValidSessions(s) && Valid(y.created)
    ensures DayOf(Reference(s, n), y) == SumOn(s, n, y)
  {
    if n > 0 {
      ReferenceDay(s, n - 1, y);
      AddDay(Reference(s, n - 1), s[n - 1], y);
    }
  }

  /** A month has an array exactly when some session falls in it. */
  lemma {:induction false} ReferenceKeys(s: seq<Session>, n: nat, k: YearMonth)
    requires n <= |s| && ValidSessions(s)
    ensures k in Reference(s, n) <==> exists i :: 0 <= i < n && Key(s[i]) == k
  {
    if n > 0 {
      ReferenceKeys(s, n - 1, k);
      assert k in Reference(s, n) <==> k in Reference(s, n - 1) || k == Key(s[n - 1]);
      if exists i :: 0 <= i < n && Key(s[i]) == k {
        var i :| 0 <= i < n && Key(s[i]) == k;
        assert i < n - 1 || k == Key(s[n - 1]);
      }
    }
  }

  // ------------------------------------- the fold against the reference

  predicate NonNegative(s: seq<Session>) {
    forall i :: 0 <= i < |s| ==> s[i].bytesTransferred >= 0
  }

  lemma {:induction false} TotalBounds(s: seq<Session>, n: nat)
    requires NonNegative(s) && n <= |s|
    ensures 0 <= Total(s, n) <= Total(s, |s|)
    decreases |s| - n
  {
    TotalNonNegative(s, n);
    if n < |s| {
      TotalBounds(s, n + 1);
    }
  }

  lemma {:induction false} TotalNonNegative(s: seq<Session>, n: nat)
    requires NonNegative(s) && n <= |s|
    ensures Total(s, n) >= 0
  {
    if n > 0 {
      TotalNonNegative(s, n - 1);
    }
  }

  lemma {:induction false} SumOnNone(s: seq<Session>, n: nat, y: Session)
    requires n <= |s| && ValidSessions(s) && Valid(y.created)
    requires forall j :: 0 <= j < n ==> !SameDay(s[j], y)
    ensures SumOn(s, n, y) == 0
  {
    if n > 0 {
      SumOnNone(s, n - 1, y);
    }
  }

  /** In grouped input, a session that starts a new day has no earlier
      session on its day. */
  lemma NewDayIsFresh(s: seq<Session>, i: nat)
    requires ValidSessions(s) && Grouped(s)
    requires 1 <= i < |s| && !SameDay(s[i - 1], s[i])
    ensures forall j :: 0 <= j < i ==> !SameDay(s[j], s[i])
  {
    forall j | 0 <= j < i - 1
      ensures !SameDay(s[j], s[i])
    {
      assert SameDay(s[j], s[i]) ==> SameDay(s[j], s[i - 1]);
    }
  }

  /** Sessions on the same day write into the same place. */
  lemma SameDayWrite(u: Usage, c: Session, x: Session, v: int)
    requires Valid(c.created) && Valid(x.created) && LengthsMatch(u)
    requires SameDay(c, x)
    ensures Write(u, c, v) == Write(u, x, v)
  {
  }

  /** Adding into a day just written adds to the written value. */
  lemma AddAfterWrite(u: Usage, x: Session, v: int)
    requires Valid(x.created) && LengthsMatch(u)
    ensures Add(Write(u, x, v), x) == Write(u, x, v + x.bytesTransferred)
  {
    var d := x.created.day - 1;
    var w := Write(u, x, v);
    SlotLength(u, x);
    assert Slot(w, x) == Slot(u, x)[d := v];
    assert Slot(w, x)[d] == v;
    assert Slot(u, x)[d := v][d := v + x.bytesTransferred] == Slot(u, x)[d := v + x.bytesTransferred];
    assert w[Key(x) := Slot(w, x)[d := v + x.bytesTransferred]] == u[Key(x) := Slot(u, x)[d := v + x.bytesTransferred]];
  }

  /** Adding into an empty day is writing the bytes there. */
  lemma AddFresh(u: Usage, x: Session)
    requires Valid(x.created) && LengthsMatch(u)
    requires DayOf(u, x) == 0
    ensures Add(u, x) == Write(u, x, x.bytesTransferred)
  {
  }

  /** Writing the running total `daily` into session `i - 1`'s day of `u`
      gives the reference for the first `i` sessions. */
  ghost predicate Represents(s: seq<Session>, i: nat, u: Usage, daily: int)
    requires ValidSessions(s) && 1 <= i <= |s| && LengthsMatch(u)
  {
    Write(u, s[i - 1], daily) == Reference(s, i)
  }

  /** The fold's state after session `i - 1`: flushing now would give
      exactly the reference for the sessions seen so far. */
  ghost predicate Invariant(s: seq<Session>, i: nat, acc: Acc)
    requires ValidSessions(s)
  {
    && 1 <= i <= |s|
    && acc.prev == Some(s[i - 1])
    && LengthsMatch(acc.usage)
    && Represents(s, i, acc.usage, acc.daily)
    && 0 <= acc.daily <= Total(s, i)
  }

  /** A flush: all days seen so far are in place, the new day starts. */
  lemma FlushStep(s: seq<Session>, i: nat, acc: Acc)
    requires ValidSessions(s) && Invariant(s, i, acc) && i < |s|
    requires i == |s| - 1 || !SameDay(s[i - 1], s[i])
    ensures Step(acc, s[i], i == |s| - 1) == Success(Acc(Reference(s, i), s[i].bytesTransferred, Some(s[i])))
    ensures !SameDay(s[i - 1], s[i]) ==>
              Step(acc, s[i], false) == Success(Acc(Reference(s, i), s[i].bytesTransferred, Some(s[i])))
  {
    SlotLength(acc.usage, s[i - 1]);
  }

  /** A new day in grouped input keeps the invariant. */
  lemma NewDayStep(s: seq<Session>, i: nat, acc: Acc)
    requires ValidSessions(s) && Grouped(s) && NonNegative(s) && Total(s, |s|) <= INT64_MAX
    requires Invariant(s, i, acc)
    requires i < |s| && !SameDay(s[i - 1], s[i])
    ensures Invariant(s, i + 1, Acc(Reference(s, i), s[i].bytesTransferred, Some(s[i])))
  {
    var x := s[i];
    var R := Reference(s, i);
    assert DayOf(R, x) == 0 by {
      NewDayIsFresh(s, i);
      SumOnNone(s, i, x);
      ReferenceDay(s, i, x);
    }
    AddFresh(R, x);
    TotalBounds(s, i);
  }

  /** Another session of the same day, before the last, only accumulates. */
  lemma SameDayStep(s: seq<Session>, i: nat, acc: Acc)
    requires ValidSessions(s) && NonNegative(s) && Total(s, |s|) <= INT64_MAX
    requires Invariant(s, i, acc)
    requires i < |s| && SameDay(s[i - 1], s[i])
    ensures Step(acc, s[i], false) == Success(Acc(acc.usage, acc.daily + s[i].bytesTransferred, Some(s[i])))
  {
    TotalBounds(s, i + 1);
  }

  /** The reference for one more session of the same day is the running
      total plus that session, written into the day. */
  lemma SameDayReference(s: seq<Session>, i: nat, u: Usage, daily: int)
    requires ValidSessions(s) && 1 <= i < |s| && SameDay(s[i - 1], s[i]) && LengthsMatch(u)
    requires Represents(s, i, u, daily)
    ensures Represents(s, i + 1, u, daily + s[i].bytesTransferred)
  {
    var c, x := s[i - 1], s[i];
    calc {
      Reference(s, i + 1);
      Add(Reference(s, i), x);
      { SameDayWrite(u, c, x, daily); }
      Add(Write(u, x, daily), x);
      { AddAfterWrite(u, x, daily); }
      Write(u, x, daily + x.bytesTransferred);
    }
    assert Represents(s, i + 1, u, daily + x.bytesTransferred);
  }

  /** Accumulating keeps the invariant. */
  lemma SameDayInvariant(s: seq<Session>, i: nat, acc: Acc)
    requires ValidSessions(s) && NonNegative(s) && Total(s, |s|) <= INT64_MAX
    requires Invariant(s, i, acc)
    requires i < |s| && SameDay(s[i - 1], s[i])
    ensures Invariant(s, i + 1, Acc(acc.usage, acc.daily + s[i].bytesTransferred, Some(s[i])))
  {
    SameDayReference(s, i, acc.usage, acc.daily);
    assert 0 <= s[i].bytesTransferred;
    assert Total(s, i + 1) == Total(s, i) + s[i].bytesTransferred;
  }

  /** The fold after a successful step is the fold from the next index. */
  lemma FoldUnfold(s: seq<Session>, i: nat, acc: Acc, next: Acc)
    requires ValidSessions(s) && i < |s|
    requires acc.prev.Some? ==> Valid(acc.prev.value.created)
    requires next.prev.Some? ==> Valid(next.prev.value.created)
    requires Step(acc, s[i], i == |s| - 1) == Success(next)
    ensures Fold(s, i, acc) == Fold(s, i + 1, next)
  {
  }

  /** The accumulator after the step at `i` in grouped input. */
  ghost function Advanced(s: seq<Session>, i: nat, acc: Acc): Acc
    requires ValidSessions(s) && 1 <= i < |s|
  {
    if i == |s| - 1 || !SameDay(s[i - 1], s[i]) then
      Acc(Reference(s, i), s[i].bytesTransferred, Some(s[i]))
    else
      Acc(acc.usage, acc.daily + s[i].bytesTransferred, Some(s[i]))
  }

  /** One step of the fold in grouped input: it succeeds, and either keeps
      the invariant or, at the last session, leaves the reference of all
      sessions before it. */
  lemma FoldAdvances(s: seq<Session>, i: nat, acc: Acc)
    requires ValidSessions(s) && Grouped(s) && NonNegative(s) && Total(s, |s|) <= INT64_MAX
    requires Invariant(s, i, acc) && i < |s|
    ensures Fold(s, i, acc) == Fold(s, i + 1, Advanced(s, i, acc))
    ensures i < |s| - 1 ==> Invariant(s, i + 1, Advanced(s, i, acc))
    ensures i == |s| - 1 ==> Advanced(s, i, acc).usage == Reference(s, |s| - 1)
  {
    var next := Advanced(s, i, acc);
    if i == |s| - 1 || !SameDay(s[i - 1], s[i]) {
      FlushStep(s, i, acc);
      FoldUnfold(s, i, acc, next);
      if i < |s| - 1 {
        NewDayStep(s, i, acc);
      }
    } else {
      SameDayStep(s, i, acc);
      SameDayInvariant(s, i, acc);
      FoldUnfold(s, i, acc, next);
    }
  }

  /** The fold succeeded with map `u`. */
  predicate Yields(r: Result<Acc, Trap>, u: Usage) {
    r.Success? && r.value.usage == u
  }

  lemma {:induction false} FoldMatchesReference(s: seq<Session>, i: nat, acc: Acc)
    requires ValidSessions(s) && Grouped(s) && NonNegative(s) && Total(s, |s|) <= INT64_MAX
    requires Invariant(s, i, acc) && i < |s|
    ensures Yields(Fold(s, i, acc), Reference(s, |s| - 1))
    decreases |s| - i
  {
    var next := Advanced(s, i, acc);
    FoldAdvances(s, i, acc);
    if i < |s| - 1 {
      FoldMatchesReference(s, i + 1, next);
    } else {
      assert Fold(s, i + 1, next) == Success(next);
    }
  }

  lemma InitialInvariant(s: seq<Session>)
    requires ValidSessions(s) && NonNegative(s) && |s| >= 1
    ensures Invariant(s, 1, Acc(map[], s[0].bytesTransferred, Some(s[0])))
  {
    AddFresh(map[], s[0]);
  }

  /** For input grouped by day (as the stored, date-sorted sessions are) with
      at least two sessions, the fold computes the per-day sums of every
      session but the last: the last one's bytes never reach the map. */
  lemma AggregateMatchesReference(s: seq<Session>)
    requires ValidSessions(s) && Grouped(s) && NonNegative(s) && Total(s, |s|) <= INT64_MAX
    requires |s| >= 2
    ensures Aggregate(s) == Success(Reference(s, |s| - 1))
  {
    var acc := Acc(map[], s[0].bytesTransferred, Some(s[0]));
    assert Step(Start, s[0], false) == Success(acc);
    InitialInvariant(s);
    FoldMatchesReference(s, 1, acc);
  }

  // ------------------------------------------------------------ edge cases

  /** A flush keeps every array as long as its month, so the index
      `prevDay - 1` is always inside the array it writes to. */
  lemma StepKeepsLengths(acc: Acc, x: Session, isLast: bool)
    requires Valid(x.created) && LengthsMatch(acc.usage)
    requires acc.prev.Some? ==> Valid(acc.prev.value.created)
    ensures Step(acc, x, isLast) != Failure(IndexOutOfRange)
    ensures Step(acc, x, isLast).Success? ==> LengthsMatch(Step(acc, x, isLast).value.usage)
  {
    if acc.prev.Some? {
      var p := acc.prev.value;
      SlotLength(acc.usage, p);
      assert LengthsMatch(Write(acc.usage, p, acc.daily));
    }
  }

  lemma {:induction false} FoldKeepsLengths(s: seq<Session>, i: nat, acc: Acc)
    requires ValidSessions(s) && i <= |s| && LengthsMatch(acc.usage)
    requires acc.prev.Some? ==> Valid(acc.prev.value.created)
    ensures Fold(s, i, acc) != Failure(IndexOutOfRange)
    ensures acc.prev.Some? ==> Fold(s, i, acc) != Failure(NilPrevious)
    ensures Fold(s, i, acc).Success? ==> LengthsMatch(Fold(s, i, acc).value.usage)
    decreases |s| - i
  {
    if i < |s| {
      StepKeepsLengths(acc, s[i], i == |s| - 1);
      var r := Step(acc, s[i], i == |s| - 1);
      if r.Success? {
        FoldKeepsLengths(s, i + 1, r.value);
      }
    }
  }

  /** What the fold does for any input: nothing for no sessions, the nil
      unwrap exactly for a single session, never an index outside a month's
      array, and month arrays as long as their months. */
  lemma AggregateOutcomes(s: seq<Session>)
    requires ValidSessions(s)
    ensures |s| == 0 ==> Aggregate(s) == Success(map[])
    ensures Aggregate(s) == Failure(NilPrevious) <==> |s| == 1
    ensures Aggregate(s) != Failure(IndexOutOfRange)
    ensures Aggregate(s).Success? ==> LengthsMatch(Aggregate(s).value)
  {
    if |s| >= 2 {
      var r := Step(Start, s[0], false);
      if r.Success? {
        FoldKeepsLengths(s, 1, r.value);
      }
    }
  }

  /** The last session's bytes are lost: of two sessions on 2 and 1 July
      2021, only the newer one's day is filled in. */
  lemma LastSessionLost()
    ensures Aggregate([Session(Date(2021, 7, 2, 0), 5), Session(Date(2021, 7, 1, 0), 7)])
            == Success(map[YearMonth(2021, 7) := Zeros(31)[1 := 5]])
  {
    var x, y := Session(Date(2021, 7, 2, 0), 5), Session(Date(2021, 7, 1, 0), 7);
    var a1 := Acc(map[], 5, Some(x));
    assert Step(Start, x, false) == Success(a1);
    assert Step(a1, y, true) == Success(Acc(map[YearMonth(2021, 7) := Zeros(31)[1 := 5]], 7, Some(y)));
  }

  // ------------------------------------------------------ the stored order

  /** The stored sessions come newest first. */
  predicate NewestFirst(s: seq<Session>) {
    forall i, j :: 0 <= i < j < |s| ==> AtMost(s[j].created, s[i].created)
  }

  /** Date-sorted input is grouped by day. */
  lemma NewestFirstIsGrouped(s: seq<Session>)
    requires ValidSessions(s) && NewestFirst(s)
    ensures Grouped(s)
  {
    forall a, b, c | 0 <= a < b < c < |s| && SameDay(s[a], s[c])
      ensures SameDay(s[a], s[b])
    {
      assert AtMost(s[c].created, s[b].created) && AtMost(s[b].created, s[a].created);
    }
  }

  /** For the stored order, the window shows the per-day sums of every
      session but the oldest. */
  lemma NewestFirstAggregate(s: seq<Session>)
    requires ValidSessions(s) && NewestFirst(s) && NonNegative(s) && Total(s, |s|) <= INT64_MAX
    requires |s| >= 2
    ensures Aggregate(s) == Success(Reference(s, |s| - 1))
  {
    NewestFirstIsGrouped(s);
    AggregateMatchesReference(s);
  }

  // ----------------------------------------------------- the fold intended

  /** The running total written into the previous session's day, as the
      closure's flush does; nothing to write before any session. */
  function Flush(acc: Acc): (r: Result<Usage, Trap>)
    requires acc.prev.Some? ==> Valid(acc.prev.value.created)
    ensures acc.prev.None? ==> r == Success(acc.usage)
    ensures acc.prev.Some? && LengthsMatch(acc.usage) ==> r == Success(Write(acc.usage, acc.prev.value, acc.daily))
  {
    if acc.prev.None? then Success(acc.usage)
    else
      var p := acc.prev.value;
      assert LengthsMatch(acc.usage) ==> |Slot(acc.usage, p)| == Days(p) == DaysInMonth(p.created.year, p.created.month) by {
        if LengthsMatch(acc.usage) {
          SlotLength(acc.usage, p);
        }
      }
      var slot := Slot(acc.usage, p);
      if !(p.created.day - 1 < |slot|) then Failure(IndexOutOfRange)
      else Success(acc.usage[Key(p) := slot[p.created.day - 1 := acc.daily]])
  }

  /** The `forEach` without the `isLastSession` branch: a day is written only
      when the next day starts. */
  function FixedFold(s: seq<Session>, i: nat, acc: Acc): (r: Result<Acc, Trap>)
    requires ValidSessions(s) && i <= |s|
    requires acc.prev.Some? ==> Valid(acc.prev.value.created)
    ensures r.Success? ==> r.value.prev == if i == |s| then acc.prev else Some(s[|s| - 1])
    decreases |s| - i
  {
    if i == |s| then Success(acc)
    else
      match Step(acc, s[i], false)
      case Failure(t) => Failure(t)
      case Success(acc') => FixedFold(s, i + 1, acc')
  }

  /** The aggregation as evidently intended: the fold over every session,
      then the last day's running total written after the loop. */
  function FixedAggregate(s: seq<Session>): Result<Usage, Trap>
    requires ValidSessions(s)
  {
    match FixedFold(s, 0, Start)
    case Failure(t) => Failure(t)
    case Success(acc) => Flush(acc)
  }

  /** From the invariant, the corrected fold reaches the state from which
      one flush gives the reference of all sessions. */
  lemma {:induction false} FixedFoldMatchesReference(s: seq<Session>, i: nat, acc: Acc)
    requires ValidSessions(s) && Grouped(s) && NonNegative(s) && Total(s, |s|) <= INT64_MAX
    requires Invariant(s, i, acc)
    ensures FixedFold(s, i, acc).Success?
    ensures Invariant(s, |s|, FixedFold(s, i, acc).value)
    decreases |s| - i
  {
    if i < |s| {
      if SameDay(s[i - 1], s[i]) {
        SameDayStep(s, i, acc);
        SameDayInvariant(s, i, acc);
        FixedFoldMatchesReference(s, i + 1, Acc(acc.usage, acc.daily + s[i].bytesTransferred, Some(s[i])));
      } else {
        FlushStep(s, i, acc);
        NewDayStep(s, i, acc);
        FixedFoldMatchesReference(s, i + 1, Acc(Reference(s, i), s[i].bytesTransferred, Some(s[i])));
      }
    }
  }

  /** The corrected aggregation computes the per-day sums of every session,
      the last one included, for any grouped input: none, one or more. */
  lemma FixedAggregateMatchesReference(s: seq<Session>)
    requires ValidSessions(s) && Grouped(s) && NonNegative(s) && Total(s, |s|) <= INT64_MAX
    ensures FixedAggregate(s) == Success(Reference(s, |s|))
  {
    if |s| > 0 {
      var acc := Acc(map[], s[0].bytesTransferred, Some(s[0]));
      assert Step(Start, s[0], false) == Success(acc);
      InitialInvariant(s);
      FixedFoldMatchesReference(s, 1, acc);
    }
  }

  /** Without the `isLastSession` branch the first session never flushes, so
      the `prevYearMonthKey!` unwrap cannot fail, one session included. */
  lemma {:induction false} FixedFoldNeverNil(s: seq<Session>, i: nat, acc: Acc)
    requires ValidSessions(s) && i <= |s|
    requires acc.prev.Some? ==> Valid(acc.prev.value.created)
    ensures FixedFold(s, i, acc) != Failure(NilPrevious)
    decreases |s| - i
  {
    if i < |s| {
      var r := Step(acc, s[i], false);
      if r.Success? {
        FixedFoldNeverNil(s, i + 1, r.value);
      }
    }
  }

  lemma FixedAggregateNeverNil(s: seq<Session>)
    requires ValidSessions(s)
    ensures FixedAggregate(s) != Failure(NilPrevious)
    ensures |s| == 1 ==> FixedAggregate(s) == Success(map[Key(s[0]) := Zeros(Days(s[0]))[s[0].created.day - 1 := s[0].bytesTransferred]])
  {
    FixedFoldNeverNil(s, 0, Start);
    if |s| == 1 {
      SlotLength(map[], s[0]);
      assert Step(Start, s[0], false) == Success(Acc(map[], s[0].bytesTransferred, Some(s[0])));
    }
  }

  /** The two sessions that `LastSessionLost` loses one of are both counted
      by the corrected aggregation. */
  lemma FixedKeepsOldest()
    ensures FixedAggregate([Session(Date(2021, 7, 2, 0), 5), Session(Date(2021, 7, 1, 0), 7)])
            == Success(map[YearMonth(2021, 7) := Zeros(31)[1 := 5][0 := 7]])
  {
    var x, y := Session(Date(2021, 7, 2, 0), 5), Session(Date(2021, 7, 1, 0), 7);
    var a1 := Acc(map[], 5, Some(x));
    var a2 := Acc(map[YearMonth(2021, 7) := Zeros(31)[1 := 5]], 7, Some(y));
    assert Step(Start, x, false) == Success(a1);
    assert Step(a1, y, false) == Success(a2);
    assert FixedFold([x, y], 2, a2) == Success(a2);
    assert FixedFold([x, y], 1, a1) == Success(a2);
    assert FixedFold([x, y], 0, Start) == Success(a2);
    assert Key(y) == YearMonth(2021, 7);
    assert Slot(a2.usage, y) == Zeros(31)[1 := 5];
    assert |Zeros(31)[1 := 5]| == 31;
    assert a2.usage[Key(y) := Zeros(31)[1 := 5][0 := 7]] == map[YearMonth(2021, 7) := Zeros(31)[1 := 5][0 := 7]];
    assert Flush(a2) == Success(map[YearMonth(2021, 7) := Zeros(31)[1 := 5][0 := 7]]);
  }
}
