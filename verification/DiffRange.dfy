/** getDiffData as a whole: which windows a time unit gives, how many are generated, and when they cover the range. */
module DiffRange {
  import opened Telemetry
  import opened Wrappers
  import opened Boundaries
  import opened Calendar
  import opened DiffWindows

  const MAX_WINDOWS: int := 100

  /** The length that the window count is estimated with: 30 days a month and 365 days a year. */
  function Estimate(unit: Unit): (length: int)
    ensures length > 0
  {
    match unit
    case Hour => HOUR
    case Day => DAY
    case Week => WEEK
    case Month => 2_592_000_000
    case Year => 31_536_000_000
  }

  function WindowCount(unit: Unit, start: int, end: int): int {
    Truncate(AlignedEnd(FromMidnight, unit, end) - start, Estimate(unit)) + 1
  }

  /** The number of windows generated. */
  function Generated(unit: Unit, start: int, end: int): nat {
    var count := WindowCount(unit, start, end);
    if count > MAX_WINDOWS then MAX_WINDOWS else if count < 0 then 0 else count
  }

  function DiffData(rows: seq<Sample>, unit: Unit, start: int, end: int): seq<DiffPoint> {
    var n := Generated(unit, start, end);
    DiffPoints(ValuesOf(rows), Ends(FromMidnight, unit, end, n), start, end, n)
  }

  method GetDiffData(rows: seq<Sample>, start: int, end: int, timeType: string) returns (result: Result<seq<DiffPoint>>)
    ensures result.Failure? <==> UnitOf(timeType).None?
    ensures result.Success? ==> result.value == DiffData(rows, UnitOf(timeType).value, start, end)
  {
    var unit := UnitOf(timeType);
    if unit.None? {
      return Failure("unsupported time type: " + timeType);
    }
    var results := CollectDiffs(rows, start, end, unit.value);
    return Success(results);
  }

  /** The body of the window loop: skip a window outside the range, clip it, and take its difference. */
  method WindowPoint(rows: seq<Sample>, windowStart: int, windowEnd: int, start: int, end: int)
    returns (points: seq<DiffPoint>)
    ensures points == Contribution(ValuesOf(rows), windowStart, windowEnd, start, end)
  {
    if windowEnd <= start || windowStart >= end {
      return [];
    }
    var actualStart, actualEnd := windowStart, windowEnd;
    if actualStart < start {
      actualStart := start;
    }
    if actualEnd > end {
      actualEnd := end;
    }
    var diffValue := DiffValue(rows, actualStart, actualEnd);
    points := if diffValue.Some? then [DiffPoint(windowStart, diffValue.value)] else [];
  }

  /** The number of windows that the loop makes: at least one and at most 100, no more than reach the start, and enough
      to reach it in estimated lengths unless there are 100. */
  method LimitedCount(unit: Unit, start: int, end: int) returns (windowCount: nat)
    ensures windowCount == Generated(unit, start, end) <= MAX_WINDOWS
    ensures var distance := AlignedEnd(FromMidnight, unit, end) - start;
            start <= end ==>
              && windowCount >= 1 && (windowCount - 1) * Estimate(unit) <= distance
              && (distance < windowCount * Estimate(unit) || windowCount == MAX_WINDOWS)
  {
    var count := WindowCount(unit, start, end);
    if start <= end {
      CountBounds(unit, start, end);
      if count > MAX_WINDOWS { FewerLengths(MAX_WINDOWS - 1, count - 1, Estimate(unit)); }
    }
    if count > MAX_WINDOWS {
      count := MAX_WINDOWS;
    }
    windowCount := if count < 0 then 0 else count;
  }

  lemma FewerLengths(a: int, b: int, length: int)
    requires a <= b && length > 0
    ensures a * length <= b * length
  {
  }

  /** The window loop of getDiffData. */
  method CollectPoints(rows: seq<Sample>, start: int, end: int, unit: Unit, windowCount: nat)
    returns (results: seq<DiffPoint>)
    ensures results == NewestFirst(ValuesOf(rows), Ends(FromMidnight, unit, end, windowCount), start, end, windowCount)
  {
    var alignedEnd := AlignedEnd(FromMidnight, unit, end);
    ghost var ends := Ends(FromMidnight, unit, end, windowCount);
    results := [];
    for i := 0 to windowCount
      invariant results == NewestFirst(ValuesOf(rows), ends, start, end, i)
    {
      var windowEnd, windowStart := WindowAt(FromMidnight, unit, end, alignedEnd, i);
      assert windowEnd == ends[i] && windowStart == ends[i + 1];
      var points := WindowPoint(rows, windowStart, windowEnd, start, end);
      results := results + points;
    }
  }

  /** The loop and the sort after it. */
  method CollectDiffs(rows: seq<Sample>, start: int, end: int, unit: Unit) returns (results: seq<DiffPoint>)
    ensures results == DiffData(rows, unit, start, end)
  {
    var n := LimitedCount(unit, start, end);
    results := CollectPoints(rows, start, end, unit, n);
    EndsFall(FromMidnight, unit, end, n);
    SortReverses(ValuesOf(rows), Ends(FromMidnight, unit, end, n), start, end, n);
    results := SortPoints(results);
  }

  // ---------------------------------------------------------------------------------------------------- the boundaries

  lemma DivBounds(a: int, b: int)
    requires a >= 0 && b > 0
    ensures a / b >= 0
    ensures (a / b) * b <= a < (a / b + 1) * b
  {
    assert a == b * (a / b) + a % b;
    assert (a / b + 1) * b == (a / b) * b + b;
  }

  /** The count is the least number of estimated lengths longer than the aligned range. */
  lemma CountBounds(unit: Unit, start: int, end: int)
    requires start <= end
    ensures var n := WindowCount(unit, start, end);
            n >= 1 && (n - 1) * Estimate(unit) <= AlignedEnd(FromMidnight, unit, end) - start < n * Estimate(unit)
  {
    EndInNewestWindow(FromMidnight, unit, end);
    DivBounds(AlignedEnd(FromMidnight, unit, end) - start, Estimate(unit));
  }

  lemma EndsAround(unit: Unit, start: int, end: int)
    requires start <= end
    ensures var n := Generated(unit, start, end);
            var ends := Ends(FromMidnight, unit, end, n);
            n >= 1 && Falling(ends) && ends[1] <= end < ends[0]
  {
    CountBounds(unit, start, end);
    EndsFall(FromMidnight, unit, end, Generated(unit, start, end));
    EndInNewestWindow(FromMidnight, unit, end);
  }

  // ------------------------------------------------------------------------------------------- which range is covered

  /** The kept windows of a call, clipped to the range, in time order. */
  function Kept(unit: Unit, start: int, end: int): seq<Window> {
    var n := Generated(unit, start, end);
    KeptWindows(Ends(FromMidnight, unit, end, n), start, end, n)
  }

  lemma ReachIffCovered(unit: Unit, start: int, end: int)
    requires start < end
    ensures Tiles(Kept(unit, start, end), start, end) <==> WindowEnd(FromMidnight, unit, end,
                                                                     Generated(unit, start, end)) <= start
  {
    var n := Generated(unit, start, end);
    EndsAround(unit, start, end);
    CoversIffReaches(Ends(FromMidnight, unit, end, n), start, end, n);
  }

  lemma FixedWindowsReach(unit: Unit, start: int, end: int)
    requires unit == Hour || unit == Day || unit == Week
    requires start <= end && WindowCount(unit, start, end) <= MAX_WINDOWS
    ensures WindowEnd(FromMidnight, unit, end, Generated(unit, start, end)) <= start
  {
    CountBounds(unit, start, end);
  }

  lemma YearWindowsReach(start: int, end: int)
    requires start <= end && WindowCount(Year, start, end) <= MAX_WINDOWS
    ensures WindowEnd(FromMidnight, Year, end, Generated(Year, start, end)) <= start
  {
    CountBounds(Year, start, end);
    var n, next := WindowCount(Year, start, end), January(MonthAt(end)) + 12;
    YearsBack(next, n);
    assert MonthBegin(next) - start < n * 31_536_000_000;
  }

  /** n years are no shorter than n times 365 days. */
  lemma YearsBack(january: int, n: nat)
    requires january % 12 == 0
    ensures MonthBegin(january) - MonthBegin(january - 12 * n) >= n * 31_536_000_000
  {
    assert january == 12 * (january / 12);
    YearsLength(january / 12 - n, n);
    DaysToMillis(MonthStart(january), MonthStart(january - 12 * n), n);
  }

  lemma DaysToMillis(later: int, earlier: int, n: nat)
    requires later - earlier >= 365 * n
    ensures later * DAY - earlier * DAY >= n * 31_536_000_000
  {
  }

  /** Main result for hours, days, weeks and years: without the cap the kept windows tile the whole range. */
  lemma UncappedWindowsTile(unit: Unit, start: int, end: int)
    requires unit != Month && start < end && WindowCount(unit, start, end) <= MAX_WINDOWS
    ensures Tiles(Kept(unit, start, end), start, end)
  {
    if unit == Year {
      YearWindowsReach(start, end);
    } else {
      FixedWindowsReach(unit, start, end);
    }
    ReachIffCovered(unit, start, end);
  }

  /** With the cap they tile the range from the later of the start and the 100th window's begin. */
  lemma CappedWindowsTile(unit: Unit, start: int, end: int)
    requires start < end && WindowCount(unit, start, end) > MAX_WINDOWS
    ensures Generated(unit, start, end) == 100
    ensures Tiles(Kept(unit, start, end), Later(WindowEnd(FromMidnight, unit, end, 100), start), end)
  {
    EndsAround(unit, start, end);
    KeptWindowsTile(Ends(FromMidnight, unit, end, 100), start, end, 100);
  }

  /** A range of a single instant is covered exactly when the instant is not itself a window boundary. */
  lemma InstantIsCovered(unit: Unit, t: int)
    ensures Tiles(Kept(unit, t, t), t, t) <==> WindowEnd(FromMidnight, unit, t, 1) != t
  {
    EndsAround(unit, t, t);
    InstantCoverage(Ends(FromMidnight, unit, t, Generated(unit, t, t)), t, Generated(unit, t, t));
  }

  /** At midnight of 1 January 1970 hour windows leave the instant out. */
  lemma InstantExample()
    ensures !Tiles(Kept(Hour, 0, 0), 0, 0)
  {
    assert WindowEnd(FromMidnight, Hour, 0, 1) == 0;
    InstantIsCovered(Hour, 0);
  }

  // -------------------------------------------------------------------------------------------- months against 30 days

  /** The ranges whose month count comes out one too small. February is shorter than 30 days, and outside leap years
      January and February are shorter than 60, February and March too, and February to April are shorter than 90. The
      start lies before such a run of months that ends with the range, but within its estimated length. */
  predicate MonthGap(start: int, end: int) {
    var k := MonthAt(end);
    var length := MonthBegin(k + 1) - start;
    || (k % 12 == 1 && start < MonthBegin(k) && length < 30 * DAY)
    || (!IsLeap(k / 12) && (k % 12 == 1 || k % 12 == 2) && start < MonthBegin(k - 1) && length < 60 * DAY)
    || (!IsLeap(k / 12) && k % 12 == 3 && start < MonthBegin(k - 2) && length < 90 * DAY)
  }

  lemma LongerThanDays(later: int, earlier: int, n: nat)
    requires 1 <= n <= 3 && later - earlier >= 28 * n
    ensures later * DAY - earlier * DAY > (n - 1) * 2_592_000_000
  {
    assert later * DAY - earlier * DAY == (later - earlier) * DAY;
  }

  /** Up to three months are longer than 30 days for all of them but one. */
  lemma RunLength(k: int, n: nat)
    requires 1 <= n <= 3
    ensures MonthBegin(k + 1) - MonthBegin(k + 1 - n) > (n - 1) * Estimate(Month)
  {
    MonthStartMonotone(k + 1 - n, k + 1);
    LongerThanDays(MonthStart(k + 1), MonthStart(k + 1 - n), n);
  }

  lemma CountIs(count: int, n: int, length: int, distance: int)
    requires length > 0 && (count - 1) * length <= distance < count * length
    requires (n - 1) * length <= distance < n * length
    ensures count == n
  {
    if count < n { FewerLengths(count, n - 1, length); }
    if n < count { FewerLengths(n, count - 1, length); }
  }

  /** The count n for a start before a run of n months and within n times 30 days. */
  lemma CountOfRun(k: int, n: nat, start: int, end: int)
    requires 1 <= n <= 3 && start <= end && k == MonthAt(end)
    requires start < MonthBegin(k + 1 - n) && MonthBegin(k + 1) - start < n * Estimate(Month)
    ensures WindowCount(Month, start, end) == n
  {
    CountBounds(Month, start, end);
    RunLength(k, n);
    CountIs(WindowCount(Month, start, end), n, Estimate(Month), MonthBegin(k + 1) - start);
  }

  lemma MonthBefore(k: int, n: int)
    requires 0 <= n <= k % 12
    ensures (k - n) / 12 == k / 12 && (k - n) % 12 == k % 12 - n
  {
    assert k - n == 12 * (k / 12) + (k % 12 - n);
  }

  lemma MonthAfter(a: int, n: int)
    requires 0 <= n && a % 12 + n < 12
    ensures (a + n) / 12 == a / 12 && (a + n) % 12 == a % 12 + n
  {
    assert a + n == 12 * (a / 12) + (a % 12 + n);
  }

  lemma GapIfShortRun(start: int, end: int)
    requires start < end && MonthGap(start, end)
    ensures var k, n := MonthAt(end), WindowCount(Month, start, end);
            n >= 1 && start < MonthBegin(k + 1 - n)
  {
    var k := MonthAt(end);
    var length := MonthBegin(k + 1) - start;
    if k % 12 == 1 && start < MonthBegin(k) && length < 30 * DAY {
      CountOfRun(k, 1, start, end);
    } else if start < MonthBegin(k - 1) && length < 60 * DAY {
      CountOfRun(k, 2, start, end);
    } else {
      CountOfRun(k, 3, start, end);
    }
  }

  lemma ShortRunIfGap(start: int, end: int)
    requires start < end
    requires var k, n := MonthAt(end), WindowCount(Month, start, end); n >= 1 && start < MonthBegin(k + 1 - n)
    ensures MonthGap(start, end)
  {
    var k, n := MonthAt(end), WindowCount(Month, start, end);
    var a := k + 1 - n;
    CountBounds(Month, start, end);
    assert MonthBegin(k + 1) - start < n * 2_592_000_000;
    RunIsShort(MonthStart(k + 1), MonthStart(a), start, n);
    ShortRuns(a, k + 1);
    MonthAfter(a, n - 1);
  }

  lemma RunIsShort(later: int, earlier: int, start: int, n: nat)
    requires start < earlier * DAY && later * DAY - start < n * 2_592_000_000
    ensures later - earlier < 30 * n
  {
  }

  lemma GapIffLate(start: int, end: int)
    requires start < end
    ensures MonthGap(start, end) <==> start < MonthBegin(MonthAt(end) + 1 - WindowCount(Month, start, end))
  {
    CountBounds(Month, start, end);
    if MonthGap(start, end) {
      GapIfShortRun(start, end);
    } else if start < MonthBegin(MonthAt(end) + 1 - WindowCount(Month, start, end)) {
      ShortRunIfGap(start, end);
    }
  }

  /** Main result for months: without the cap the windows tile the whole range exactly when there is no month gap. */
  lemma MonthWindowsTile(start: int, end: int)
    requires start < end && WindowCount(Month, start, end) <= MAX_WINDOWS
    ensures Tiles(Kept(Month, start, end), start, end) <==> !MonthGap(start, end)
  {
    CountBounds(Month, start, end);
    ReachIffCovered(Month, start, end);
    GapIffLate(start, end);
  }

  lemma FebruaryAndMarch(k: int)
    requires k % 12 == 2 && !IsLeap(k / 12)
    ensures MonthBegin(k) == MonthBegin(k - 1) + 28 * DAY && MonthBegin(k + 1) == MonthBegin(k) + 31 * DAY
  {
    MonthBefore(k, 1);
    MonthStep(k);
    MonthStep(k - 1);
  }

  /** A gap that callers meet: one month back from noon on 2 March (a "now" at that time) reaches 31 January, but the
      two windows begin on 1 February, in 2023 and in every year that is not a leap year. */
  lemma MonthGapExample(march: int, start: int, end: int)
    requires march % 12 == 2 && !IsLeap(march / 12)
    requires end == MonthBegin(march) + DAY + DAY / 2 && start == end - 30 * DAY
    ensures MonthGap(start, end) && WindowCount(Month, start, end) == 2
    ensures !Tiles(Kept(Month, start, end), start, end)
  {
    FebruaryAndMarch(march);
    SecondOfMonth(march, end);
    CountOfRun(march, 2, start, end);
    MonthWindowsTile(start, end);
  }

  lemma SecondOfMonth(k: int, t: int)
    requires t == MonthBegin(k) + DAY + DAY / 2
    ensures MonthAt(t) == k
  {
    MonthStep(k);
    assert t / DAY == MonthStart(k) + 1;
    MonthOfIsUnique(t / DAY, k);
  }

  // ----------------------------------------------------------------------------------------------------- main results

  /** Whatever the unit and the count, points come out in strictly increasing time order. */
  lemma PointsIncrease(rows: seq<Sample>, unit: Unit, start: int, end: int)
    ensures Increasing(DiffData(rows, unit, start, end))
  {
    var n := Generated(unit, start, end);
    EndsFall(FromMidnight, unit, end, n);
    TimestampsIncrease(ValuesOf(rows), Ends(FromMidnight, unit, end, n), start, end, n);
  }

  /** Without the cap the kept windows hold exactly the instants of the range. */
  lemma KeptWindowsHoldRange(unit: Unit, start: int, end: int, t: int)
    requires start < end && WindowCount(unit, start, end) <= MAX_WINDOWS && (unit == Month ==> !MonthGap(start, end))
    ensures var ws := Kept(unit, start, end);
            Within(t, start, end) <==> exists i :: 0 <= i < |ws| && Within(t, ws[i].lo, ws[i].hi)
  {
    if unit == Month { MonthWindowsTile(start, end); } else { UncappedWindowsTile(unit, start, end); }
    TilesCover(Kept(unit, start, end), start, end, t);
  }

  /** Without the cap, and with a sample on every boundary between two windows, the emitted differences add up to the
      newest minus the oldest value of the range: hours, days, weeks and years always, months unless there is a gap. */
  lemma DiffDataTelescopes(rows: seq<Sample>, unit: Unit, start: int, end: int)
    requires start < end && WindowCount(unit, start, end) <= MAX_WINDOWS && (unit == Month ==> !MonthGap(start, end))
    requires UniqueTimes(rows) && AllNumeric(rows) && SampleIn(rows, start, end)
    requires BoundariesSampled(rows, Kept(unit, start, end))
    ensures SumValues(DiffData(rows, unit, start, end)) == Change(rows, start, end)
  {
    var n := Generated(unit, start, end);
    if unit == Month { MonthWindowsTile(start, end); } else { UncappedWindowsTile(unit, start, end); }
    PointsTelescope(rows, Ends(FromMidnight, unit, end, n), start, end, n, start);
  }

  /** With the cap they add up to the change over the range that the 100 windows reach. */
  lemma CappedDiffDataTelescopes(rows: seq<Sample>, unit: Unit, start: int, end: int)
    requires start < end && WindowCount(unit, start, end) > MAX_WINDOWS
    requires var lo := Later(WindowEnd(FromMidnight, unit, end, 100), start);
             UniqueTimes(rows) && AllNumeric(rows) && SampleIn(rows, lo, end)
    requires BoundariesSampled(rows, Kept(unit, start, end))
    ensures var lo := Later(WindowEnd(FromMidnight, unit, end, 100), start);
            SumValues(DiffData(rows, unit, start, end)) == Change(rows, lo, end)
  {
    CappedWindowsTile(unit, start, end);
    var lo := Later(WindowEnd(FromMidnight, unit, end, 100), start);
    PointsTelescope(rows, Ends(FromMidnight, unit, end, 100), start, end, 100, lo);
  }
}
