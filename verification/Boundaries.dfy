/** The time boundaries that windows are aligned to: hours, days, weeks, months and years. */
module Boundaries {
  import opened Calendar
  import opened Wrappers

  const HOUR: int := 3_600_000
  const DAY: int := 86_400_000
  const WEEK: int := 604_800_000

  datatype Unit = Hour | Day | Week | Month | Year

  function UnitOf(timeType: string): Option<Unit> {
    if timeType == "hour" then Some(Hour)
    else if timeType == "day" then Some(Day)
    else if timeType == "week" then Some(Week)
    else if timeType == "month" then Some(Month)
    else if timeType == "year" then Some(Year)
    else None
  }

  /** The number of the month of a time. */
  function MonthAt(t: int): int {
    MonthOf(t / DAY)
  }

  function MonthBegin(k: int): int {
    MonthStart(k) * DAY
  }

  /** The first multiple of a unit after t. */
  function NextMultiple(t: int, unit: int): int
    requires unit > 0
  {
    (t / unit + 1) * unit
  }

  lemma NextMultipleAfter(t: int, unit: int)
    requires unit > 0
    ensures NextMultiple(t, unit) - unit <= t < NextMultiple(t, unit)
  {
    assert NextMultiple(t, unit) == unit * (t / unit) + unit;
    assert t == unit * (t / unit) + t % unit;
  }

  lemma ScaleDays(first: int, t: int, next: int)
    requires first <= t / DAY < next
    ensures first * DAY <= t < next * DAY
  {
    assert t == DAY * (t / DAY) + t % DAY;
  }

  lemma MonthAround(t: int)
    ensures MonthBegin(MonthAt(t)) <= t < MonthBegin(MonthAt(t) + 1)
  {
    ScaleDays(MonthStart(MonthAt(t)), t, MonthStart(MonthAt(t) + 1));
  }

  lemma MonthBeginMonotone(a: int, b: int)
    requires a <= b
    ensures MonthBegin(a) <= MonthBegin(b)
    ensures a < b ==> MonthBegin(a) + HOUR <= MonthBegin(b)
  {
    MonthStartMonotone(a, b);
  }

  /** January of the year that month k lies in. */
  function January(k: int): (m: int)
    ensures m <= k < m + 12 && m % 12 == 0
  {
    12 * (k / 12)
  }

  lemma JanuaryAround(k: int, t: int)
    requires MonthBegin(k) <= t < MonthBegin(k + 1)
    ensures MonthBegin(January(k)) <= t < MonthBegin(January(k) + 12)
  {
    var first := January(k);
    MonthBeginMonotone(first, k);
    MonthBeginMonotone(k + 1, first + 12);
  }

  lemma YearAround(t: int)
    ensures MonthBegin(January(MonthAt(t))) <= t < MonthBegin(January(MonthAt(t)) + 12)
  {
    MonthAround(t);
    JanuaryAround(MonthAt(t), t);
  }

  /** Where weeks end: the differences count them back from the next midnight, the aggregates from the next Sunday. */
  datatype Weeks = FromMidnight | FromSunday

  /** Weeks start on Sunday; day 0, 1 January 1970, was a Thursday. */
  function Weekday(day: int): int {
    (day + 4) % 7
  }

  /** The first Sunday after t. */
  function NextSunday(t: int): int {
    (t / DAY + 7 - Weekday(t / DAY)) * DAY
  }

  lemma SundayAround(t: int)
    ensures NextSunday(t) - WEEK <= t < NextSunday(t)
    ensures NextSunday(t) % DAY == 0 && Weekday(NextSunday(t) / DAY) == 0
  {
    var day := t / DAY;
    assert t == DAY * day + t % DAY;
    assert 0 <= Weekday(day) < 7;
    assert NextSunday(t) / DAY == day + 7 - Weekday(day);
  }

  /** The aligned end of a range: the next boundary after it. */
  function AlignedEnd(weeks: Weeks, unit: Unit, end: int): int {
    match unit
    case Hour => NextMultiple(end, HOUR)
    case Day => NextMultiple(end, DAY)
    case Week => if weeks == FromSunday then NextSunday(end) else NextMultiple(end, DAY)
    case Month => MonthBegin(MonthAt(end) + 1)
    case Year => MonthBegin(January(MonthAt(end)) + 12)
  }

  /** The month that begins at the aligned end of month and year windows. */
  function AlignedMonth(unit: Unit, end: int): int {
    if unit == Year then January(MonthAt(end)) + 12 else MonthAt(end) + 1
  }

  /** The end of the i-th window counted back from an aligned end: fixed steps for hours, days and weeks, calendar steps
      from the first of a month or year otherwise. */
  function StepBack(unit: Unit, aligned: int, month: int, i: int): int {
    match unit
    case Hour => aligned - i * HOUR
    case Day => aligned - i * DAY
    case Week => aligned - i * WEEK
    case Month => MonthBegin(month - i)
    case Year => MonthBegin(month - 12 * i)
  }

  lemma StepBackFalls(unit: Unit, aligned: int, month: int, i: int)
    ensures StepBack(unit, aligned, month, i + 1) + HOUR <= StepBack(unit, aligned, month, i)
  {
    match unit
    case Hour =>
    case Day =>
    case Week =>
    case Month => MonthBeginMonotone(month - i - 1, month - i);
    case Year => MonthBeginMonotone(month - 12 * i - 12, month - 12 * i);
  }

  lemma {:induction false} StepsBackFall(unit: Unit, aligned: int, month: int, i: int, j: int)
    requires i < j
    ensures StepBack(unit, aligned, month, j) < StepBack(unit, aligned, month, i)
    decreases j - i
  {
    StepBackFalls(unit, aligned, month, j - 1);
    if i < j - 1 {
      StepsBackFall(unit, aligned, month, i, j - 1);
    }
  }

  function WindowEnd(weeks: Weeks, unit: Unit, end: int, i: int): int {
    StepBack(unit, AlignedEnd(weeks, unit, end), AlignedMonth(unit, end), i)
  }

  /** The ends of the n newest windows, and the begin of the oldest of them. */
  function Ends(weeks: Weeks, unit: Unit, end: int, n: nat): (ends: seq<int>)
    ensures |ends| == n + 1
  {
    seq(n + 1, i => WindowEnd(weeks, unit, end, i))
  }

  ghost predicate Falling(ends: seq<int>) {
    forall i, j :: 0 <= i < j < |ends| ==> ends[j] < ends[i]
  }

  lemma EndsFall(weeks: Weeks, unit: Unit, end: int, n: nat)
    ensures Falling(Ends(weeks, unit, end, n))
  {
    var ends := Ends(weeks, unit, end, n);
    forall i, j | 0 <= i < j < |ends| ensures ends[j] < ends[i] {
      StepsBackFall(unit, AlignedEnd(weeks, unit, end), AlignedMonth(unit, end), i, j);
    }
  }

  /** The newest window holds the end of the range. */
  lemma EndInNewestWindow(weeks: Weeks, unit: Unit, end: int)
    ensures WindowEnd(weeks, unit, end, 1) <= end < WindowEnd(weeks, unit, end, 0) == AlignedEnd(weeks, unit, end)
  {
    match unit
    case Hour => NextMultipleAfter(end, HOUR);
    case Day => NextMultipleAfter(end, DAY);
    case Week =>
      NextMultipleAfter(end, DAY);
      SundayAround(end);
    case Month => MonthAround(end);
    case Year => YearAround(end);
  }

  // --------------------------------------------------------------------------------------------------- calendar steps

  /** AddDate(0, n, 0): the same day and time of the n-th month after, running over into the month after that when it is
      too short. */
  function AddMonths(t: int, n: int): int {
    MonthBegin(MonthAt(t) + n) + (t - MonthBegin(MonthAt(t)))
  }

  lemma FirstOfMonth(k: int)
    ensures MonthAt(MonthBegin(k)) == k
  {
    MonthStep(k);
    MonthOfIsUnique(MonthStart(k), k);
    assert MonthBegin(k) / DAY == MonthStart(k);
  }

  lemma AddMonthsToFirst(k: int, n: int)
    ensures AddMonths(MonthBegin(k), n) == MonthBegin(k + n)
  {
    FirstOfMonth(k);
  }

  /** n units after t: durations for hours, days and weeks, calendar steps for months and years. */
  function StepFrom(unit: Unit, t: int, n: int): int {
    match unit
    case Hour => t + n * HOUR
    case Day => t + n * DAY
    case Week => t + n * WEEK
    case Month => AddMonths(t, n)
    case Year => AddMonths(t, 12 * n)
  }

  /** Steps between boundaries, of whatever unit and wherever they start, land on boundaries. */
  lemma StepFromBoundary(unit: Unit, aligned: int, month: int, i: int, n: int)
    ensures StepFrom(unit, StepBack(unit, aligned, month, i), -n) == StepBack(unit, aligned, month, i + n)
  {
    match unit
    case Hour => assert -n * HOUR == -(n * HOUR) && (i + n) * HOUR == i * HOUR + n * HOUR;
    case Day => assert -n * DAY == -(n * DAY) && (i + n) * DAY == i * DAY + n * DAY;
    case Week => assert -n * WEEK == -(n * WEEK) && (i + n) * WEEK == i * WEEK + n * WEEK;
    case Month => AddMonthsToFirst(month - i, -n);
    case Year => AddMonthsToFirst(month - 12 * i, -12 * n);
  }

  lemma WindowSteps(weeks: Weeks, unit: Unit, end: int, i: int)
    ensures StepFrom(unit, AlignedEnd(weeks, unit, end), -i) == WindowEnd(weeks, unit, end, i)
    ensures StepFrom(unit, WindowEnd(weeks, unit, end, i), -1) == WindowEnd(weeks, unit, end, i + 1)
  {
    EndInNewestWindow(weeks, unit, end);
    StepFromBoundary(unit, AlignedEnd(weeks, unit, end), AlignedMonth(unit, end), 0, i);
    StepFromBoundary(unit, AlignedEnd(weeks, unit, end), AlignedMonth(unit, end), i, 1);
  }

  /** The i-th window as both generators compute it: its end by one step from the aligned end, its begin by one step of
      one unit from its end. They land on consecutive boundaries. */
  method WindowAt(weeks: Weeks, unit: Unit, end: int, aligned: int, i: int) returns (windowEnd: int, windowStart: int)
    requires aligned == AlignedEnd(weeks, unit, end)
    ensures windowEnd == WindowEnd(weeks, unit, end, i) && windowStart == WindowEnd(weeks, unit, end, i + 1)
  {
    WindowSteps(weeks, unit, end, i);
    windowEnd := StepFrom(unit, aligned, -i);
    windowStart := StepFrom(unit, windowEnd, -1);
  }
}
