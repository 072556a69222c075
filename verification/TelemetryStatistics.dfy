/** The statistics entry point (GetTelemetryStatisticDataByDeviceIds): it asks for the last n hours, days, weeks, months
  * or years of every device and key, months taken as 30 days and years as 365. What it then gets depends on where the
  * windows of the two generators begin. */
module TelemetryStatistics {
  import opened AggregateWindows
  import opened Boundaries
  import opened Calendar
  import opened DiffRange
  import opened DiffWindows
  import opened Telemetry
  import opened Wrappers

  datatype Series = Series(device: string, key: string)

  datatype Data = Count(count: nat) | Diffs(diffs: seq<DiffPoint>) | Aggregates(aggregates: seq<AggPoint>)

  datatype Entry = Entry(series: Series, data: Data)

  /** The rows of a device and key; none when there are no such rows. */
  function RowsOf(table: map<Series, seq<Sample>>, series: Series): seq<Sample> {
    if series in table then table[series] else []
  }

  /** getDataCount */
  function CountWithin(rows: seq<Sample>, start: int, end: int): nat {
    if rows == [] then 0 else CountWithin(rows[1..], start, end) + if Within(rows[0].ts, start, end) then 1 else 0
  }

  function StartTime(unit: Unit, end: int, n: nat): int {
    end - n * Estimate(unit)
  }

  /** What one device and key contribute; an unknown aggregate gives an error that is logged and skipped. */
  function EntryOf(table: map<Series, seq<Sample>>, series: Series, unit: Unit, start: int, end: int,
                   limit: Option<int>,
                   aggregateMethod: string): seq<Entry>
  {
    var rows := RowsOf(table, series);
    if aggregateMethod == "count" then [Entry(series, Count(CountWithin(rows, start, end)))]
    else if aggregateMethod == "diff" then [Entry(series, Diffs(DiffData(rows, unit, start, end)))]
    else if OpOf(aggregateMethod).None? then []
    else [Entry(series, Aggregates(Points(OpOf(aggregateMethod).value, rows,
                                          Windows(Some(unit), start, end, ActualLimit(limit)))))]
  }

  /** The entries of the first n pairs, in order. */
  function Entries(table: map<Series, seq<Sample>>, deviceIds: seq<string>, keys: seq<string>, unit: Unit, end: int,
                   limit: Option<int>, aggregateMethod: string, n: nat): seq<Entry>
    requires n <= |deviceIds| == |keys|
  {
    if n == 0 then [] else
      Entries(table, deviceIds, keys, unit, end, limit, aggregateMethod, n - 1) +
      EntryOf(table, Series(deviceIds[n - 1], keys[n - 1]), unit, StartTime(unit, end, ActualLimit(limit)), end, limit,
              aggregateMethod)
  }

  method GetTelemetryStatisticDataByDeviceIds(table: map<Series, seq<Sample>>, deviceIds: seq<string>,
                                              keys: seq<string>,
                                              timeType: string, limit: Option<int>, aggregateMethod: string, now: int)
    returns (result: Result<seq<Entry>>)
    ensures result.Failure? <==> |deviceIds| != |keys| || UnitOf(timeType).None?
    ensures result.Success? ==>
              result.value == Entries(table, deviceIds, keys, UnitOf(timeType).value, now, limit, aggregateMethod,
                                      |keys|)
  {
    if |deviceIds| != |keys| {
      return Failure("device ids and keys do not match");
    }
    if UnitOf(timeType).None? {
      return Failure("unsupported time type: " + timeType);
    }
    var unit := UnitOf(timeType).value;
    var start := StartTime(unit, now, ActualLimit(limit));
    var results: seq<Entry> := [];
    for i := 0 to |deviceIds|
      invariant results == Entries(table, deviceIds, keys, unit, now, limit, aggregateMethod, i)
    {
      var series := Series(deviceIds[i], keys[i]);
      var rows := RowsOf(table, series);
      if aggregateMethod == "count" {
        results := results + [Entry(series, Count(CountWithin(rows, start, now)))];
      } else if aggregateMethod == "diff" {
        var diffData := GetDiffData(rows, start, now, timeType);
        if diffData.Success? {
          results := results + [Entry(series, Diffs(diffData.value))];
        }
      } else {
        var aggregated := GetAggregatedDataWithTime(rows, start, now, aggregateMethod, limit, timeType);
        if aggregated.Success? {
          results := results + [Entry(series, Aggregates(aggregated.value))];
        }
      }
    }
    return Success(results);
  }

  // ------------------------------------------------------------------------------------- aggregates against the range

  /** Every instant from the start on lies in a window of the aggregates. */
  ghost predicate AggregatesCover(unit: Unit, end: int, n: nat)
    requires n >= 1
  {
    var start := StartTime(unit, end, n);
    forall t :: Within(t, start, end) ==> Held(Windows(Some(unit), start, end, n), t)
  }

  lemma AggregatesCoverIff(unit: Unit, end: int, n: nat)
    requires n >= 1
    ensures AggregatesCover(unit, end, n) <==> WindowEnd(FromSunday, unit, end, n) <= StartTime(unit, end, n)
  {
    assert n * Estimate(unit) >= 0;
    UnitWindowsHoldRangeIff(unit, StartTime(unit, end, n), end, n);
  }

  /** Aggregates of hours, days and weeks always leave out the oldest part of the range asked for: their windows end
      after now and are no longer than the range. */
  lemma OldestPartIsLeftOut(unit: Unit, end: int, n: nat)
    requires n >= 1 && (unit == Hour || unit == Day || unit == Week)
    ensures !AggregatesCover(unit, end, n)
  {
    EndInNewestWindow(FromSunday, unit, end);
    AggregatesCoverIff(unit, end, n);
  }

  lemma MonthsReach(end: int, n: nat)
    requires n >= 1
    ensures var next := MonthAt(end) + 1;
            AggregatesCover(Month, end, n) <==>
            MonthBegin(next) - end <= (MonthStart(next) - MonthStart(next - n) - 30 * n) * DAY
  {
    var next := MonthAt(end) + 1;
    AggregatesCoverIff(Month, end, n);
    InDays(MonthStart(next), MonthStart(next - n), 30 * n);
    assert n * 2_592_000_000 == 30 * n * DAY;
  }

  /** Months cover the range exactly when their days beyond 30 each are no less than what is left of the current
      month. */
  lemma MonthsCoverIff(end: int, n: nat)
    requires n >= 1
    ensures var next := MonthAt(end) + 1;
            AggregatesCover(Month, end, n) <==> MonthBegin(next) - end <= DaysBeyondThirty(next - n, next) * DAY
  {
    MonthsReach(end, n);
    LengthOfMonths(MonthAt(end) + 1 - n, MonthAt(end) + 1);
  }

  /** One month covers its 30 days exactly on the 31st. */
  lemma OneMonthCoversIff(end: int)
    ensures AggregatesCover(Month, end, 1) <==> end >= MonthBegin(MonthAt(end)) + 30 * DAY
  {
    MonthsReach(end, 1);
    MonthStep(MonthAt(end));
    MonthAround(end);
  }

  /** Years cover the range exactly when the leap days among them are no less than what is left of the current year. */
  lemma YearsCoverIff(end: int, n: nat)
    requires n >= 1
    ensures var next := January(MonthAt(end)) / 12 + 1;
            AggregatesCover(Year, end, n) <==> MonthBegin(12 * next) - end <= LeapYears(next - n, n) * DAY
  {
    var next := January(MonthAt(end)) / 12 + 1;
    assert AlignedMonth(Year, end) == 12 * next;
    AggregatesCoverIff(Year, end, n);
    YearsInDays(next, n);
  }

  lemma YearsInDays(next: int, n: nat)
    ensures MonthBegin(12 * next) - MonthBegin(12 * next - 12 * n) == n * Estimate(Year) + LeapYears(next - n, n) * DAY
  {
    YearsLength(next - n, n);
    assert 12 * (next - n) == 12 * next - 12 * n;
    InDays(MonthStart(12 * next), MonthStart(12 * (next - n)), 365 * n);
  }

  lemma InDays(later: int, earlier: int, days: int)
    ensures (later - earlier - days) * DAY == later * DAY - earlier * DAY - days * DAY
  {
  }

  // ------------------------------------------------------------------------------------- differences against the range

  /** For every unit and limit: without the cap on the windows the differences cover the range asked for, months unless
      there is a gap; with it exactly when 100 windows reach its start. */
  lemma DiffsCoverIff(unit: Unit, end: int, n: nat)
    requires n >= 1
    ensures var start := StartTime(unit, end, n);
            Tiles(Kept(unit, start, end), start, end) <==>
            if WindowCount(unit, start, end) <= MAX_WINDOWS then unit != Month || !MonthGap(start, end)
            else WindowEnd(FromMidnight, unit, end, MAX_WINDOWS) <= start
  {
    var start := StartTime(unit, end, n);
    StartIsBefore(unit, end, n);
    if WindowCount(unit, start, end) > MAX_WINDOWS {
      ReachIffCovered(unit, start, end);
    } else if unit == Month {
      MonthWindowsTile(start, end);
    } else {
      UncappedWindowsTile(unit, start, end);
    }
  }

  lemma StartIsBefore(unit: Unit, end: int, n: nat)
    requires n >= 1
    ensures StartTime(unit, end, n) < end
  {
    FewerLengths(1, n, Estimate(unit));
  }

  lemma AlignedEndIsNear(unit: Unit, end: int)
    requires unit == Hour || unit == Day || unit == Week
    ensures 0 < AlignedEnd(FromMidnight, unit, end) - end <= Estimate(unit)
  {
    EndInNewestWindow(FromMidnight, unit, end);
  }

  /** Differences of hours, days and weeks cover the range asked for exactly up to a limit of 99. */
  lemma FixedDiffsCoverIff(unit: Unit, end: int, n: nat)
    requires n >= 1 && (unit == Hour || unit == Day || unit == Week)
    ensures Tiles(Kept(unit, StartTime(unit, end, n), end), StartTime(unit, end, n), end) <==> n <= 99
  {
    var start, rest := StartTime(unit, end, n), AlignedEnd(FromMidnight, unit, end) - end;
    AlignedEndIsNear(unit, end);
    StartIsBefore(unit, end, n);
    CountBounds(unit, start, end);
    ReachIffCovered(unit, start, end);
    Reach(n, rest, Estimate(unit), WindowCount(unit, start, end));
    assert WindowEnd(FromMidnight, unit, end, Generated(unit, start, end)) ==
           end + rest - Generated(unit, start, end) * Estimate(unit);
  }

  /** When count is the least number of lengths longer than n lengths and a rest of at most one, then count lengths, but
      no more than 100, hold them exactly if n is at most 99. */
  lemma Reach(n: nat, rest: int, length: int, count: int)
    requires 0 < rest <= length && (count - 1) * length <= n * length + rest < count * length
    ensures var k := if count > 100 then 100 else count; rest + n * length <= k * length <==> n <= 99
  {
    if n <= 99 {
      FewerLengths(n + 1, 100, length);
    } else {
      FewerLengths(100, n, length);
      assert n * length < count * length;
      if count <= 100 { FewerLengths(count, 100, length); }
    }
  }

  /** The limit may be as large as 1000: the last 100 hours already lose their oldest part. */
  lemma HundredHoursExample(end: int)
    ensures var start := StartTime(Hour, end, 100); !Tiles(Kept(Hour, start, end), start, end)
  {
    FixedDiffsCoverIff(Hour, end, 100);
  }
}
