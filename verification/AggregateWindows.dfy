/** Aggregates per time window (getAggregatedDataWithTime): closed windows counted back from an aligned end, or a plain
  * split of the range, with AVG, SUM, MAX or MIN of each window's numbers. */
module AggregateWindows {
  import opened Telemetry
  import opened Wrappers
  import opened Boundaries

  datatype Op = Avg | Sum | Max | Min

  datatype AggPoint = AggPoint(value: real, timestamp: int)

  function OpOf(aggregateMethod: string): Option<Op> {
    if aggregateMethod == "avg" then Some(Avg)
    else if aggregateMethod == "sum" then Some(Sum)
    else if aggregateMethod == "max" then Some(Max)
    else if aggregateMethod == "min" then Some(Min)
    else None
  }

  // -------------------------------------------------------------------------------------- SQL aggregates of one window

  predicate Counts(s: Sample, lo: int, hi: int) {
    Within(s.ts, lo, hi) && s.number.Some?
  }

  function CountIn(rows: seq<Sample>, lo: int, hi: int): nat {
    if rows == [] then 0 else CountIn(rows[1..], lo, hi) + if Counts(rows[0], lo, hi) then 1 else 0
  }

  function SumIn(rows: seq<Sample>, lo: int, hi: int): real {
    if rows == [] then 0.0 else
      SumIn(rows[1..], lo, hi) + if Counts(rows[0], lo, hi) then rows[0].number.value else 0.0
  }

  /** The greater of two aggregates; for Min the lesser; null counts for nothing. */
  function Extreme(op: Op, a: Option<real>, b: Option<real>): Option<real> {
    if a.None? then b
    else if b.None? then a
    else if (if op == Max then a.value >= b.value else a.value <= b.value) then a else b
  }

  function ExtremeIn(op: Op, rows: seq<Sample>, lo: int, hi: int): Option<real> {
    if rows == [] then None else
      Extreme(op, if Counts(rows[0], lo, hi) then rows[0].number else None, ExtremeIn(op, rows[1..], lo, hi))
  }

  /** The aggregate of the rows of a window; null when the window has no number. */
  function Aggregate(op: Op, rows: seq<Sample>, w: Window): Option<real> {
    match op
    case Avg => var n := CountIn(rows, w.lo, w.hi); if n == 0 then None else Some(SumIn(rows, w.lo, w.hi) / n as real)
    case Sum => if CountIn(rows, w.lo, w.hi) == 0 then None else Some(SumIn(rows, w.lo, w.hi))
    case Max => ExtremeIn(Max, rows, w.lo, w.hi)
    case Min => ExtremeIn(Min, rows, w.lo, w.hi)
  }

  // ------------------------------------------------------------------------------------------------------- the windows

  /** Windows between consecutive ends, the newest first. */
  function Backward(ends: seq<int>, n: nat): seq<Window>
    requires n < |ends|
  {
    if n == 0 then [] else Backward(ends, n - 1) + [Window(ends[n], ends[n - 1])]
  }

  /** Any other time type: the range split evenly, oldest part first. */
  function Split(start: int, size: int, n: nat): seq<Window> {
    if n == 0 then [] else
      Split(start, size, n - 1) + [Window(start + (n - 1) * size, start + (n - 1) * size + size)]
  }

  function ActualLimit(limit: Option<int>): (n: nat)
    ensures n >= 1
  {
    if limit.Some? && limit.value > 0 then limit.value else 1
  }

  function Windows(unit: Option<Unit>, start: int, end: int, n: nat): seq<Window>
    requires n >= 1
  {
    if unit.Some? then Backward(Ends(FromSunday, unit.value, end, n), n) else Split(start, Truncate(end - start, n), n)
  }

  /** Only windows with a value give a point. */
  function Points(op: Op, rows: seq<Sample>, ws: seq<Window>): seq<AggPoint> {
    if ws == [] then [] else
      var n := |ws| - 1;
      Points(op, rows, ws[..n]) + Point(ws[n].lo, Aggregate(op, rows, ws[n]))
  }

  function Point(timestamp: int, value: Option<real>): seq<AggPoint> {
    if value.Some? then [AggPoint(value.value, timestamp)] else []
  }

  // ----------------------------------------------------------------------------------------------------- the operation

  method TimeWindows(start: int, end: int, unit: Option<Unit>, limit: nat) returns (timeWindows: seq<Window>)
    requires limit >= 1
    ensures timeWindows == Windows(unit, start, end, limit)
  {
    timeWindows := [];
    if unit.Some? {
      var aligned := AlignedEnd(FromSunday, unit.value, end);
      ghost var ends := Ends(FromSunday, unit.value, end, limit);
      for i := 0 to limit
        invariant timeWindows == Backward(ends, i)
      {
        var windowEnd, windowStart := WindowAt(FromSunday, unit.value, end, aligned, i);
        timeWindows := timeWindows + [Window(windowStart, windowEnd)];
      }
    } else {
      var size := Truncate(end - start, limit);
      for i := 0 to limit
        invariant timeWindows == Split(start, size, i)
      {
        timeWindows := timeWindows + [Window(start + i * size, start + i * size + size)];
      }
    }
  }

  method GetAggregatedDataWithTime(rows: seq<Sample>, start: int, end: int, aggregateMethod: string, limit: Option<int>,
                                   timeType: string) returns (result: Result<seq<AggPoint>>)
    ensures result.Failure? <==> OpOf(aggregateMethod).None?
    ensures result.Success? ==>
              result.value == Points(OpOf(aggregateMethod).value, rows,
                                     Windows(UnitOf(timeType), start, end, ActualLimit(limit)))
  {
    var timeWindows := TimeWindows(start, end, UnitOf(timeType), ActualLimit(limit));
    var op := OpOf(aggregateMethod);
    if op.None? {
      return Failure("unsupported aggregate method: " + aggregateMethod);
    }
    var results := Query(rows, timeWindows, op.value);
    return Success(results);
  }

  /** One query per window. */
  method Query(rows: seq<Sample>, timeWindows: seq<Window>, op: Op) returns (results: seq<AggPoint>)
    ensures results == Points(op, rows, timeWindows)
  {
    results := [];
    for i := 0 to |timeWindows|
      invariant results == Points(op, rows, timeWindows[..i])
    {
      var value := Aggregate(op, rows, timeWindows[i]);
      assert timeWindows[..i + 1][..i] == timeWindows[..i];
      if value.Some? {
        results := results + [AggPoint(value.value, timeWindows[i].lo)];
      }
    }
    assert timeWindows[..|timeWindows|] == timeWindows;
  }

  // -------------------------------------------------------------------------------------------- windows are contiguous

  function Reversed(ws: seq<Window>): (r: seq<Window>)
    ensures |r| == |ws|
  {
    if ws == [] then [] else [ws[|ws| - 1]] + Reversed(ws[..|ws| - 1])
  }

  /** In time order, the windows tile everything from the oldest end to the newest. */
  lemma {:induction false} BackwardTiles(ends: seq<int>, n: nat)
    requires 1 <= n < |ends| && Falling(ends)
    ensures Tiles(Reversed(Backward(ends, n)), ends[n], ends[0])
    decreases n
  {
    var ws := Backward(ends, n);
    assert ws[..n - 1] == Backward(ends, n - 1) by { BackwardLength(ends, n - 1); }
    if n == 1 {
      assert Reversed(ws) == [Window(ends[1], ends[0])];
    } else {
      BackwardTiles(ends, n - 1);
    }
  }

  lemma {:induction false} BackwardLength(ends: seq<int>, n: nat)
    requires n < |ends|
    ensures |Backward(ends, n)| == n
    decreases n
  {
    if n == 0 {
    } else {
      BackwardLength(ends, n - 1);
    }
  }

  /** The windows of a time unit tile the time from the oldest aligned boundary to the aligned end after the range's
      end. */
  lemma UnitWindowsTile(unit: Unit, start: int, end: int, n: nat)
    requires n >= 1
    ensures Tiles(Reversed(Windows(Some(unit), start, end, n)), WindowEnd(FromSunday, unit, end, n),
                  WindowEnd(FromSunday, unit, end, 0))
    ensures WindowEnd(FromSunday, unit, end, 1) <= end < WindowEnd(FromSunday, unit, end, 0)
  {
    EndsFall(FromSunday, unit, end, n);
    BackwardTiles(Ends(FromSunday, unit, end, n), n);
    EndInNewestWindow(FromSunday, unit, end);
  }

  /** The plain split tiles from the start, and reaches the end exactly when the number of parts divides the range. */
  lemma {:induction false} SplitTiles(start: int, size: int, n: nat)
    requires n >= 1 && size >= 0
    ensures |Split(start, size, n)| == n
    ensures Tiles(Split(start, size, n), start, start + n * size)
    decreases n
  {
    if n == 1 {
      assert Split(start, size, 0) == [];
      assert 1 * size == size;
    } else {
      SplitTiles(start, size, n - 1);
      assert n * size == (n - 1) * size + size;
    }
  }

  lemma SplitReachesEnd(start: int, end: int, n: nat)
    requires n >= 1 && start <= end
    ensures Tiles(Windows(None, start, end, n), start, end) <==> (end - start) % n == 0
  {
    var size := (end - start) / n;
    assert end - start == n * size + (end - start) % n;
    assert size >= 0;
    SplitTiles(start, size, n);
  }

  /** Ten milliseconds split in three end after nine. */
  lemma SplitExample()
    ensures !Tiles(Windows(None, 0, 10, 3), 0, 10)
  {
    SplitReachesEnd(0, 10, 3);
  }

  /** The windows of a time unit hold all instants of a range that ends with them exactly when the oldest reaches its
      start. */
  lemma UnitWindowsHoldRangeIff(unit: Unit, start: int, end: int, n: nat)
    requires n >= 1 && start <= end
    ensures (forall t :: Within(t, start, end) ==> Held(Windows(Some(unit), start, end, n), t)) <==>
            WindowEnd(FromSunday, unit, end, n) <= start
  {
    var ws := Windows(Some(unit), start, end, n);
    UnitWindowsTile(unit, start, end, n);
    forall t ensures Held(ws, t) <==> Within(t, WindowEnd(FromSunday, unit, end, n),
                                             WindowEnd(FromSunday, unit, end, 0)) {
      TilesCover(Reversed(ws), WindowEnd(FromSunday, unit, end, n), WindowEnd(FromSunday, unit, end, 0), t);
      ReversedMembers(ws);
    }
    if WindowEnd(FromSunday, unit, end, n) > start {
      assert Within(start, start, end) && !Held(ws, start);
    }
  }

  ghost predicate Held(ws: seq<Window>, t: int) {
    exists w :: w in ws && Within(t, w.lo, w.hi)
  }

  lemma {:induction false} ReversedMembers(ws: seq<Window>)
    ensures forall w :: w in Reversed(ws) <==> w in ws
  {
    if ws == [] {
    } else {
      assert ws == ws[..|ws| - 1] + [ws[|ws| - 1]];
      ReversedMembers(ws[..|ws| - 1]);
    }
  }

  // ----------------------------------------------------------------------------------- sums, maxima and minima add up

  function Total(points: seq<AggPoint>): real {
    if points == [] then 0.0 else Total(points[..|points| - 1]) + points[|points| - 1].value
  }

  function TotalExtreme(op: Op, points: seq<AggPoint>): Option<real> {
    if points == [] then None else
      Extreme(op, Some(points[|points| - 1].value), TotalExtreme(op, points[..|points| - 1]))
  }

  lemma TotalOfPoint(points: seq<AggPoint>, timestamp: int, value: Option<real>)
    ensures Total(points + Point(timestamp, value)) == Total(points) + if value.Some? then value.value else 0.0
  {
    if value.Some? {
      assert (points + Point(timestamp, value))[..|points|] == points;
    } else {
      assert points + [] == points;
    }
  }

  lemma TotalExtremeOfPoint(op: Op, points: seq<AggPoint>, timestamp: int, value: Option<real>)
    ensures TotalExtreme(op, points + Point(timestamp, value)) == Extreme(op, value, TotalExtreme(op, points))
  {
    if value.Some? {
      assert (points + Point(timestamp, value))[..|points|] == points;
    } else {
      assert points + [] == points;
    }
  }

  /** Adjacent closed windows share their boundary: a sample on it is counted twice. */
  lemma {:induction false} SumsOverlap(rows: seq<Sample>, lo: int, mid: int, hi: int)
    requires lo <= mid <= hi
    ensures SumIn(rows, lo, mid) + SumIn(rows, mid, hi) == SumIn(rows, lo, hi) + SumIn(rows, mid, mid)
  {
    if rows == [] {
    } else {
      SumsOverlap(rows[1..], lo, mid, hi);
    }
  }

  lemma {:induction false} ExtremesJoin(op: Op, rows: seq<Sample>, lo: int, mid: int, hi: int)
    requires lo <= mid <= hi
    ensures Extreme(op, ExtremeIn(op, rows, lo, mid), ExtremeIn(op, rows, mid, hi)) == ExtremeIn(op, rows, lo, hi)
    decreases |rows|
  {
    if rows == [] {
    } else {
      ExtremesJoin(op, rows[1..], lo, mid, hi);
    }
  }

  /** ExtremeIn is the greatest, or least, number of the window, and null only when there is none. */
  lemma {:induction false} ExtremeIsExtreme(op: Op, rows: seq<Sample>, lo: int, hi: int)
    requires op == Max || op == Min
    ensures var e := ExtremeIn(op, rows, lo, hi);
            (e.None? <==> forall s :: s in rows ==> !Counts(s, lo, hi)) &&
            (e.Some? ==> (exists s :: s in rows && Counts(s, lo, hi) && s.number == e) &&
                         forall s :: s in rows && Counts(s, lo, hi) ==>
                                       if op == Max then s.number.value <= e.value else e.value <= s.number.value)
    decreases |rows|
  {
    if rows == [] {
    } else {
      assert rows == [rows[0]] + rows[1..];
      ExtremeIsExtreme(op, rows[1..], lo, hi);
    }
  }

  lemma {:induction false} NothingToSum(rows: seq<Sample>, lo: int, hi: int)
    requires CountIn(rows, lo, hi) == 0
    ensures SumIn(rows, lo, hi) == 0.0
  {
    if rows == [] {
    } else {
      NothingToSum(rows[1..], lo, hi);
    }
  }

  /** The samples on the boundaries ends[1], .., ends[n - 1]. */
  function OnBoundaries(rows: seq<Sample>, ends: seq<int>, n: nat): real
    requires n < |ends|
  {
    if n <= 1 then 0.0 else OnBoundaries(rows, ends, n - 1) + SumIn(rows, ends[n - 1], ends[n - 1])
  }

  lemma {:induction false} BackwardSums(rows: seq<Sample>, ends: seq<int>, n: nat)
    requires 1 <= n < |ends| && Falling(ends)
    ensures Total(Points(Sum, rows, Backward(ends, n))) == SumIn(rows, ends[n], ends[0]) + OnBoundaries(rows, ends, n)
    decreases n
  {
    BackwardLength(ends, n);
    var w := Window(ends[n], ends[n - 1]);
    assert Backward(ends, n)[..n - 1] == Backward(ends, n - 1) by { BackwardLength(ends, n - 1); }
    if CountIn(rows, w.lo, w.hi) == 0 { NothingToSum(rows, w.lo, w.hi); }
    TotalOfPoint(Points(Sum, rows, Backward(ends, n - 1)), w.lo, Aggregate(Sum, rows, w));
    if n == 1 {
      assert Points(Sum, rows, Backward(ends, 0)) == [];
    } else {
      BackwardSums(rows, ends, n - 1);
      SumsOverlap(rows, ends[n], ends[n - 1], ends[0]);
    }
  }

  lemma {:induction false} BackwardExtremes(op: Op, rows: seq<Sample>, ends: seq<int>, n: nat)
    requires 1 <= n < |ends| && Falling(ends) && (op == Max || op == Min)
    ensures TotalExtreme(op, Points(op, rows, Backward(ends, n))) == ExtremeIn(op, rows, ends[n], ends[0])
    decreases n
  {
    BackwardLength(ends, n);
    var w := Window(ends[n], ends[n - 1]);
    assert Backward(ends, n)[..n - 1] == Backward(ends, n - 1) by { BackwardLength(ends, n - 1); }
    TotalExtremeOfPoint(op, Points(op, rows, Backward(ends, n - 1)), w.lo, Aggregate(op, rows, w));
    if n == 1 {
      assert Points(op, rows, Backward(ends, 0)) == [];
    } else {
      BackwardExtremes(op, rows, ends, n - 1);
      ExtremesJoin(op, rows, ends[n], ends[n - 1], ends[0]);
    }
  }

  /** Main result: the sums of the windows of a time unit add up to the sum of the whole covered time plus the samples
      on the interior boundaries, which two windows share; the greatest window maximum is the maximum of the covered
      time, and the least window minimum its minimum. */
  lemma WindowAggregatesAddUp(rows: seq<Sample>, unit: Unit, start: int, end: int, n: nat)
    requires n >= 1
    ensures var ws := Windows(Some(unit), start, end, n);
            var lo, hi := WindowEnd(FromSunday, unit, end, n), WindowEnd(FromSunday, unit, end, 0);
            Total(Points(Sum, rows, ws)) == SumIn(rows, lo, hi) + OnBoundaries(rows, Ends(FromSunday, unit, end, n),
                                                                               n) &&
            TotalExtreme(Max, Points(Max, rows, ws)) == ExtremeIn(Max, rows, lo, hi) &&
            TotalExtreme(Min, Points(Min, rows, ws)) == ExtremeIn(Min, rows, lo, hi)
  {
    var ends := Ends(FromSunday, unit, end, n);
    EndsFall(FromSunday, unit, end, n);
    BackwardSums(rows, ends, n);
    BackwardExtremes(Max, rows, ends, n);
    BackwardExtremes(Min, rows, ends, n);
  }
}
