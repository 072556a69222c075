/** Differences per time window (getDiffData): windows counted back from an aligned end, clipped to the range, and the
  * newest value minus the oldest value of each.
  *
  * The window ends count back from ends[0]: window i runs from ends[i + 1] to ends[i]. Which ends a time unit gives is
  * the subject of DiffRange. */
module DiffWindows {
  import opened Boundaries
  import opened Telemetry
  import opened Wrappers

  datatype DiffPoint = DiffPoint(timestamp: int, value: real)

  predicate Skipped(windowStart: int, windowEnd: int, start: int, end: int) {
    windowEnd <= start || windowStart >= end
  }

  function Clip(windowStart: int, windowEnd: int, start: int, end: int): Window {
    Window(if windowStart < start then start else windowStart, if windowEnd > end then end else windowEnd)
  }

  // ------------------------------------------------------------------------------------------------ values of a window

  /** ORDER BY ts DESC LIMIT 1 over the window. */
  function Newest(rows: seq<Sample>, lo: int, hi: int): Option<Sample> {
    if rows == [] then None else
      var rest := Newest(rows[1..], lo, hi);
      if Within(rows[0].ts, lo, hi) && (rest.None? || rows[0].ts >= rest.value.ts) then Some(rows[0]) else rest
  }

  /** ORDER BY ts ASC LIMIT 1 over the window. */
  function Oldest(rows: seq<Sample>, lo: int, hi: int): Option<Sample> {
    if rows == [] then None else
      var rest := Oldest(rows[1..], lo, hi);
      if Within(rows[0].ts, lo, hi) && (rest.None? || rows[0].ts <= rest.value.ts) then Some(rows[0]) else rest
  }

  ghost predicate IsNewest(rows: seq<Sample>, lo: int, hi: int, r: Option<Sample>) {
    && (r.None? <==> forall s :: s in rows ==> !Within(s.ts, lo, hi))
    && (r.Some? ==> r.value in rows && Within(r.value.ts, lo, hi) &&
                    forall s :: s in rows && Within(s.ts, lo, hi) ==> s.ts <= r.value.ts)
  }

  ghost predicate IsOldest(rows: seq<Sample>, lo: int, hi: int, r: Option<Sample>) {
    && (r.None? <==> forall s :: s in rows ==> !Within(s.ts, lo, hi))
    && (r.Some? ==> r.value in rows && Within(r.value.ts, lo, hi) &&
                    forall s :: s in rows && Within(s.ts, lo, hi) ==> r.value.ts <= s.ts)
  }

  /** The two limited queries return the extreme samples of the window, and nothing only when it is empty. */
  lemma {:induction false} ExtremeSamples(rows: seq<Sample>, lo: int, hi: int)
    ensures IsNewest(rows, lo, hi, Newest(rows, lo, hi))
    ensures IsOldest(rows, lo, hi, Oldest(rows, lo, hi))
  {
    if rows == [] {
    } else {
      assert rows == [rows[0]] + rows[1..];
      ExtremeSamples(rows[1..], lo, hi);
    }
  }

  /** extractNumericValue: the number column first, then the text column. */
  function NumericValue(s: Sample): Option<real> {
    if s.number.Some? then s.number else if s.text.Parsed? then Some(s.text.number) else None
  }

  /** getDiffValueInTimeWindow */
  function DiffValue(rows: seq<Sample>, lo: int, hi: int): Option<real> {
    var newest, oldest := Newest(rows, lo, hi), Oldest(rows, lo, hi);
    if newest.None? || oldest.None? then None else
      var latest, first := NumericValue(newest.value), NumericValue(oldest.value);
      if latest.None? || first.None? then None else Some(latest.value - first.value)
  }

  // ------------------------------------------------------------------------------------------------ the emitted points

  /** The value of every window; the loop does not depend on how it is found. */
  type Values = Window -> Option<real>

  function ValuesOf(rows: seq<Sample>): Values {
    (w: Window) => DiffValue(rows, w.lo, w.hi)
  }

  /** What one window contributes: its value under the begin of the unclipped window, or nothing. */
  function Contribution(values: Values, windowStart: int, windowEnd: int, start: int, end: int): seq<DiffPoint> {
    if Skipped(windowStart, windowEnd, start, end) then [] else
      var w := Clip(windowStart, windowEnd, start, end);
      Emit(windowStart, values(w))
  }

  function Emit(timestamp: int, diff: Option<real>): seq<DiffPoint> {
    if diff.None? then [] else [DiffPoint(timestamp, diff.value)]
  }

  /** The contributions of windows n - 1, .., 0: oldest first. */
  function DiffPoints(values: Values, ends: seq<int>, start: int, end: int, n: nat): seq<DiffPoint>
    requires n < |ends|
  {
    if n == 0 then [] else
      Contribution(values, ends[n], ends[n - 1], start, end) + DiffPoints(values, ends, start, end, n - 1)
  }

  /** The order in which the loop collects them. */
  function NewestFirst(values: Values, ends: seq<int>, start: int, end: int, n: nat): seq<DiffPoint>
    requires n < |ends|
  {
    if n == 0 then [] else
      NewestFirst(values, ends, start, end, n - 1) + Contribution(values, ends[n], ends[n - 1], start, end)
  }

  function InsertPoint(p: DiffPoint, sorted: seq<DiffPoint>): seq<DiffPoint> {
    if sorted == [] || p.timestamp < sorted[0].timestamp then [p] + sorted
    else [sorted[0]] + InsertPoint(p, sorted[1..])
  }

  /** sort.Slice by timestamp. */
  function SortPoints(s: seq<DiffPoint>): seq<DiffPoint> {
    if s == [] then [] else InsertPoint(s[|s| - 1], SortPoints(s[..|s| - 1]))
  }

  ghost predicate Increasing(points: seq<DiffPoint>) {
    forall i, j :: 0 <= i < j < |points| ==> points[i].timestamp < points[j].timestamp
  }

  /** Points come out in strictly increasing time order. */
  lemma {:induction false} TimestampsIncrease(values: Values, ends: seq<int>, start: int, end: int, n: nat)
    requires n < |ends| && Falling(ends)
    ensures forall p :: p in DiffPoints(values, ends, start, end, n) ==> p.timestamp >= ends[n]
    ensures Increasing(DiffPoints(values, ends, start, end, n))
    decreases n
  {
    if n == 0 {
    } else {
      TimestampsIncrease(values, ends, start, end, n - 1);
      var one, rest := Contribution(values, ends[n], ends[n - 1], start, end),
          DiffPoints(values, ends, start, end, n - 1);
      forall j | 0 <= j < |rest| ensures ends[n] < rest[j].timestamp {
        assert rest[j] in rest;
      }
      assert one == [] || (|one| == 1 && one[0].timestamp == ends[n]);
      assert Increasing(one + rest);
    }
  }

  lemma SortSmallest(before: seq<DiffPoint>, one: seq<DiffPoint>)
    requires |one| <= 1
    requires forall p, q :: p in one && q in SortPoints(before) ==> p.timestamp < q.timestamp
    ensures SortPoints(before + one) == one + SortPoints(before)
  {
    if one == [] {
      assert before + one == before && one + SortPoints(before) == SortPoints(before);
    } else {
      var s := before + one;
      assert s[..|s| - 1] == before && s[|s| - 1] == one[0];
      assert one == [one[0]];
    }
  }

  lemma ContributionIsEarlier(values: Values, ends: seq<int>, start: int, end: int, n: nat)
    requires 0 < n < |ends| && Falling(ends)
    ensures var one := Contribution(values, ends[n], ends[n - 1], start, end);
            |one| <= 1 && forall p, q :: p in one && q in DiffPoints(values, ends, start, end, n - 1) ==>
                p.timestamp < q.timestamp
  {
    TimestampsIncrease(values, ends, start, end, n - 1);
  }

  /** Sorting what the loop collects newest first reverses it. */
  lemma {:induction false} SortReverses(values: Values, ends: seq<int>, start: int, end: int, n: nat)
    requires n < |ends| && Falling(ends)
    ensures SortPoints(NewestFirst(values, ends, start, end, n)) == DiffPoints(values, ends, start, end, n)
    decreases n
  {
    if n == 0 {
      assert NewestFirst(values, ends, start, end, 0) == [];
    } else {
      SortReverses(values, ends, start, end, n - 1);
      ContributionIsEarlier(values, ends, start, end, n);
      SortSmallest(NewestFirst(values, ends, start, end, n - 1), Contribution(values, ends[n], ends[n - 1], start,
                                                                              end));
    }
  }

  // -------------------------------------------------------------------------------------------------- the kept windows

  /** The kept windows in time order, clipped to the range. */
  function KeptWindows(ends: seq<int>, start: int, end: int, n: nat): seq<Window>
    requires n < |ends|
  {
    if n == 0 then []
    else if Skipped(ends[n], ends[n - 1], start, end) then KeptWindows(ends, start, end, n - 1)
    else [Clip(ends[n], ends[n - 1], start, end)] + KeptWindows(ends, start, end, n - 1)
  }

  function Later(a: int, b: int): int {
    if a < b then b else a
  }

  lemma TilesCons(w: Window, ws: seq<Window>, hi: int)
    requires Tiles(ws, w.hi, hi) && w.lo <= w.hi
    ensures Tiles([w] + ws, w.lo, hi)
  {
  }

  lemma TilesOne(w: Window)
    requires w.lo <= w.hi
    ensures Tiles([w], w.lo, w.hi)
  {
  }

  /** One window more, older than the others. */
  lemma OlderWindowTiles(ends: seq<int>, start: int, end: int, n: nat)
    requires 1 < n < |ends| && ends[n] < ends[n - 1] < end && start <= end
    requires Tiles(KeptWindows(ends, start, end, n - 1), Later(ends[n - 1], start), end)
    ensures Tiles(KeptWindows(ends, start, end, n), Later(ends[n], start), end)
  {
    if start < ends[n - 1] {
      TilesCons(Clip(ends[n], ends[n - 1], start, end), KeptWindows(ends, start, end, n - 1), end);
    }
  }

  /** The n newest windows tile the range from the later of the start and the n-th window's begin. */
  lemma {:induction false} KeptWindowsTile(ends: seq<int>, start: int, end: int, n: nat)
    requires 1 <= n < |ends| && Falling(ends) && ends[1] <= end < ends[0]
    requires start < end || (start == end && ends[1] < end)
    requires ends[n] < end
    ensures Tiles(KeptWindows(ends, start, end, n), Later(ends[n], start), end)
    decreases n
  {
    if ends[n - 1] < end {
      KeptWindowsTile(ends, start, end, n - 1);
      OlderWindowTiles(ends, start, end, n);
    } else {
      NothingKept(ends, start, end, n - 1);
      TilesOne(Clip(ends[n], ends[n - 1], start, end));
    }
  }

  lemma {:induction false} NothingKept(ends: seq<int>, start: int, end: int, n: nat)
    requires n < |ends| && forall i :: 0 <= i <= n ==> end <= ends[i]
    ensures KeptWindows(ends, start, end, n) == []
    decreases n
  {
    if n == 0 {
    } else {
      NothingKept(ends, start, end, n - 1);
    }
  }

  /** A count of windows covers a non-empty range exactly when its oldest window reaches back to the start. */
  lemma CoversIffReaches(ends: seq<int>, start: int, end: int, n: nat)
    requires n < |ends| && Falling(ends) && (n > 0 ==> ends[1] <= end) && end < ends[0] && start < end
    ensures Tiles(KeptWindows(ends, start, end, n), start, end) <==> ends[n] <= start
  {
    if ends[n] >= end {
      NothingKept(ends, start, end, n);
    } else {
      KeptWindowsTile(ends, start, end, n);
    }
  }

  /** A range of a single instant is covered exactly when the instant is not itself a window boundary. */
  lemma InstantCoverage(ends: seq<int>, t: int, n: nat)
    requires 1 <= n < |ends| && Falling(ends) && ends[1] <= t < ends[0]
    ensures Tiles(KeptWindows(ends, t, t, n), t, t) <==> ends[1] != t
  {
    if ends[1] == t {
      InstantOnBoundary(ends, t, n);
    } else {
      KeptWindowsTile(ends, t, t, n);
    }
  }

  lemma {:induction false} InstantOnBoundary(ends: seq<int>, t: int, n: nat)
    requires 1 <= n < |ends| && Falling(ends) && ends[1] == t
    ensures KeptWindows(ends, t, t, n) == []
    decreases n
  {
    if n == 1 {
      assert KeptWindows(ends, t, t, 0) == [];
    } else {
      InstantOnBoundary(ends, t, n - 1);
    }
  }

  // ------------------------------------------------------------------------------------------------------- telescoping

  function SumValues(points: seq<DiffPoint>): real {
    if points == [] then 0.0 else points[0].value + SumValues(points[1..])
  }

  function SumDiffs(values: Values, ws: seq<Window>): real {
    if ws == [] then 0.0 else
      OrZero(values(ws[0])) + SumDiffs(values, ws[1..])
  }

  lemma PrependWindow(values: Values, w: Window, rest: seq<Window>)
    ensures SumDiffs(values, [w] + rest) == OrZero(values(w)) + SumDiffs(values, rest)
  {
    assert ([w] + rest)[1..] == rest;
  }

  /** The points are the values of the windows that have one. */
  ghost predicate Match(values: Values, points: seq<DiffPoint>, ws: seq<Window>) {
    if ws == [] then points == []
    else if values(ws[0]).None? then Match(values, points, ws[1..])
    else points != [] && points[0].value == values(ws[0]).value && Match(values, points[1..], ws[1..])
  }

  lemma {:induction false} MatchingSums(values: Values, points: seq<DiffPoint>, ws: seq<Window>)
    requires Match(values, points, ws)
    ensures SumValues(points) == SumDiffs(values, ws)
    decreases |ws|
  {
    if ws == [] {
    } else if values(ws[0]).None? {
      MatchingSums(values, points, ws[1..]);
    } else {
      MatchingSums(values, points[1..], ws[1..]);
    }
  }

  lemma MatchOneMore(values: Values, windowStart: int, windowEnd: int, start: int, end: int, points: seq<DiffPoint>,
                     ws: seq<Window>)
    requires Match(values, points, ws)
    ensures Match(values, Contribution(values, windowStart, windowEnd, start, end) + points,
                  if Skipped(windowStart, windowEnd, start, end) then ws
                  else [Clip(windowStart, windowEnd, start, end)] + ws)
  {
    var w := Clip(windowStart, windowEnd, start, end);
    if Skipped(windowStart, windowEnd, start, end) {
      assert [] + points == points;
    } else if values(w).None? {
      assert ([w] + ws)[1..] == ws;
      assert [] + points == points;
    } else {
      assert ([w] + ws)[1..] == ws;
      assert ([DiffPoint(windowStart, values(w).value)] + points)[1..] == points;
    }
  }

  lemma {:induction false} PointsMatchWindows(values: Values, ends: seq<int>, start: int, end: int, n: nat)
    requires n < |ends|
    ensures Match(values, DiffPoints(values, ends, start, end, n), KeptWindows(ends, start, end, n))
    decreases n
  {
    if n == 0 {
    } else {
      var points, ws := DiffPoints(values, ends, start, end, n - 1), KeptWindows(ends, start, end, n - 1);
      PointsMatchWindows(values, ends, start, end, n - 1);
      MatchOneMore(values, ends[n], ends[n - 1], start, end, points, ws);
    }
  }

  ghost predicate AllNumeric(rows: seq<Sample>) {
    forall s :: s in rows ==> NumericValue(s).Some?
  }

  ghost predicate SampleAt(rows: seq<Sample>, t: int) {
    exists s :: s in rows && s.ts == t
  }

  ghost predicate SampleIn(rows: seq<Sample>, lo: int, hi: int) {
    exists s :: s in rows && Within(s.ts, lo, hi)
  }

  /** There is a sample on every boundary between two windows. */
  ghost predicate BoundariesSampled(rows: seq<Sample>, ws: seq<Window>) {
    forall i :: 0 <= i < |ws| - 1 ==> SampleAt(rows, ws[i].hi)
  }

  /** The newest value minus the oldest value of a range. */
  ghost function Change(rows: seq<Sample>, lo: int, hi: int): real
    requires AllNumeric(rows) && SampleIn(rows, lo, hi)
  {
    ExtremeSamples(rows, lo, hi);
    NumericValue(Newest(rows, lo, hi).value).value - NumericValue(Oldest(rows, lo, hi).value).value
  }

  lemma SameTimeSameSample(rows: seq<Sample>, a: Sample, b: Sample)
    requires UniqueTimes(rows) && a in rows && b in rows && a.ts == b.ts
    ensures a == b
  {
    var i :| 0 <= i < |rows| && rows[i] == a;
    var j :| 0 <= j < |rows| && rows[j] == b;
    assert i == j || i < j || j < i;
  }

  /** Two adjacent ranges that share a sample at their boundary: the changes add up. */
  lemma ChangesAdd(rows: seq<Sample>, lo: int, mid: int, hi: int)
    requires UniqueTimes(rows) && AllNumeric(rows) && lo <= mid <= hi && SampleAt(rows, mid)
    ensures SampleIn(rows, lo, mid) && SampleIn(rows, mid, hi) && SampleIn(rows, lo, hi)
    ensures Change(rows, lo, mid) + Change(rows, mid, hi) == Change(rows, lo, hi)
  {
    var s :| s in rows && s.ts == mid;
    ExtremeSamples(rows, lo, mid);
    ExtremeSamples(rows, mid, hi);
    ExtremeSamples(rows, lo, hi);
    assert Within(s.ts, lo, mid) && Within(s.ts, mid, hi) && Within(s.ts, lo, hi);
    SameTimeSameSample(rows, s, Newest(rows, lo, mid).value);
    SameTimeSameSample(rows, s, Oldest(rows, mid, hi).value);
    SameTimeSameSample(rows, Newest(rows, mid, hi).value, Newest(rows, lo, hi).value);
    SameTimeSameSample(rows, Oldest(rows, lo, mid).value, Oldest(rows, lo, hi).value);
  }

  lemma {:induction false} DiffsTelescope(rows: seq<Sample>, ws: seq<Window>, lo: int, hi: int)
    requires Tiles(ws, lo, hi) && UniqueTimes(rows) && AllNumeric(rows) && SampleIn(rows, lo, hi)
    requires BoundariesSampled(rows, ws)
    ensures SumDiffs(ValuesOf(rows), ws) == Change(rows, lo, hi)
    decreases |ws|
  {
    assert ws == [ws[0]] + ws[1..];
    PrependWindow(ValuesOf(rows), ws[0], ws[1..]);
    ExtremeSamples(rows, lo, ws[0].hi);
    if |ws| > 1 {
      var mid := ws[0].hi;
      assert lo <= mid <= hi && SampleAt(rows, mid) by {
        TilesOrder(ws, lo, hi);
      }
      TilesTail(ws, lo, hi);
      ChangesAdd(rows, lo, mid, hi);
      forall i | 0 <= i < |ws[1..]| - 1 ensures SampleAt(rows, ws[1..][i].hi) {
        assert ws[1..][i] == ws[i + 1];
      }
      DiffsTelescope(rows, ws[1..], mid, hi);
    }
  }

  /** The emitted values of windows that tile a range, with a sample on every interior boundary, add up to the newest
      value minus the oldest value of the range. */
  lemma PointsTelescope(rows: seq<Sample>, ends: seq<int>, start: int, end: int, n: nat, lo: int)
    requires n < |ends| && Tiles(KeptWindows(ends, start, end, n), lo, end)
    requires UniqueTimes(rows) && AllNumeric(rows) && SampleIn(rows, lo, end)
    requires BoundariesSampled(rows, KeptWindows(ends, start, end, n))
    ensures SumValues(DiffPoints(ValuesOf(rows), ends, start, end, n)) == Change(rows, lo, end)
  {
    PointsMatchWindows(ValuesOf(rows), ends, start, end, n);
    MatchingSums(ValuesOf(rows), DiffPoints(ValuesOf(rows), ends, start, end, n), KeptWindows(ends, start, end, n));
    DiffsTelescope(rows, KeptWindows(ends, start, end, n), lo, end);
  }
}
