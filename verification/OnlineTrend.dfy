/** The hourly online trend of a tenant's devices (GetDeviceTrend).
  *
  * One query computes the trend as a baseline plus running deltas. Each stage of the query is a function here, in the
  * query's order, and the theorems at the end compare the whole pipeline with the plain meaning of a trend point: how
  * many devices have status 1 in their last history row by the end of the hour.
  *
  * Times are microseconds, the resolution of the history column, and hours are UTC hours.
  */
module OnlineTrend {
  import opened Wrappers

  const HOUR: int := 3_600_000_000

  /** A row of device_status_history. */
  datatype Row = Row(id: int, tenant: string, device: string, status: int, time: int)

  /** The columns of devices that the query reads; the time of creation may be null. */
  datatype Device = Device(id: string, tenant: string, createdAt: Option<int>)

  datatype Event = Event(row: Row, isInitial: bool)

  datatype LaggedEvent = LaggedEvent(event: Event, previous: int)

  datatype Merged = Merged(hour: int, initial: int, delta: int)

  datatype HourOnline = HourOnline(hour: int, online: int)

  datatype Point = Point(hour: int, total: int, online: int, offline: int)

  // ---------------------------------------------------------------------------------------------- the query's stages

  function TruncHour(t: int): int {
    t - t % HOUR
  }

  /** The order (change_time, id) of the history. */
  predicate Later(a: Row, b: Row) {
    a.time > b.time || (a.time == b.time && a.id > b.id)
  }

  /** hour_series: every hour from one hour to another, both included. */
  function HourSeries(lo: int, hi: int): seq<int>
    decreases hi - lo
  {
    if lo > hi then [] else [lo] + HourSeries(lo + HOUR, hi)
  }

  predicate CreatedBy(d: Device, end: int) {
    d.createdAt.Some? && d.createdAt.value <= end
  }

  /** device_total; a comparison with null does not hold. */
  function DeviceTotal(devices: seq<Device>, tenant: string, end: int): nat {
    if devices == [] then 0 else
      DeviceTotal(devices[1..], tenant, end) +
      if devices[0].tenant == tenant && CreatedBy(devices[0], end) then 1 else 0
  }

  /** The tenant's rows with lo < change_time <= hi; no lower bound when lo is None. */
  function RowsBetween(rows: seq<Row>, tenant: string, lo: Option<int>, hi: int): seq<Row> {
    if rows == [] then [] else
      var rest := RowsBetween(rows[1..], tenant, lo, hi);
      if rows[0].tenant == tenant && rows[0].time <= hi && (lo.Some? ==> lo.value < rows[0].time)
      then [rows[0]] + rest else rest
  }

  /** Nothing in the relation is a later row of the same device. */
  predicate IsLatest(relation: seq<Row>, r: Row) {
    forall q :: q in relation && q.device == r.device ==> !Later(q, r)
  }

  /** DISTINCT ON (device_id) with change_time and id descending: of every device the latest row of the relation. */
  function DistinctOnDevice(rows: seq<Row>, relation: seq<Row>): seq<Row> {
    if rows == [] then [] else
      var rest := DistinctOnDevice(rows[1..], relation);
      if IsLatest(relation, rows[0]) then [rows[0]] + rest else rest
  }

  /** initial_status */
  function InitialStatus(rows: seq<Row>, tenant: string, start: int): seq<Row> {
    var before := RowsBetween(rows, tenant, None, start);
    DistinctOnDevice(before, before)
  }

  /** initial_online */
  function CountOnline(rows: seq<Row>): nat {
    if rows == [] then 0 else CountOnline(rows[1..]) + if rows[0].status == 1 then 1 else 0
  }

  function Tag(rows: seq<Row>, isInitial: bool): (r: seq<Event>)
    ensures |r| == |rows| && forall i :: 0 <= i < |r| ==> r[i] == Event(rows[i], isInitial)
  {
    if rows == [] then [] else [Event(rows[0], isInitial)] + Tag(rows[1..], isInitial)
  }

  /** status_events: the baseline rows and the rows inside the range. */
  function StatusEvents(rows: seq<Row>, tenant: string, start: int, end: int): seq<Event> {
    Tag(InitialStatus(rows, tenant, start), true) + Tag(RowsBetween(rows, tenant, Some(start), end), false)
  }

  function Insert(e: Event, sorted: seq<Event>): seq<Event> {
    if sorted == [] || Later(sorted[0].row, e.row) then [e] + sorted else [sorted[0]] + Insert(e, sorted[1..])
  }

  /** The window order of the query. */
  function SortEvents(events: seq<Event>): seq<Event> {
    if events == [] then [] else Insert(events[0], SortEvents(events[1..]))
  }

  /** The status of the device's last event, and 0 when there is none. */
  function LastStatus(events: seq<Event>, device: string): int {
    if events == [] then 0
    else if events[|events| - 1].row.device == device then events[|events| - 1].row.status
    else LastStatus(events[..|events| - 1], device)
  }

  /** ordered_events: LAG(status, 1, 0) within each device. */
  function WithLag(sorted: seq<Event>): seq<LaggedEvent> {
    if sorted == [] then [] else
      var n := |sorted| - 1;
      WithLag(sorted[..n]) + [LaggedEvent(sorted[n], LastStatus(sorted[..n], sorted[n].row.device))]
  }

  function Step(status: int, previous: int): int {
    if status == previous then 0 else if status == 1 then 1 else -1
  }

  /** hourly_delta: the sum of the steps of each hour that has an event inside the range. */
  function HourlyDelta(events: seq<LaggedEvent>): map<int, int> {
    if events == [] then map[] else
      var n := |events| - 1;
      var deltas := HourlyDelta(events[..n]);
      if events[n].event.isInitial then deltas else
        var hour := TruncHour(events[n].event.row.time);
        deltas[hour := Coalesce(deltas, hour) + Step(events[n].event.row.status, events[n].previous)]
  }

  function Coalesce(deltas: map<int, int>, hour: int): int {
    if hour in deltas then deltas[hour] else 0
  }

  /** merged */
  function Merge(hours: seq<int>, initial: int, deltas: map<int, int>): seq<Merged> {
    if hours == [] then [] else
      [Merged(hours[0], initial, Coalesce(deltas, hours[0]))] + Merge(hours[1..], initial, deltas)
  }

  /** with_online: the running sum, clamped at 0. */
  function WithOnline(merged: seq<Merged>, sum: int): seq<HourOnline> {
    if merged == [] then [] else
      var sum' := sum + merged[0].delta;
      var online := merged[0].initial + sum';
      [HourOnline(merged[0].hour, if online < 0 then 0 else online)] + WithOnline(merged[1..], sum')
  }

  function ToPoints(online: seq<HourOnline>, total: int): seq<Point> {
    if online == [] then [] else
      [Point(online[0].hour, total, online[0].online, total - online[0].online)] + ToPoints(online[1..], total)
  }

  function Deltas(rows: seq<Row>, tenant: string, start: int, end: int): map<int, int> {
    HourlyDelta(WithLag(SortEvents(StatusEvents(rows, tenant, start, end))))
  }

  /** The last four stages. */
  function Points(lo: int, hi: int, initial: int, deltas: map<int, int>, sum: int, total: int): seq<Point> {
    ToPoints(WithOnline(Merge(HourSeries(lo, hi), initial, deltas), sum), total)
  }

  function Trend(rows: seq<Row>, devices: seq<Device>, tenant: string, start: int, end: int): seq<Point> {
    Points(TruncHour(start), TruncHour(end), CountOnline(InitialStatus(rows, tenant, start)),
           Deltas(rows, tenant, start, end), 0, DeviceTotal(devices, tenant, end))
  }

  /** The entry point: a missing end is now and a missing start is 48 hours before now. */
  function GetDeviceTrend(rows: seq<Row>, devices: seq<Device>, tenant: string, start: Option<int>, end: Option<int>,
                          now: int): seq<Point>
  {
    Trend(rows, devices, tenant, if start.Some? then start.value else now - 48 * HOUR,
          if end.Some? then end.value else now)
  }

  // ------------------------------------------------------------------------------------------------- the plain meaning

  ghost predicate DistinctIds(rows: seq<Row>) {
    forall i, j :: 0 <= i < j < |rows| ==> rows[i].id != rows[j].id
  }

  /** The documented values of the column: 0 is offline, 1 is online. */
  ghost predicate BinaryStatus(rows: seq<Row>) {
    forall r :: r in rows ==> r.status == 0 || r.status == 1
  }

  /** r happened for the tenant before the cut, and not after the end of the range. */
  predicate Happened(r: Row, tenant: string, cut: int, end: int) {
    r.tenant == tenant && r.time < cut && r.time <= end
  }

  /** r is the last row of its device that happened before the cut. */
  ghost predicate IsLastWord(rows: seq<Row>, r: Row, tenant: string, cut: int, end: int) {
    r in rows && Happened(r, tenant, cut, end) &&
    forall q :: q in rows && q.device == r.device && Happened(q, tenant, cut, end) ==> !Later(q, r)
  }

  /** The devices whose last row before the cut says online. */
  ghost function OnlineDevices(rows: seq<Row>, tenant: string, cut: int, end: int): set<string> {
    set r | r in rows && IsLastWord(rows, r, tenant, cut, end) && r.status == 1 :: r.device
  }

  /** What a trend point means. */
  ghost function PointAt(rows: seq<Row>, devices: seq<Device>, tenant: string, end: int, hour: int): Point {
    var total, online := DeviceTotal(devices, tenant, end), |OnlineDevices(rows, tenant, hour + HOUR, end)|;
    Point(hour, total, online, total - online)
  }

  /** What a trend means: a point for every hour from the start's hour to the end's hour. */
  ghost function Meaning(rows: seq<Row>, devices: seq<Device>, tenant: string, start: int, end: int): seq<Point>
    requires start <= end
  {
    TruncHourMonotone(start, end);
    seq((TruncHour(end) - TruncHour(start)) / HOUR + 1,
        k => PointAt(rows, devices, tenant, end, TruncHour(start) + k * HOUR))
  }

  // ----------------------------------------------------------------------------------------------------------- sorting

  ghost predicate Sorted(s: seq<Event>) {
    forall i, j :: 0 <= i < j < |s| ==> Later(s[j].row, s[i].row)
  }

  ghost predicate DistinctEvents(s: seq<Event>) {
    forall i, j :: 0 <= i < j < |s| ==> s[i].row.id != s[j].row.id
  }

  lemma {:induction false} InsertMembers(e: Event, s: seq<Event>)
    ensures forall x :: x in Insert(e, s) <==> x == e || x in s
    decreases |s|
  {
    if s != [] && !Later(s[0].row, e.row) {
      InsertMembers(e, s[1..]);
    }
  }

  lemma {:induction false} InsertSorts(e: Event, s: seq<Event>)
    requires Sorted(s)
    requires forall x :: x in s ==> x.row.id != e.row.id
    ensures Sorted(Insert(e, s))
    decreases |s|
  {
    if s != [] && !Later(s[0].row, e.row) {
      InsertSorts(e, s[1..]);
      InsertMembers(e, s[1..]);
      var rest := Insert(e, s[1..]);
      forall j | 0 <= j < |rest| ensures Later(rest[j].row, s[0].row) {
        assert rest[j] in rest;
      }
    }
  }

  lemma {:induction false} SortEventsSorts(s: seq<Event>)
    requires DistinctEvents(s)
    ensures Sorted(SortEvents(s))
    ensures forall x :: x in SortEvents(s) <==> x in s
  {
    if s == [] {
    } else {
      SortEventsSorts(s[1..]);
      InsertSorts(s[0], SortEvents(s[1..]));
      InsertMembers(s[0], SortEvents(s[1..]));
    }
  }

  /** How many initial events say online. */
  ghost function InitialOnline(s: seq<Event>): int {
    if s == [] then 0 else InitialOnline(s[1..]) + if s[0].isInitial && s[0].row.status == 1 then 1 else 0
  }

  lemma {:induction false} InsertKeepsInitialOnline(e: Event, s: seq<Event>)
    ensures InitialOnline(Insert(e, s)) == InitialOnline([e] + s)
    decreases |s|
  {
    if s != [] && !Later(s[0].row, e.row) {
      InsertKeepsInitialOnline(e, s[1..]);
      assert ([e] + s)[1..] == s && ([e] + s[1..])[1..] == s[1..];
    }
  }

  lemma {:induction false} SortKeepsInitialOnline(s: seq<Event>)
    ensures InitialOnline(SortEvents(s)) == InitialOnline(s)
  {
    if s == [] {
    } else {
      SortKeepsInitialOnline(s[1..]);
      InsertKeepsInitialOnline(s[0], SortEvents(s[1..]));
    }
  }

  lemma {:induction false} InitialOnlineAppend(a: seq<Event>, b: seq<Event>)
    ensures InitialOnline(a + b) == InitialOnline(a) + InitialOnline(b)
  {
    if a == [] {
      assert a + b == b;
    } else {
      InitialOnlineAppend(a[1..], b);
      assert (a + b)[1..] == a[1..] + b;
    }
  }

  lemma {:induction false} InitialOnlineOfTagged(rows: seq<Row>, isInitial: bool)
    ensures InitialOnline(Tag(rows, isInitial)) == if isInitial then CountOnline(rows) else 0
  {
    if rows == [] {
    } else {
      InitialOnlineOfTagged(rows[1..], isInitial);
      assert Tag(rows, isInitial)[1..] == Tag(rows[1..], isInitial);
    }
  }

  // ------------------------------------------------------------------------------------- counting by telescoping steps

  /** The devices that are online after the events. */
  ghost function OnlineAfter(s: seq<Event>): set<string> {
    set e | e in s && LastStatus(s, e.row.device) == 1 :: e.row.device
  }

  ghost predicate BinaryEvents(s: seq<Event>) {
    forall e :: e in s ==> e.row.status == 0 || e.row.status == 1
  }

  lemma {:induction false} LastStatusIn(s: seq<Event>, d: string)
    ensures (exists e :: e in s && e.row.device == d && e.row.status == LastStatus(s, d)) ||
            (LastStatus(s, d) == 0 && forall e :: e in s ==> e.row.device != d)
  {
    if s != [] && s[|s| - 1].row.device != d {
      LastStatusIn(s[..|s| - 1], d);
    }
  }

  lemma LastStatusIsBinary(s: seq<Event>, d: string)
    requires BinaryEvents(s)
    ensures LastStatus(s, d) == 0 || LastStatus(s, d) == 1
  {
    LastStatusIn(s, d);
  }

  lemma LastStatusSnoc(s: seq<Event>, e: Event, d: string)
    ensures LastStatus(s + [e], d) == if d == e.row.device then e.row.status else LastStatus(s, d)
  {
    assert (s + [e])[..|s|] == s;
  }

  lemma OnlineAfterMembers(s: seq<Event>, d: string)
    ensures d in OnlineAfter(s) <==> LastStatus(s, d) == 1
  {
    LastStatusIn(s, d);
  }

  /** One event changes the number of online devices by exactly its step. */
  lemma OnlineAfterSnoc(s: seq<Event>, e: Event)
    requires BinaryEvents(s) && (e.row.status == 0 || e.row.status == 1)
    ensures |OnlineAfter(s + [e])| == |OnlineAfter(s)| + Step(e.row.status, LastStatus(s, e.row.device))
  {
    var d := e.row.device;
    forall x ensures x in OnlineAfter(s + [e]) <==> if x == d then e.row.status == 1 else x in OnlineAfter(s) {
      OnlineAfterMembers(s + [e], x);
      LastStatusSnoc(s, e, x);
      OnlineAfterMembers(s, x);
    }
    OnlineAfterMembers(s, d);
    LastStatusIsBinary(s, d);
    ReplaceMember(OnlineAfter(s), OnlineAfter(s + [e]), d);
  }

  lemma ReplaceMember(before: set<string>, after: set<string>, d: string)
    requires forall x :: x != d ==> (x in before <==> x in after)
    ensures |after| == |before| + (if d in after then 1 else 0) - (if d in before then 1 else 0)
  {
    assert before - {d} == after - {d};
    if d in before { assert before == (before - {d}) + {d}; } else { assert before == before - {d}; }
    if d in after { assert after == (after - {d}) + {d}; } else { assert after == after - {d}; }
  }

  /** The sum of the steps of the range's events before the cut. */
  ghost function RangeSum(s: seq<LaggedEvent>, cut: int): int {
    if s == [] then 0 else
      var n := |s| - 1;
      RangeSum(s[..n], cut) +
      if s[n].event.isInitial || s[n].event.row.time >= cut then 0 else Step(s[n].event.row.status, s[n].previous)
  }

  /** The events before the cut. */
  ghost function Prefix(s: seq<Event>, cut: int): seq<Event> {
    if s == [] then [] else if s[|s| - 1].row.time < cut then s else Prefix(s[..|s| - 1], cut)
  }

  lemma {:induction false} PrefixMembers(s: seq<Event>, cut: int)
    requires Sorted(s)
    ensures Sorted(Prefix(s, cut))
    ensures forall e :: e in Prefix(s, cut) <==> e in s && e.row.time < cut
  {
    if s == [] {
    } else {
      if s[|s| - 1].row.time < cut {
        forall e | e in s ensures e.row.time < cut {
          var i :| 0 <= i < |s| && s[i] == e;
        }
      } else {
        PrefixMembers(s[..|s| - 1], cut);
        assert s == s[..|s| - 1] + [s[|s| - 1]];
      }
    }
  }

  /** The shape of sorted status events: one initial event of a device, before all its other events and before the
      cut. */
  ghost predicate BaselineFirst(s: seq<Event>, cut: int) {
    forall e :: e in s && e.isInitial ==>
                  e.row.time < cut &&
                  forall x :: x in s && x.row.device == e.row.device && x != e ==> Later(x.row, e.row)
  }

  /** The baseline and the steps of the range add up to the devices online after all events before the cut. */
  lemma {:induction false} BaselinePlusSteps(s: seq<Event>, cut: int)
    requires Sorted(s) && BinaryEvents(s) && BaselineFirst(s, cut)
    ensures InitialOnline(s) + RangeSum(WithLag(s), cut) == |OnlineAfter(Prefix(s, cut))|
  {
    if s == [] {
    } else {
      var n := |s| - 1;
      assert s == s[..n] + [s[n]];
      BaselinePlusSteps(s[..n], cut);
      OneMoreEvent(s[..n], s[n], cut);
    }
  }

  lemma OneMoreEvent(rest: seq<Event>, e: Event, cut: int)
    requires Sorted(rest + [e]) && BinaryEvents(rest + [e]) && BaselineFirst(rest + [e], cut)
    requires InitialOnline(rest) + RangeSum(WithLag(rest), cut) == |OnlineAfter(Prefix(rest, cut))|
    ensures InitialOnline(rest + [e]) + RangeSum(WithLag(rest + [e]), cut) == |OnlineAfter(Prefix(rest + [e], cut))|
  {
    var s, n := rest + [e], |rest|;
    assert s[..n] == rest && e in s;
    InitialOnlineAppend(rest, [e]);
    var lagged := LaggedEvent(e, LastStatus(rest, e.row.device));
    assert WithLag(s) == WithLag(rest) + [lagged];
    assert (WithLag(rest) + [lagged])[..|WithLag(rest)|] == WithLag(rest);
    if e.row.time < cut {
      PrefixIsAll(rest, e, cut);
      assert forall x :: x in rest ==> x in s;
      OnlineAfterSnoc(rest, e);
      if e.isInitial {
        InitialHasNoPrevious(rest, e, cut);
      }
    }
  }

  lemma InitialHasNoPrevious(rest: seq<Event>, e: Event, cut: int)
    requires Sorted(rest + [e]) && BaselineFirst(rest + [e], cut) && e.isInitial
    ensures LastStatus(rest, e.row.device) == 0
  {
    var s := rest + [e];
    assert e in s;
    forall i | 0 <= i < |rest| ensures rest[i].row.device != e.row.device {
      assert s[i] == rest[i] && s[|rest|] == e && s[i] in s;
      assert Later(e.row, s[i].row);
    }
    LastStatusIn(rest, e.row.device);
  }

  lemma PrefixIsAll(rest: seq<Event>, e: Event, cut: int)
    requires Sorted(rest + [e]) && e.row.time < cut
    ensures Prefix(rest, cut) == rest
  {
    if rest != [] {
      assert (rest + [e])[|rest| - 1] == rest[|rest| - 1] && (rest + [e])[|rest|] == e;
    }
  }

  // ----------------------------------------------------------------------------------- the hour buckets and the series

  /** The sum over the hours lo, lo + HOUR, .. up to hi. */
  ghost function SeriesSum(deltas: map<int, int>, lo: int, hi: int): int
    decreases hi - lo
  {
    if lo > hi then 0 else SeriesSum(deltas, lo, hi - HOUR) + Coalesce(deltas, hi)
  }

  lemma {:induction false} SeriesSumUpdate(deltas: map<int, int>, lo: int, hi: int, h: int, v: int)
    requires lo % HOUR == hi % HOUR == h % HOUR == 0
    ensures SeriesSum(deltas[h := v], lo, hi) ==
            SeriesSum(deltas, lo, hi) + if lo <= h <= hi then v - Coalesce(deltas, h) else 0
    decreases hi - lo
  {
    if lo <= hi {
      SeriesSumUpdate(deltas, lo, hi - HOUR, h, v);
      if h < hi { AlignedGap(h, hi); }
      assert (hi - HOUR) % HOUR == 0;
    }
  }

  lemma AlignedGap(a: int, b: int)
    requires a % HOUR == b % HOUR == 0 && a < b
    ensures a + HOUR <= b
  {
    assert a == HOUR * (a / HOUR) && b == HOUR * (b / HOUR);
  }

  lemma {:induction false} AlignedStep(a: int, k: nat)
    requires a % HOUR == 0
    ensures (a + k * HOUR) % HOUR == 0 && a <= a + k * HOUR
    decreases k
  {
    if k == 0 {
    } else {
      AlignedStep(a, k - 1);
      assert a + k * HOUR == a + (k - 1) * HOUR + HOUR;
    }
  }

  lemma TruncHourAligned(t: int)
    ensures TruncHour(t) % HOUR == 0 && TruncHour(t) <= t < TruncHour(t) + HOUR
  {
    assert t == HOUR * (t / HOUR) + t % HOUR;
    assert TruncHour(t) == HOUR * (t / HOUR);
  }

  lemma {:induction false} BucketsAddUp(s: seq<LaggedEvent>, lo: int, hi: int)
    requires lo % HOUR == hi % HOUR == 0
    requires forall e :: e in s && !e.event.isInitial ==> lo <= e.event.row.time
    ensures SeriesSum(HourlyDelta(s), lo, hi) == RangeSum(s, hi + HOUR)
  {
    if s == [] {
      EmptySeries(lo, hi);
    } else {
      var n := |s| - 1;
      assert s == s[..n] + [s[n]];
      BucketsAddUp(s[..n], lo, hi);
      var e := s[n];
      if !e.event.isInitial {
        var h := TruncHour(e.event.row.time);
        TruncHourAligned(e.event.row.time);
        var deltas := HourlyDelta(s[..n]);
        SeriesSumUpdate(deltas, lo, hi, h, Coalesce(deltas, h) + Step(e.event.row.status, e.previous));
        if h < lo { AlignedGap(h, lo); }
        if hi < h { AlignedGap(hi, h); }
        assert e in s;
        assert h <= hi <==> e.event.row.time < hi + HOUR;
      }
    }
  }

  lemma {:induction false} EmptySeries(lo: int, hi: int)
    ensures SeriesSum(map[], lo, hi) == 0
    decreases hi - lo
  {
    if lo <= hi {
      EmptySeries(lo, hi - HOUR);
    }
  }

  lemma {:induction false} WithLagMembers(s: seq<Event>)
    ensures |WithLag(s)| == |s|
    ensures forall i :: 0 <= i < |s| ==> WithLag(s)[i].event == s[i]
  {
    if s == [] {
    } else {
      WithLagMembers(s[..|s| - 1]);
    }
  }

  lemma TruncHourMonotone(a: int, b: int)
    requires a <= b
    ensures TruncHour(a) <= TruncHour(b)
  {
    TruncHourAligned(a);
    TruncHourAligned(b);
    if TruncHour(b) < TruncHour(a) { AlignedGap(TruncHour(b), TruncHour(a)); }
  }

  /** The first point, and the points of the later hours with the sum so far. */
  lemma FirstPoint(lo: int, hi: int, initial: int, deltas: map<int, int>, sum: int, total: int)
    requires lo <= hi
    ensures var sum' := sum + Coalesce(deltas, lo);
            var shown := if initial + sum' < 0 then 0 else initial + sum';
            Points(lo, hi, initial, deltas, sum, total) ==
            [Point(lo, total, shown, total - shown)] + Points(lo + HOUR, hi, initial, deltas, sum', total)
  {
    assert HourSeries(lo, hi)[1..] == HourSeries(lo + HOUR, hi);
  }

  lemma HoursLeft(lo: int, hi: int)
    requires lo % HOUR == hi % HOUR == 0 && lo <= hi
    ensures lo + HOUR > hi ==> (hi - lo) / HOUR == 0
    ensures lo + HOUR <= hi ==> (hi - lo) / HOUR == (hi - (lo + HOUR)) / HOUR + 1
  {
    if lo < hi { AlignedGap(lo, hi); }
  }

  /** What the last four stages compute, point by point. */
  lemma {:induction false} PointsFromSeries(first: int, lo: int, hi: int, initial: int, deltas: map<int, int>,
                                            total: int,
                                            sum: int)
    requires first % HOUR == lo % HOUR == hi % HOUR == 0 && first <= lo
    requires sum == SeriesSum(deltas, first, lo - HOUR)
    ensures var points := Points(lo, hi, initial, deltas, sum, total);
            |points| == (if lo > hi then 0 else (hi - lo) / HOUR + 1) &&
            forall k :: 0 <= k < |points| ==>
                          var online := initial + SeriesSum(deltas, first, lo + k * HOUR);
                          var shown := if online < 0 then 0 else online;
                          points[k] == Point(lo + k * HOUR, total, shown, total - shown)
    decreases hi - lo
  {
    if lo > hi {
    } else {
      var sum' := SeriesSum(deltas, first, lo);
      var points, tail := Points(lo, hi, initial, deltas, sum, total),
          Points(lo + HOUR, hi, initial, deltas, sum', total);
      FirstPoint(lo, hi, initial, deltas, sum, total);
      HoursLeft(lo, hi);
      PointsFromSeries(first, lo + HOUR, hi, initial, deltas, total, sum');
      forall k | 0 < k < |points|
        ensures var online := initial + SeriesSum(deltas, first, lo + k * HOUR);
                var shown := if online < 0 then 0 else online;
                points[k] == Point(lo + k * HOUR, total, shown, total - shown)
      {
        assert points[k] == tail[k - 1];
        assert lo + HOUR + (k - 1) * HOUR == lo + k * HOUR;
      }
    }
  }

  // ---------------------------------------------------------------------------------- events against the history table

  lemma DistinctCons(r: Row, rest: seq<Row>)
    requires DistinctIds(rest) && forall q :: q in rest ==> q.id != r.id
    ensures DistinctIds([r] + rest)
  {
    forall i, j | 0 <= i < j < |[r] + rest| ensures ([r] + rest)[i].id != ([r] + rest)[j].id {
      if i == 0 { assert ([r] + rest)[j] in rest; }
    }
  }

  lemma DistinctTail(rows: seq<Row>)
    requires DistinctIds(rows) && rows != []
    ensures DistinctIds(rows[1..]) && forall q :: q in rows[1..] ==> q.id != rows[0].id
  {
  }

  /** The time filters keep exactly the tenant's rows after the lower and not after the upper bound. */
  lemma {:induction false} RowsBetweenMembers(rows: seq<Row>, tenant: string, lo: Option<int>, hi: int, q: Row)
    ensures q in RowsBetween(rows, tenant, lo, hi) <==>
            q in rows && q.tenant == tenant && q.time <= hi && (lo.Some? ==> lo.value < q.time)
    decreases |rows|
  {
    if rows == [] {
    } else {
      assert rows == [rows[0]] + rows[1..];
      RowsBetweenMembers(rows[1..], tenant, lo, hi, q);
    }
  }

  lemma {:induction false} RowsBetweenDistinct(rows: seq<Row>, tenant: string, lo: Option<int>, hi: int)
    requires DistinctIds(rows)
    ensures DistinctIds(RowsBetween(rows, tenant, lo, hi))
    decreases |rows|
  {
    if rows == [] {
    } else {
      var rest := RowsBetween(rows[1..], tenant, lo, hi);
      DistinctTail(rows);
      RowsBetweenDistinct(rows[1..], tenant, lo, hi);
      forall q | q in rest ensures q in rows[1..] {
        RowsBetweenMembers(rows[1..], tenant, lo, hi, q);
      }
      DistinctCons(rows[0], rest);
    }
  }

  /** DISTINCT ON keeps exactly the rows that are latest of their device. */
  lemma {:induction false} DistinctOnDeviceMembers(rows: seq<Row>, relation: seq<Row>, q: Row)
    ensures q in DistinctOnDevice(rows, relation) <==> q in rows && IsLatest(relation, q)
    decreases |rows|
  {
    if rows == [] {
    } else {
      assert rows == [rows[0]] + rows[1..];
      DistinctOnDeviceMembers(rows[1..], relation, q);
    }
  }

  lemma {:induction false} DistinctOnDeviceDistinct(rows: seq<Row>, relation: seq<Row>)
    requires DistinctIds(rows)
    ensures DistinctIds(DistinctOnDevice(rows, relation))
    decreases |rows|
  {
    if rows == [] {
    } else {
      var rest := DistinctOnDevice(rows[1..], relation);
      DistinctTail(rows);
      DistinctOnDeviceDistinct(rows[1..], relation);
      forall q | q in rest ensures q in rows[1..] {
        DistinctOnDeviceMembers(rows[1..], relation, q);
      }
      DistinctCons(rows[0], rest);
    }
  }

  /** The baseline: of every device the latest row not after the start. */
  lemma InitialStatusMembers(rows: seq<Row>, tenant: string, start: int, q: Row)
    ensures q in InitialStatus(rows, tenant, start) <==>
            q in rows && q.tenant == tenant && q.time <= start && IsLatest(RowsBetween(rows, tenant, None, start), q)
  {
    var before := RowsBetween(rows, tenant, None, start);
    RowsBetweenMembers(rows, tenant, None, start, q);
    DistinctOnDeviceMembers(before, before, q);
  }

  lemma InitialStatusDistinct(rows: seq<Row>, tenant: string, start: int)
    requires DistinctIds(rows)
    ensures DistinctIds(InitialStatus(rows, tenant, start))
  {
    var before := RowsBetween(rows, tenant, None, start);
    RowsBetweenDistinct(rows, tenant, None, start);
    DistinctOnDeviceDistinct(before, before);
  }

  lemma EventsDistinct(rows: seq<Row>, tenant: string, start: int, end: int)
    requires DistinctIds(rows)
    ensures DistinctEvents(StatusEvents(rows, tenant, start, end))
  {
    var initial, range := InitialStatus(rows, tenant, start), RowsBetween(rows, tenant, Some(start), end);
    var events := StatusEvents(rows, tenant, start, end);
    InitialStatusDistinct(rows, tenant, start);
    RowsBetweenDistinct(rows, tenant, Some(start), end);
    forall i, j | 0 <= i < j < |events| ensures events[i].row.id != events[j].row.id {
      if i < |initial| <= j {
        assert initial[i] in initial && range[j - |initial|] in range;
        InitialStatusMembers(rows, tenant, start, initial[i]);
        RowsBetweenMembers(rows, tenant, Some(start), end, range[j - |initial|]);
        DistinctRows(rows, initial[i], range[j - |initial|]);
      }
    }
  }

  /** A baseline row comes before all other events of its device. */
  lemma InitialIsOldest(rows: seq<Row>, tenant: string, start: int, end: int, e: Event, x: Event)
    requires DistinctIds(rows) && x != e && e.isInitial && x.row.device == e.row.device
    requires e in StatusEvents(rows, tenant, start, end) && x in StatusEvents(rows, tenant, start, end)
    ensures Later(x.row, e.row)
  {
    EventSource(rows, tenant, start, end, e);
    EventSource(rows, tenant, start, end, x);
    if x.isInitial {
      RowsBetweenMembers(rows, tenant, None, start, x.row);
      RowsBetweenMembers(rows, tenant, None, start, e.row);
      DistinctRows(rows, x.row, e.row);
    }
  }

  lemma EventsOfTheHistory(rows: seq<Row>, tenant: string, start: int, end: int, cut: int)
    requires DistinctIds(rows) && start < cut
    ensures var s := SortEvents(StatusEvents(rows, tenant, start, end));
            Sorted(s) && BaselineFirst(s, cut) && (BinaryStatus(rows) ==> BinaryEvents(s)) &&
            InitialOnline(s) == CountOnline(InitialStatus(rows, tenant, start)) &&
            forall e :: e in s <==> e in StatusEvents(rows, tenant, start, end)
  {
    var initial := InitialStatus(rows, tenant, start);
    var range := RowsBetween(rows, tenant, Some(start), end);
    var events := StatusEvents(rows, tenant, start, end);
    EventsDistinct(rows, tenant, start, end);
    SortEventsSorts(events);
    SortKeepsInitialOnline(events);
    InitialOnlineAppend(Tag(initial, true), Tag(range, false));
    InitialOnlineOfTagged(initial, true);
    InitialOnlineOfTagged(range, false);
    forall e, x | e in events && e.isInitial && x in events && x.row.device == e.row.device && x != e
      ensures Later(x.row, e.row)
    {
      InitialIsOldest(rows, tenant, start, end, e, x);
    }
    forall e | e in events ensures e.row in rows && (e.isInitial ==> e.row.time <= start) {
      EventSource(rows, tenant, start, end, e);
    }
  }

  lemma DistinctRows(rows: seq<Row>, a: Row, b: Row)
    requires DistinctIds(rows) && a in rows && b in rows
    ensures a == b || a.id != b.id
  {
    var i :| 0 <= i < |rows| && rows[i] == a;
    var j :| 0 <= j < |rows| && rows[j] == b;
    assert i < j || j < i || i == j;
  }

  lemma TagMember(rows: seq<Row>, isInitial: bool, e: Event)
    ensures e in Tag(rows, isInitial) <==> e.isInitial == isInitial && e.row in rows
  {
    if e.isInitial == isInitial && e.row in rows {
      var i :| 0 <= i < |rows| && rows[i] == e.row;
      assert Tag(rows, isInitial)[i] == e;
    }
  }

  /** Which rows become events. */
  lemma EventSource(rows: seq<Row>, tenant: string, start: int, end: int, e: Event)
    ensures e in StatusEvents(rows, tenant, start, end) <==>
            e.row in rows && e.row.tenant == tenant &&
            if e.isInitial then e.row.time <= start && IsLatest(RowsBetween(rows, tenant, None, start), e.row)
            else start < e.row.time <= end
  {
    TagMember(InitialStatus(rows, tenant, start), true, e);
    TagMember(RowsBetween(rows, tenant, Some(start), end), false, e);
    InitialStatusMembers(rows, tenant, start, e.row);
    RowsBetweenMembers(rows, tenant, Some(start), end, e.row);
  }

  /** In sorted events the last status of a device is the status of its latest event. */
  lemma {:induction false} LastStatusOfLatest(s: seq<Event>, e: Event)
    requires Sorted(s) && e in s
    requires forall x :: x in s && x.row.device == e.row.device ==> !Later(x.row, e.row)
    ensures LastStatus(s, e.row.device) == e.row.status
  {
    var n := |s| - 1;
    if s[n].row.device == e.row.device {
      var i :| 0 <= i < |s| && s[i] == e;
      assert s[n] in s;
      assert i == n;
    } else {
      assert s == s[..n] + [s[n]];
      LastStatusOfLatest(s[..n], e);
    }
  }

  /** Of the rows of a device that happened there is a last one. */
  lemma {:induction false} LastWordExists(rows: seq<Row>, among: seq<Row>, tenant: string, cut: int, end: int,
                                          d: string)
    returns (r: Row)
    requires forall q :: q in among ==> q in rows
    requires exists q :: q in among && q.device == d && Happened(q, tenant, cut, end)
    ensures r in among && r.device == d && Happened(r, tenant, cut, end)
    ensures forall q :: q in among && q.device == d && Happened(q, tenant, cut, end) ==> !Later(q, r)
    decreases |among|
  {
    var a, rest := among[0], among[1..];
    assert among == [a] + rest;
    if exists q :: q in rest && q.device == d && Happened(q, tenant, cut, end) {
      r := LastWordExists(rows, rest, tenant, cut, end, d);
      if a.device == d && Happened(a, tenant, cut, end) && Later(a, r) {
        r := a;
      }
    } else {
      r := a;
    }
  }

  /** A last row not after the start is in the baseline. */
  lemma LastWordIsLatest(rows: seq<Row>, tenant: string, start: int, end: int, cut: int, r: Row)
    requires start <= end && start < cut && IsLastWord(rows, r, tenant, cut, end)
    ensures IsLatest(RowsBetween(rows, tenant, None, start), r)
  {
    forall q | q in RowsBetween(rows, tenant, None, start) && q.device == r.device ensures !Later(q, r) {
      RowsBetweenMembers(rows, tenant, None, start, q);
      assert Happened(q, tenant, cut, end);
    }
  }

  /** The last row of a device is one of the query's events, and the device's latest before the cut. */
  lemma LastWordIsEvent(rows: seq<Row>, tenant: string, start: int, end: int, cut: int, r: Row) returns (e: Event)
    requires DistinctIds(rows) && start <= end && start < cut && IsLastWord(rows, r, tenant, cut, end)
    ensures e.row == r && e in Prefix(SortEvents(StatusEvents(rows, tenant, start, end)), cut)
    ensures LastStatus(Prefix(SortEvents(StatusEvents(rows, tenant, start, end)), cut), r.device) == r.status
  {
    var s := SortEvents(StatusEvents(rows, tenant, start, end));
    EventsOfTheHistory(rows, tenant, start, end, cut);
    PrefixMembers(s, cut);
    e := Event(r, r.time <= start);
    LastWordIsLatest(rows, tenant, start, end, cut, r);
    EventSource(rows, tenant, start, end, e);
    forall x | x in Prefix(s, cut) && x.row.device == r.device ensures !Later(x.row, r) {
      EventSource(rows, tenant, start, end, x);
      assert Happened(x.row, tenant, cut, end);
    }
    LastStatusOfLatest(Prefix(s, cut), e);
  }

  lemma EventsMatchLastWords(rows: seq<Row>, tenant: string, start: int, end: int, cut: int)
    requires DistinctIds(rows) && start <= end && start < cut
    ensures OnlineAfter(Prefix(SortEvents(StatusEvents(rows, tenant, start, end)), cut)) ==
            OnlineDevices(rows, tenant, cut, end)
  {
    var s := SortEvents(StatusEvents(rows, tenant, start, end));
    var p := Prefix(s, cut);
    EventsOfTheHistory(rows, tenant, start, end, cut);
    PrefixMembers(s, cut);
    forall d | d in OnlineAfter(p) ensures d in OnlineDevices(rows, tenant, cut, end) {
      var x :| x in p && x.row.device == d && LastStatus(p, d) == 1;
      EventSource(rows, tenant, start, end, x);
      assert Happened(x.row, tenant, cut, end);
      var r := LastWordExists(rows, rows, tenant, cut, end, d);
      var e := LastWordIsEvent(rows, tenant, start, end, cut, r);
    }
    forall d | d in OnlineDevices(rows, tenant, cut, end) ensures d in OnlineAfter(p) {
      var r :| r in rows && IsLastWord(rows, r, tenant, cut, end) && r.status == 1 && r.device == d;
      var e := LastWordIsEvent(rows, tenant, start, end, cut, r);
    }
  }

  // ------------------------------------------------------------------------------------------------------ main results

  /** The unclamped running value of the query at an hour. */
  ghost function RunningValue(rows: seq<Row>, tenant: string, start: int, end: int, hour: int): int {
    CountOnline(InitialStatus(rows, tenant, start)) +
    SeriesSum(Deltas(rows, tenant, start, end), TruncHour(start), hour)
  }

  /** The unclamped value at an hour of the range is the number of devices online by the end of that hour. */
  lemma BaselinePlusDeltasIsOnlineCount(rows: seq<Row>, tenant: string, start: int, end: int, hour: int)
    requires DistinctIds(rows) && BinaryStatus(rows) && start <= end
    requires hour % HOUR == 0 && TruncHour(start) <= hour
    ensures RunningValue(rows, tenant, start, end, hour) == |OnlineDevices(rows, tenant, hour + HOUR, end)|
  {
    var cut := hour + HOUR;
    TruncHourAligned(start);
    var s := SortEvents(StatusEvents(rows, tenant, start, end));
    EventsOfTheHistory(rows, tenant, start, end, cut);
    BaselinePlusSteps(s, cut);
    EventsMatchLastWords(rows, tenant, start, end, cut);
    WithLagMembers(s);
    forall e | e in WithLag(s) && !e.event.isInitial ensures TruncHour(start) <= e.event.row.time {
      var i :| 0 <= i < |s| && WithLag(s)[i] == e;
      assert s[i] in s;
      EventSource(rows, tenant, start, end, s[i]);
    }
    BucketsAddUp(WithLag(s), TruncHour(start), hour);
  }

  lemma PointValue(lo: int, hi: int, initial: int, deltas: map<int, int>, total: int, k: nat, hour: int)
    requires lo % HOUR == hi % HOUR == 0 && lo <= hi && k <= (hi - lo) / HOUR && hour == lo + k * HOUR
    ensures |Points(lo, hi, initial, deltas, 0, total)| == (hi - lo) / HOUR + 1
    ensures var online := initial + SeriesSum(deltas, lo, hour);
            var shown := if online < 0 then 0 else online;
            Points(lo, hi, initial, deltas, 0, total)[k] == Point(hour, total, shown, total - shown)
  {
    PointsFromSeries(lo, lo, hi, initial, deltas, total, 0);
  }

  lemma HourOfRange(start: int, end: int, k: nat, hour: int)
    requires start <= end && hour == TruncHour(start) + k * HOUR
    ensures TruncHour(start) % HOUR == TruncHour(end) % HOUR == 0 && TruncHour(start) <= TruncHour(end)
    ensures hour % HOUR == 0 && TruncHour(start) <= hour
  {
    TruncHourAligned(start);
    TruncHourAligned(end);
    TruncHourMonotone(start, end);
    AlignedStep(TruncHour(start), k);
  }

  lemma TrendPoint(rows: seq<Row>, devices: seq<Device>, tenant: string, start: int, end: int, k: nat, hour: int)
    requires DistinctIds(rows) && BinaryStatus(rows) && start <= end
    requires k <= (TruncHour(end) - TruncHour(start)) / HOUR && hour == TruncHour(start) + k * HOUR
    ensures |Trend(rows, devices, tenant, start, end)| == (TruncHour(end) - TruncHour(start)) / HOUR + 1
    ensures Trend(rows, devices, tenant, start, end)[k] == PointAt(rows, devices, tenant, end, hour)
  {
    HourOfRange(start, end, k, hour);
    PointValue(TruncHour(start), TruncHour(end), CountOnline(InitialStatus(rows, tenant, start)),
               Deltas(rows, tenant, start, end), DeviceTotal(devices, tenant, end), k, hour);
    BaselinePlusDeltasIsOnlineCount(rows, tenant, start, end, hour);
  }

  /** The whole query: one point for every hour from the start's hour to the end's hour, and every point counts the
      devices whose last row, by the end of its hour and of the range, has status 1. The clamp at 0 never applies. */
  lemma TrendCountsOnlineDevices(rows: seq<Row>, devices: seq<Device>, tenant: string, start: int, end: int)
    requires DistinctIds(rows) && BinaryStatus(rows) && start <= end
    ensures Trend(rows, devices, tenant, start, end) == Meaning(rows, devices, tenant, start, end)
  {
    TruncHourMonotone(start, end);
    var points, meaning := Trend(rows, devices, tenant, start, end), Meaning(rows, devices, tenant, start, end);
    TrendPoint(rows, devices, tenant, start, end, 0, TruncHour(start));
    forall k: nat | k < |meaning| ensures points[k] == meaning[k] {
      TrendPoint(rows, devices, tenant, start, end, k, TruncHour(start) + k * HOUR);
    }
  }

  lemma NothingAfterStart(rows: seq<Row>, tenant: string, start: int, end: int)
    requires end <= start
    ensures RowsBetween(rows, tenant, Some(start), end) == []
  {
    var rest := RowsBetween(rows, tenant, Some(start), end);
    if rest != [] {
      RowsBetweenMembers(rows, tenant, Some(start), end, rest[0]);
    }
  }

  lemma ReversedDeltas(rows: seq<Row>, tenant: string, start: int, end: int)
    requires end <= start
    ensures Deltas(rows, tenant, start, end) == Deltas(rows, tenant, start, start)
  {
    NothingAfterStart(rows, tenant, start, end);
    NothingAfterStart(rows, tenant, start, start);
  }

  lemma OnePoint(hour: int, initial: int, deltas: map<int, int>, total: int)
    requires hour % HOUR == 0 && initial + SeriesSum(deltas, hour, hour) >= 0
    ensures var online := initial + SeriesSum(deltas, hour, hour);
            Points(hour, hour, initial, deltas, 0, total) == [Point(hour, total, online, total - online)]
  {
    PointValue(hour, hour, initial, deltas, total, 0, hour);
  }

  lemma HourOf(start: int, hour: int)
    requires hour == TruncHour(start)
    ensures hour % HOUR == 0 && start < hour + HOUR
  {
    TruncHourAligned(start);
  }

  /** A range that ends before it starts has no points when it ends in an earlier hour. */
  lemma ReversedRangeIsEmpty(rows: seq<Row>, devices: seq<Device>, tenant: string, start: int, end: int)
    requires TruncHour(end) < TruncHour(start)
    ensures Trend(rows, devices, tenant, start, end) == []
  {
  }

  /** Otherwise it has the one point of that hour, which counts the devices whose last row not after the start has
      status 1. */
  lemma ReversedRangeCountsAtStart(rows: seq<Row>, devices: seq<Device>, tenant: string, start: int, end: int,
                                   hour: int)
    requires DistinctIds(rows) && BinaryStatus(rows) && end < start && TruncHour(start) == TruncHour(end) == hour
    ensures var total, online := DeviceTotal(devices, tenant, end), |OnlineDevices(rows, tenant, hour + HOUR, start)|;
            Trend(rows, devices, tenant, start, end) == [Point(hour, total, online, total - online)]
  {
    HourOf(start, hour);
    BaselinePlusDeltasIsOnlineCount(rows, tenant, start, start, hour);
    ReversedDeltas(rows, tenant, start, end);
    OnePoint(hour, CountOnline(InitialStatus(rows, tenant, start)), Deltas(rows, tenant, start, end),
             DeviceTotal(devices, tenant, end));
  }

  lemma HoursBetween(a: int, b: int) returns (n: nat)
    requires a % HOUR == b % HOUR == 0 && a <= b
    ensures b == a + n * HOUR && n == (b - a) / HOUR
  {
    assert a == HOUR * (a / HOUR) && b == HOUR * (b / HOUR);
    n := b / HOUR - a / HOUR;
  }

  lemma MeaningIndependentOfStart(rows: seq<Row>, devices: seq<Device>, tenant: string, start: int, mid: int, end: int)
    returns (skipped: nat)
    requires start <= mid <= end
    ensures skipped == (TruncHour(mid) - TruncHour(start)) / HOUR
    ensures skipped < |Meaning(rows, devices, tenant, start, end)|
    ensures Meaning(rows, devices, tenant, mid, end) == Meaning(rows, devices, tenant, start, end)[skipped..]
  {
    TruncHourMonotone(start, mid);
    TruncHourMonotone(mid, end);
    TruncHourAligned(start);
    TruncHourAligned(mid);
    TruncHourAligned(end);
    skipped := HoursBetween(TruncHour(start), TruncHour(mid));
    var rest := HoursBetween(TruncHour(mid), TruncHour(end));
    var all := HoursBetween(TruncHour(start), TruncHour(end));
    assert all == skipped + rest;
    var whole, part := Meaning(rows, devices, tenant, start, end), Meaning(rows, devices, tenant, mid, end);
    forall k: nat | k < |part| ensures part[k] == whole[skipped + k] {
      assert TruncHour(mid) + k * HOUR == TruncHour(start) + (skipped + k) * HOUR;
    }
  }

  /** The trend does not depend on where it starts: a later start, aligned to an hour or not, only drops the points of
      the hours before it. */
  lemma TrendIndependentOfStart(rows: seq<Row>, devices: seq<Device>, tenant: string, start: int, mid: int, end: int)
    returns (skipped: nat)
    requires DistinctIds(rows) && BinaryStatus(rows) && start <= mid <= end
    ensures skipped == (TruncHour(mid) - TruncHour(start)) / HOUR
    ensures skipped < |Trend(rows, devices, tenant, start, end)|
    ensures Trend(rows, devices, tenant, mid, end) == Trend(rows, devices, tenant, start, end)[skipped..]
  {
    TrendCountsOnlineDevices(rows, devices, tenant, start, end);
    TrendCountsOnlineDevices(rows, devices, tenant, mid, end);
    skipped := MeaningIndependentOfStart(rows, devices, tenant, start, mid, end);
  }

  /** The status of the device just before r, and 0 when the device has no earlier row. */
  ghost predicate RepeatsPrevious(rows: seq<Row>, r: Row) {
    if exists q :: Precedes(rows, q, r)
    then exists q :: Precedes(rows, q, r) && q.status == r.status && forall x :: Precedes(rows, x, r) ==> !Later(x, q)
    else r.status == 0
  }

  ghost predicate Precedes(rows: seq<Row>, q: Row, r: Row) {
    q in rows && q.tenant == r.tenant && q.device == r.device && Later(r, q)
  }

  lemma RepeatedRowChangesNoSet(rows: seq<Row>, r: Row, tenant: string, cut: int, end: int)
    requires DistinctIds(rows + [r]) && BinaryStatus(rows + [r]) && RepeatsPrevious(rows, r)
    ensures OnlineDevices(rows + [r], tenant, cut, end) == OnlineDevices(rows, tenant, cut, end)
  {
    var more := rows + [r];
    assert forall x :: x in more <==> x in rows || x == r;
    forall d | d in OnlineDevices(more, tenant, cut, end) ensures d in OnlineDevices(rows, tenant, cut, end) {
      var x :| x in more && IsLastWord(more, x, tenant, cut, end) && x.status == 1 && x.device == d;
      if x == r {
        var q :| Precedes(rows, q, r) && q.status == r.status && forall y :: Precedes(rows, y, r) ==> !Later(y, q);
        forall y | y in rows && y.device == d && Happened(y, tenant, cut, end) ensures !Later(y, q) {
          DistinctRowsOf(rows, r, y);
          assert !Later(y, r);
          assert Precedes(rows, y, r);
        }
        assert IsLastWord(rows, q, tenant, cut, end);
      } else {
        assert IsLastWord(rows, x, tenant, cut, end);
      }
    }
    forall d | d in OnlineDevices(rows, tenant, cut, end) ensures d in OnlineDevices(more, tenant, cut, end) {
      var x :| x in rows && IsLastWord(rows, x, tenant, cut, end) && x.status == 1 && x.device == d;
      if r.device == d && Happened(r, tenant, cut, end) && Later(r, x) {
        assert Precedes(rows, x, r);
        var q :| Precedes(rows, q, r) && q.status == r.status && forall y :: Precedes(rows, y, r) ==> !Later(y, q);
        assert !Later(x, q) && !Later(q, x);
        DistinctRows(more, x, q);
        assert IsLastWord(more, r, tenant, cut, end);
      } else {
        assert IsLastWord(more, x, tenant, cut, end);
      }
    }
  }

  lemma DistinctRowsOf(rows: seq<Row>, r: Row, y: Row)
    requires DistinctIds(rows + [r]) && y in rows
    ensures y.id != r.id
  {
    var i :| 0 <= i < |rows| && rows[i] == y;
    assert (rows + [r])[i] == y && (rows + [r])[|rows|] == r;
  }

  lemma RepeatedRowKeepsMeaning(rows: seq<Row>, r: Row, devices: seq<Device>, tenant: string, start: int, end: int)
    requires DistinctIds(rows + [r]) && BinaryStatus(rows + [r]) && RepeatsPrevious(rows, r) && start <= end
    ensures Meaning(rows + [r], devices, tenant, start, end) == Meaning(rows, devices, tenant, start, end)
  {
    forall hour ensures PointAt(rows + [r], devices, tenant, end, hour) == PointAt(rows, devices, tenant, end, hour) {
      RepeatedRowChangesNoSet(rows, r, tenant, hour + HOUR, end);
    }
  }

  lemma FewerRows(rows: seq<Row>, r: Row)
    requires DistinctIds(rows + [r]) && BinaryStatus(rows + [r])
    ensures DistinctIds(rows) && BinaryStatus(rows)
  {
    forall i, j | 0 <= i < j < |rows| ensures rows[i].id != rows[j].id {
      assert (rows + [r])[i] == rows[i] && (rows + [r])[j] == rows[j];
    }
    assert forall x :: x in rows ==> x in rows + [r];
  }

  /** Every status message is recorded, repeated or not; a row that repeats the status before it, or says offline of a
      device with no earlier row, changes no point of any trend, wherever its time falls. */
  lemma RepeatedRowChangesNoPoint(rows: seq<Row>, r: Row, devices: seq<Device>, tenant: string, start: int, end: int)
    requires DistinctIds(rows + [r]) && BinaryStatus(rows + [r]) && RepeatsPrevious(rows, r) && start <= end
    ensures Trend(rows + [r], devices, tenant, start, end) == Trend(rows, devices, tenant, start, end)
  {
    FewerRows(rows, r);
    TrendCountsOnlineDevices(rows, devices, tenant, start, end);
    TrendCountsOnlineDevices(rows + [r], devices, tenant, start, end);
    RepeatedRowKeepsMeaning(rows, r, devices, tenant, start, end);
  }

  // ------------------------------------------------------------------------------------------ the offline number

  /** Every row of the tenant is of a device of the table, of the same tenant, and no older than the device. The schema
      gives the device; that its tenant is the row's and its time of creation is set is up to the writers. */
  ghost predicate KnownDevices(rows: seq<Row>, devices: seq<Device>, tenant: string) {
    forall r :: r in rows && r.tenant == tenant ==>
                  exists d :: d in devices && d.id == r.device && d.tenant == tenant && CreatedBy(d, r.time)
  }

  lemma {:induction false} NoMoreThanTotal(ids: set<string>, devices: seq<Device>, tenant: string, end: int)
    requires forall id :: id in ids ==>
                            exists d :: d in devices && d.id == id && d.tenant == tenant && CreatedBy(d, end)
    ensures |ids| <= DeviceTotal(devices, tenant, end)
  {
    if devices == [] {
      assert ids == {};
    } else {
      var rest := ids;
      if devices[0].tenant == tenant && CreatedBy(devices[0], end) {
        rest := ids - {devices[0].id};
        assert devices[0].id in ids ==> ids == rest + {devices[0].id};
      }
      assert devices == [devices[0]] + devices[1..];
      NoMoreThanTotal(rest, devices[1..], tenant, end);
    }
  }

  lemma OnlineAmongTotal(rows: seq<Row>, devices: seq<Device>, tenant: string, end: int, hour: int)
    requires KnownDevices(rows, devices, tenant)
    ensures 0 <= PointAt(rows, devices, tenant, end, hour).online <= PointAt(rows, devices, tenant, end, hour).total
  {
    var ids := OnlineDevices(rows, tenant, hour + HOUR, end);
    forall id | id in ids ensures exists d :: d in devices && d.id == id && d.tenant == tenant && CreatedBy(d, end) {
      var r :| r in rows && IsLastWord(rows, r, tenant, hour + HOUR, end) && r.device == id;
      var d :| d in devices && d.id == r.device && d.tenant == tenant && CreatedBy(d, r.time);
    }
    NoMoreThanTotal(ids, devices, tenant, end);
  }

  /** When the device table knows every device of the history, no point reports more online devices than devices, so
      the offline number is never negative. */
  lemma OfflineIsNotNegative(rows: seq<Row>, devices: seq<Device>, tenant: string, start: int, end: int)
    requires DistinctIds(rows) && BinaryStatus(rows) && start <= end && KnownDevices(rows, devices, tenant)
    ensures forall p :: p in Trend(rows, devices, tenant, start, end) ==>
                          0 <= p.online <= p.total && p.offline == p.total - p.online
  {
    TrendCountsOnlineDevices(rows, devices, tenant, start, end);
    forall hour
      ensures 0 <= PointAt(rows, devices, tenant, end, hour).online <= PointAt(rows, devices, tenant, end, hour).total
    {
      OnlineAmongTotal(rows, devices, tenant, end, hour);
    }
  }

  /** The devices with a history row not after the end. */
  ghost function DevicesSeen(rows: seq<Row>, tenant: string, end: int): set<string> {
    set r | r in rows && r.tenant == tenant && r.time <= end :: r.device
  }

  /** The same rows with other statuses. */
  function WithStatuses(rows: seq<Row>, statuses: seq<int>): (r: seq<Row>)
    requires |statuses| == |rows|
    ensures |r| == |rows| && forall i :: 0 <= i < |r| ==> r[i] == rows[i].(status := statuses[i])
  {
    seq(|rows|, i requires 0 <= i < |rows| => rows[i].(status := statuses[i]))
  }

  ghost predicate Statuses(statuses: seq<int>, rows: seq<Row>) {
    |statuses| == |rows| && forall i :: 0 <= i < |statuses| ==> statuses[i] == 0 || statuses[i] == 1
  }

  lemma StatusesChangeNoIds(rows: seq<Row>, statuses: seq<int>, tenant: string, end: int)
    requires DistinctIds(rows) && Statuses(statuses, rows)
    ensures DistinctIds(WithStatuses(rows, statuses)) && BinaryStatus(WithStatuses(rows, statuses))
    ensures DevicesSeen(WithStatuses(rows, statuses), tenant, end) == DevicesSeen(rows, tenant, end)
  {
    var other := WithStatuses(rows, statuses);
    forall r | r in rows
      ensures exists q :: q in other && q.device == r.device && q.tenant == r.tenant && q.time == r.time
    {
      var i :| 0 <= i < |rows| && rows[i] == r;
      assert other[i] in other;
    }
    forall q | q in other
      ensures exists r :: r in rows && q.device == r.device && q.tenant == r.tenant && q.time == r.time
    {
      var i :| 0 <= i < |other| && other[i] == q;
      assert rows[i] in rows;
    }
  }

  lemma OnlineAreSeen(rows: seq<Row>, tenant: string, cut: int, end: int)
    ensures |OnlineDevices(rows, tenant, cut, end)| <= |DevicesSeen(rows, tenant, end)|
  {
    var online, seen := OnlineDevices(rows, tenant, cut, end), DevicesSeen(rows, tenant, end);
    assert online <= seen;
    SubsetSize(online, seen);
  }

  lemma AllOnline(rows: seq<Row>, tenant: string, cut: int, end: int)
    requires end < cut && forall r :: r in rows ==> r.status == 1
    ensures OnlineDevices(rows, tenant, cut, end) == DevicesSeen(rows, tenant, end)
  {
    forall d | d in DevicesSeen(rows, tenant, end) ensures d in OnlineDevices(rows, tenant, cut, end) {
      var q :| q in rows && q.tenant == tenant && q.time <= end && q.device == d;
      assert Happened(q, tenant, cut, end);
      var r := LastWordExists(rows, rows, tenant, cut, end, d);
    }
  }

  lemma LastPoint(rows: seq<Row>, devices: seq<Device>, tenant: string, start: int, end: int)
    requires DistinctIds(rows) && BinaryStatus(rows) && start <= end
    ensures PointAt(rows, devices, tenant, end, TruncHour(end)) in Trend(rows, devices, tenant, start, end)
  {
    TrendCountsOnlineDevices(rows, devices, tenant, start, end);
    TruncHourAligned(start);
    TruncHourAligned(end);
    TruncHourMonotone(start, end);
    var n := HoursBetween(TruncHour(start), TruncHour(end));
    assert Meaning(rows, devices, tenant, start, end)[n] == PointAt(rows, devices, tenant, end, TruncHour(end));
  }

  ghost predicate NoNegative(rows: seq<Row>, devices: seq<Device>, tenant: string, start: int, end: int) {
    forall p :: p in Trend(rows, devices, tenant, start, end) ==> p.offline >= 0
  }

  lemma EnoughDevices(rows: seq<Row>, devices: seq<Device>, tenant: string, start: int, end: int)
    requires DistinctIds(rows) && BinaryStatus(rows) && start <= end
    requires |DevicesSeen(rows, tenant, end)| <= DeviceTotal(devices, tenant, end)
    ensures NoNegative(rows, devices, tenant, start, end)
  {
    TrendCountsOnlineDevices(rows, devices, tenant, start, end);
    forall hour ensures PointAt(rows, devices, tenant, end, hour).offline >= 0 {
      OnlineAreSeen(rows, tenant, hour + HOUR, end);
    }
  }

  lemma NegativeAt(rows: seq<Row>, devices: seq<Device>, tenant: string, end: int, hour: int)
    requires end < hour + HOUR && forall r :: r in rows ==> r.status == 1
    requires |DevicesSeen(rows, tenant, end)| > DeviceTotal(devices, tenant, end)
    ensures PointAt(rows, devices, tenant, end, hour).offline < 0
  {
    AllOnline(rows, tenant, hour + HOUR, end);
  }

  lemma AllOnes(rows: seq<Row>)
    requires forall r :: r in rows ==> r.status == 1
    ensures BinaryStatus(rows)
  {
  }

  lemma TooFewDevices(rows: seq<Row>, devices: seq<Device>, tenant: string, start: int, end: int)
    requires DistinctIds(rows) && start <= end && forall r :: r in rows ==> r.status == 1
    requires |DevicesSeen(rows, tenant, end)| > DeviceTotal(devices, tenant, end)
    ensures !NoNegative(rows, devices, tenant, start, end)
  {
    AllOnes(rows);
    LastPoint(rows, devices, tenant, start, end);
    TruncHourAligned(end);
    NegativeAt(rows, devices, tenant, end, TruncHour(end));
  }

  /** Exactly when the offline number is never negative, whatever the statuses of the rows: when no more devices have
      rows up to the end than were created by then. */
  lemma NeverNegativeIffEnoughDevices(rows: seq<Row>, devices: seq<Device>, tenant: string, start: int, end: int)
    requires DistinctIds(rows) && start <= end
    ensures (forall statuses :: Statuses(statuses, rows) ==>
                                  NoNegative(WithStatuses(rows, statuses), devices, tenant, start, end)) <==>
            |DevicesSeen(rows, tenant, end)| <= DeviceTotal(devices, tenant, end)
  {
    if |DevicesSeen(rows, tenant, end)| <= DeviceTotal(devices, tenant, end) {
      forall statuses | Statuses(statuses, rows)
        ensures NoNegative(WithStatuses(rows, statuses), devices, tenant, start, end)
      {
        StatusesChangeNoIds(rows, statuses, tenant, end);
        EnoughDevices(WithStatuses(rows, statuses), devices, tenant, start, end);
      }
    } else {
      var ones := seq(|rows|, i => 1);
      assert Statuses(ones, rows);
      StatusesChangeNoIds(rows, ones, tenant, end);
      TooFewDevices(WithStatuses(rows, ones), devices, tenant, start, end);
    }
  }

  /** What a range means that ends before it starts, in the hour given or in an earlier one. */
  ghost function ReversedMeaning(rows: seq<Row>, devices: seq<Device>, tenant: string, start: int, end: int, hour: int)
    : seq<Point>
  {
    if TruncHour(end) < hour then [] else
      var total, online := DeviceTotal(devices, tenant, end), |OnlineDevices(rows, tenant, hour + HOUR, start)|;
      [Point(hour, total, online, total - online)]
  }

  /** What a trend means for any two bounds. */
  ghost function MeaningOf(rows: seq<Row>, devices: seq<Device>, tenant: string, start: int, end: int): seq<Point> {
    if start <= end then Meaning(rows, devices, tenant, start, end)
    else ReversedMeaning(rows, devices, tenant, start, end, TruncHour(start))
  }

  lemma ReversedTrendMeaning(rows: seq<Row>, devices: seq<Device>, tenant: string, start: int, end: int, hour: int)
    requires DistinctIds(rows) && BinaryStatus(rows) && end < start && hour == TruncHour(start)
    ensures Trend(rows, devices, tenant, start, end) == ReversedMeaning(rows, devices, tenant, start, end, hour)
  {
    if TruncHour(end) < hour {
      ReversedRangeIsEmpty(rows, devices, tenant, start, end);
    } else {
      TruncHourMonotone(end, start);
      ReversedRangeCountsAtStart(rows, devices, tenant, start, end, hour);
    }
  }

  lemma TrendMeaning(rows: seq<Row>, devices: seq<Device>, tenant: string, start: int, end: int)
    requires DistinctIds(rows) && BinaryStatus(rows)
    ensures Trend(rows, devices, tenant, start, end) == MeaningOf(rows, devices, tenant, start, end)
  {
    if start <= end {
      TrendCountsOnlineDevices(rows, devices, tenant, start, end);
    } else {
      ReversedTrendMeaning(rows, devices, tenant, start, end, TruncHour(start));
    }
  }

  /** The entry point, for every choice of bounds: a missing end is now, a missing start is 48 hours before now, and
      with neither there are 49 points. */
  lemma DeviceTrendMeaning(rows: seq<Row>, devices: seq<Device>, tenant: string, start: Option<int>, end: Option<int>,
                           now: int)
    requires DistinctIds(rows) && BinaryStatus(rows)
    ensures var points := GetDeviceTrend(rows, devices, tenant, start, end, now);
            && points == MeaningOf(rows, devices, tenant, if start.Some? then start.value else now - 48 * HOUR,
                                   if end.Some? then end.value else now)
            && (start.None? && end.None? ==> |points| == 49)
  {
    TrendMeaning(rows, devices, tenant, if start.Some? then start.value else now - 48 * HOUR,
                 if end.Some? then end.value else now);
    HoursBack(now);
  }

  lemma HoursBack(now: int)
    ensures (TruncHour(now) - TruncHour(now - 48 * HOUR)) / HOUR == 48
  {
    assert (now - 48 * HOUR) % HOUR == now % HOUR;
  }

  /** A device without a time of creation, which the schema allows, does not count, but its rows do: one online of
      none. */
  lemma NegativeOfflineExample(row: Row, end: int)
    requires row.status == 1 && row.time <= end
    ensures !NoNegative([row], [Device(row.device, row.tenant, None)], row.tenant, row.time, end)
  {
    var devices := [Device(row.device, row.tenant, None)];
    assert row in [row];
    assert row.device in DevicesSeen([row], row.tenant, end);
    assert DeviceTotal(devices, row.tenant, end) == DeviceTotal([], row.tenant, end) by { assert devices[1..] == []; }
    TooFewDevices([row], devices, row.tenant, row.time, end);
  }
}
