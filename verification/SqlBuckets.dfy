/** The bucket query of the telemetry statistics (GetTelemetryDatasAggregate): readings grouped by whole multiples of a
  * window in seconds, one aggregate a bucket. */
module SqlBuckets {
  import opened Telemetry
  import opened Wrappers

  datatype Op = Avg | Sum | Max | Min | Diff

  datatype Reading = Reading(ts: int, value: real)

  datatype Bucket = Bucket(x: int, x2: int, y: real)

  /** The remainder in SQL has the sign of the dividend. */
  function Mod(a: int, b: int): int
    requires b > 0
  {
    a - b * Truncate(a, b)
  }

  /** aggregateQueryArgs: whole seconds, at least one. */
  function WindowSeconds(aggregateWindow: int): (w: int)
    ensures w >= 1
    ensures aggregateWindow >= 1000 ==> 1000 * w <= aggregateWindow < 1000 * w + 1000
    ensures aggregateWindow < 2000 ==> w == 1
  {
    if Truncate(aggregateWindow, 1000) < 1 then 1 else Truncate(aggregateWindow, 1000)
  }

  /** FilteredData: the numbers of the range below 1e15 in magnitude. */
  function Filtered(rows: seq<Sample>, sTime: int, eTime: int): seq<Reading> {
    if rows == [] then [] else
      var s, rest := rows[0], Filtered(rows[1..], sTime, eTime);
      if Within(s.ts, sTime, eTime) && s.number.Some? && -1e15 < s.number.value < 1e15
      then [Reading(s.ts, s.number.value)] + rest else rest
  }

  /** ts_sec - (ts_sec % w) */
  function Round(sec: int, w: int): int
    requires w > 0
  {
    sec - Mod(sec, w)
  }

  /** The group of a time: its second, rounded to a multiple of the window. */
  function Group(ts: int, w: int): int
    requires w > 0
  {
    Round(Truncate(ts, 1000), w)
  }

  /** The groups that occur, in ascending order. */
  function Groups(rows: seq<Reading>, w: int): seq<int>
    requires w > 0
  {
    if rows == [] then [] else InsertGroup(Group(rows[0].ts, w), Groups(rows[1..], w))
  }

  function InsertGroup(x: int, sorted: seq<int>): seq<int> {
    if sorted == [] || x < sorted[0] then [x] + sorted
    else if x == sorted[0] then sorted
    else [sorted[0]] + InsertGroup(x, sorted[1..])
  }

  /** One step of SUM, MAX or MIN; null counts for nothing. */
  function Join(op: Op, a: Option<real>, b: Option<real>): Option<real> {
    if a.None? then b
    else if b.None? then a
    else if op == Max then (if a.value >= b.value then a else b)
    else if op == Min then (if a.value <= b.value then a else b)
    else Some(a.value + b.value)
  }

  /** SUM, MAX or MIN over the readings of a group. */
  function Fold(op: Op, rows: seq<Reading>, w: int, x: int): Option<real>
    requires w > 0
  {
    if rows == [] then None else
      Join(op, if Group(rows[0].ts, w) == x then Some(rows[0].value) else None, Fold(op, rows[1..], w, x))
  }

  function CountOf(rows: seq<Reading>, w: int, x: int): nat
    requires w > 0
  {
    if rows == [] then 0 else CountOf(rows[1..], w, x) + if Group(rows[0].ts, w) == x then 1 else 0
  }

  function Aggregate(op: Op, rows: seq<Reading>, w: int, x: int): Option<real>
    requires w > 0
  {
    match op
    case Avg =>
      var n, sum := CountOf(rows, w, x), Fold(Sum, rows, w, x);
      if n == 0 || sum.None? then None else Some(sum.value / n as real)
    case Diff =>
      var max, min := Fold(Max, rows, w, x), Fold(Min, rows, w, x);
      if max.None? || min.None? then None else Some(max.value - min.value)
    case Sum => Fold(Sum, rows, w, x)
    case Max => Fold(Max, rows, w, x)
    case Min => Fold(Min, rows, w, x)
  }

  /** The outer query: bounds in milliseconds, nulls dropped. */
  function ToBuckets(op: Op, rows: seq<Reading>, w: int, groups: seq<int>): seq<Bucket>
    requires w > 0
  {
    if groups == [] then [] else
      var y, rest := Aggregate(op, rows, w, groups[0]), ToBuckets(op, rows, w, groups[1..]);
      if y.None? then rest else [Bucket(groups[0] * 1000, (groups[0] + w) * 1000, y.value)] + rest
  }

  function Buckets(op: Op, rows: seq<Reading>, w: int): seq<Bucket>
    requires w > 0
  {
    ToBuckets(op, rows, w, Groups(rows, w))
  }

  function OpOf(aggregateFunction: string): Option<Op> {
    if aggregateFunction == "avg" then Some(Avg)
    else if aggregateFunction == "max" then Some(Max)
    else if aggregateFunction == "min" then Some(Min)
    else if aggregateFunction == "sum" then Some(Sum)
    else if aggregateFunction == "diff" then Some(Diff)
    else None
  }

  /** GetTelemetryDatasAggregate */
  function TelemetryDatasAggregate(rows: seq<Sample>, sTime: int, eTime: int, aggregateWindow: int,
                                   aggregateFunction: string): Result<seq<Bucket>>
  {
    var op := OpOf(aggregateFunction);
    if op.None? then Failure("unsupported aggregate function: " + aggregateFunction)
    else Success(Buckets(op.value, Filtered(rows, sTime, eTime), WindowSeconds(aggregateWindow)))
  }

  // ---------------------------------------------------------------------------------------------------------- grouping

  ghost predicate Ascending(s: seq<int>) {
    forall i, j :: 0 <= i < j < |s| ==> s[i] < s[j]
  }

  lemma AscendingCons(x: int, s: seq<int>)
    requires Ascending(s) && forall y :: y in s ==> x < y
    ensures Ascending([x] + s)
  {
    forall i, j | 0 <= i < j < |[x] + s| ensures ([x] + s)[i] < ([x] + s)[j] {
      if i == 0 { assert ([x] + s)[j] in s; }
    }
  }

  lemma AscendingTail(s: seq<int>)
    requires Ascending(s) && s != []
    ensures Ascending(s[1..]) && forall y :: y in s[1..] ==> s[0] < y
  {
    forall y | y in s[1..] ensures s[0] < y {
      var k :| 0 <= k < |s[1..]| && s[1..][k] == y;
      assert s[k + 1] == y;
    }
  }

  lemma {:induction false} InsertGroupKeeps(x: int, s: seq<int>)
    requires Ascending(s)
    ensures Ascending(InsertGroup(x, s))
    ensures forall y :: y in InsertGroup(x, s) <==> y == x || y in s
    decreases |s|
  {
    if s == [] {
    } else if x == s[0] {
    } else {
      AscendingTail(s);
      assert s == [s[0]] + s[1..];
      if x < s[0] {
        AscendingCons(x, s);
      } else {
        InsertGroupKeeps(x, s[1..]);
        AscendingCons(s[0], InsertGroup(x, s[1..]));
      }
    }
  }

  lemma {:induction false} GroupsAreGroups(rows: seq<Reading>, w: int)
    requires w > 0
    ensures Ascending(Groups(rows, w))
    ensures forall x :: x in Groups(rows, w) <==> exists r :: r in rows && Group(r.ts, w) == x
  {
    if rows == [] {
    } else {
      assert rows == [rows[0]] + rows[1..];
      GroupsAreGroups(rows[1..], w);
      InsertGroupKeeps(Group(rows[0].ts, w), Groups(rows[1..], w));
    }
  }

  lemma HasMember(s: seq<int>)
    requires s != []
    ensures s[0] in s
  {
  }

  lemma {:induction false} SameMembersSameSeq(a: seq<int>, b: seq<int>)
    requires Ascending(a) && Ascending(b) && forall x :: x in a <==> x in b
    ensures a == b
  {
    if a == [] || b == [] {
      if a != [] { HasMember(a); }
      if b != [] { HasMember(b); }
    } else {
      assert a[0] in b && b[0] in a;
      assert a[0] == b[0];
      assert a == [a[0]] + a[1..] && b == [b[0]] + b[1..];
      forall x ensures x in a[1..] <==> x in b[1..] {
        assert x in a[1..] ==> x in a && x > a[0];
        assert x in b[1..] ==> x in b && x > b[0];
      }
      SameMembersSameSeq(a[1..], b[1..]);
    }
  }

  lemma {:induction false} FoldIsNull(op: Op, rows: seq<Reading>, w: int, x: int)
    requires w > 0
    ensures Fold(op, rows, w, x).None? <==> forall r :: r in rows ==> Group(r.ts, w) != x
    ensures CountOf(rows, w, x) == 0 <==> forall r :: r in rows ==> Group(r.ts, w) != x
    decreases |rows|
  {
    if rows == [] {
    } else {
      assert rows == [rows[0]] + rows[1..];
      FoldIsNull(op, rows[1..], w, x);
    }
  }

  lemma NoNullAggregates(op: Op, rows: seq<Reading>, w: int, x: int)
    requires w > 0 && x in Groups(rows, w)
    ensures Aggregate(op, rows, w, x).Some?
  {
    GroupsAreGroups(rows, w);
    FoldIsNull(Sum, rows, w, x);
    FoldIsNull(Max, rows, w, x);
    FoldIsNull(Min, rows, w, x);
  }

  lemma {:induction false} BucketPerGroup(op: Op, rows: seq<Reading>, w: int, groups: seq<int>)
    requires w > 0 && forall x :: x in groups ==> x in Groups(rows, w)
    ensures var buckets := ToBuckets(op, rows, w, groups);
            |buckets| == |groups| &&
            forall i :: 0 <= i < |groups| ==>
                          Aggregate(op, rows, w, groups[i]).Some? &&
                          buckets[i] == Bucket(groups[i] * 1000, (groups[i] + w) * 1000,
                                               Aggregate(op, rows, w, groups[i]).value)
    decreases |groups|
  {
    if groups == [] {
    } else {
      assert groups[0] in groups;
      NoNullAggregates(op, rows, w, groups[0]);
      assert groups == [groups[0]] + groups[1..];
      BucketPerGroup(op, rows, w, groups[1..]);
    }
  }

  // --------------------------------------------------------------------------------------------------------- partition

  predicate InBucket(ts: int, b: Bucket) {
    b.x <= ts < b.x2
  }

  lemma DivMod(a: int, b: int)
    requires b > 0
    ensures a == b * (a / b) + a % b && 0 <= a % b < b
  {
  }

  lemma DivUnique(a: int, b: int, q: int)
    requires b > 0 && b * q <= a < b * q + b
    ensures a / b == q
  {
    DivMod(a, b);
    assert b * (a / b - q) == b * (a / b) - b * q;
    SmallMultiple(b, a / b - q);
  }

  lemma SmallMultiple(b: int, k: int)
    requires -b < b * k < b
    ensures k == 0
  {
    assert k >= 1 ==> b * k >= b;
    assert k <= -1 ==> b * k <= -b;
  }

  /** Groups are multiples of the window. */
  lemma GroupIsMultiple(ts: int, w: int)
    requires w > 0
    ensures Group(ts, w) == w * Truncate(Truncate(ts, 1000), w)
  {
  }

  /** A time from 1970 on lies in the half-open range of its group. */
  lemma GroupHolds(ts: int, w: int)
    requires w > 0 && ts >= 0
    ensures Group(ts, w) * 1000 <= ts < (Group(ts, w) + w) * 1000
  {
    DivMod(ts, 1000);
    DivMod(ts / 1000, w);
  }

  /** Before 1970 rounding goes towards zero. */
  lemma NegativeGroup(n: int, w: int) returns (q: int)
    requires w > 0 && n >= 0
    ensures q == (n / 1000) / w && Group(-n, w) == -(w * q) && w * q * 1000 <= n < w * q * 1000 + w * 1000
  {
    DivMod(n, 1000);
    DivMod(n / 1000, w);
    q := (n / 1000) / w;
  }

  lemma MultipleOf(n: int, w: int, q: int)
    requires w > 0 && w * q * 1000 <= n < w * q * 1000 + w * 1000
    ensures n % (1000 * w) == 0 <==> n == w * q * 1000
  {
    assert (1000 * w) * q == w * q * 1000;
    DivUnique(n, 1000 * w, q);
    DivMod(n, 1000 * w);
  }

  lemma NegativeMultiple(n: int, d: int)
    requires d > 0
    ensures (-n) % d == 0 <==> n % d == 0
  {
    DivMod(n, d);
    DivMod(-n, d);
    if n % d == 0 { DivUnique(-n, d, -(n / d)); }
    if (-n) % d == 0 { DivUnique(n, d, -((-n) / d)); }
  }

  /** A time lies in the half-open range of its group when it is not before 1970, and before 1970 only when it is
      exactly the range's lower bound. */
  lemma GroupHoldsIff(ts: int, w: int)
    requires w > 0
    ensures Group(ts, w) * 1000 <= ts < (Group(ts, w) + w) * 1000 <==> ts >= 0 || ts % (1000 * w) == 0
  {
    if ts >= 0 {
      GroupHolds(ts, w);
    } else {
      var q := NegativeGroup(-ts, w);
      MultipleOf(-ts, w, q);
      NegativeMultiple(ts, 1000 * w);
    }
  }

  lemma MulMonotone(w: int, a: int, b: int)
    requires w > 0 && a <= b
    ensures w * a <= w * b
  {
  }

  lemma MultiplesApart(a: int, b: int, w: int)
    requires w > 0 && w * a < w * b
    ensures w * a + w <= w * b
  {
    if a >= b {
      MulMonotone(w, b, a);
    } else {
      MulMonotone(w, a + 1, b);
      assert w * (a + 1) == w * a + w;
    }
  }

  lemma GroupsApart(rows: seq<Reading>, w: int, i: nat, j: nat)
    requires w > 0 && i < j < |Groups(rows, w)|
    ensures Groups(rows, w)[i] + w <= Groups(rows, w)[j]
  {
    var groups := Groups(rows, w);
    GroupsAreGroups(rows, w);
    assert groups[i] in groups && groups[j] in groups;
    var r :| r in rows && Group(r.ts, w) == groups[i];
    var s :| s in rows && Group(s.ts, w) == groups[j];
    GroupIsMultiple(r.ts, w);
    GroupIsMultiple(s.ts, w);
    MultiplesApart(Truncate(Truncate(r.ts, 1000), w), Truncate(Truncate(s.ts, 1000), w), w);
  }

  /** Whatever the times, buckets are disjoint ranges of the window's length in ascending order. */
  lemma BucketsAscend(op: Op, rows: seq<Reading>, w: int)
    requires w > 0
    ensures var buckets := Buckets(op, rows, w);
            (forall i, j :: 0 <= i < j < |buckets| ==> buckets[i].x2 <= buckets[j].x) &&
            forall b :: b in buckets ==> b.x2 == b.x + 1000 * w
  {
    var groups, buckets := Groups(rows, w), Buckets(op, rows, w);
    BucketPerGroup(op, rows, w, groups);
    forall i: nat, j: nat | i < j < |buckets| ensures buckets[i].x2 <= buckets[j].x {
      GroupsApart(rows, w, i, j);
    }
  }

  /** The bucket of a reading. */
  lemma BucketOfReading(op: Op, rows: seq<Reading>, w: int, r: Reading) returns (b: Bucket)
    requires w > 0 && r in rows && r.ts >= 0
    ensures b in Buckets(op, rows, w) && InBucket(r.ts, b)
  {
    var groups := Groups(rows, w);
    GroupsAreGroups(rows, w);
    BucketPerGroup(op, rows, w, groups);
    assert Group(r.ts, w) in groups;
    var i :| 0 <= i < |groups| && groups[i] == Group(r.ts, w);
    GroupHolds(r.ts, w);
    b := Buckets(op, rows, w)[i];
  }

  /** Every bucket is the group of some reading. */
  lemma GroupOfBucket(op: Op, rows: seq<Reading>, w: int, b: Bucket) returns (r: Reading)
    requires w > 0 && b in Buckets(op, rows, w)
    ensures r in rows && b.x == Group(r.ts, w) * 1000 && b.x2 == (Group(r.ts, w) + w) * 1000
    ensures Aggregate(op, rows, w, Group(r.ts, w)) == Some(b.y)
  {
    var groups := Groups(rows, w);
    GroupsAreGroups(rows, w);
    BucketPerGroup(op, rows, w, groups);
    var i :| 0 <= i < |groups| && Buckets(op, rows, w)[i] == b;
    assert groups[i] in groups;
    r :| r in rows && Group(r.ts, w) == groups[i];
  }

  /** A reading of a bucket. */
  lemma ReadingOfBucket(op: Op, rows: seq<Reading>, w: int, b: Bucket) returns (r: Reading)
    requires w > 0 && b in Buckets(op, rows, w) && forall r :: r in rows ==> r.ts >= 0
    ensures r in rows && InBucket(r.ts, b)
  {
    r := GroupOfBucket(op, rows, w, b);
    GroupHolds(r.ts, w);
  }

  /** Main result: for times from 1970 on the buckets are disjoint half-open ranges in ascending order, each reading
      lies in exactly one of them, and none is empty. */
  lemma BucketsPartition(op: Op, rows: seq<Reading>, w: int)
    requires w > 0 && forall r :: r in rows ==> r.ts >= 0
    ensures var buckets := Buckets(op, rows, w);
            (forall i, j :: 0 <= i < j < |buckets| ==> buckets[i].x2 <= buckets[j].x) &&
            (forall b :: b in buckets ==> exists r :: r in rows && InBucket(r.ts, b)) &&
            (forall r :: r in rows ==> exists b :: b in buckets && InBucket(r.ts, b))
  {
    BucketsAscend(op, rows, w);
    forall b | b in Buckets(op, rows, w) ensures exists r :: r in rows && InBucket(r.ts, b) {
      var r := ReadingOfBucket(op, rows, w, b);
    }
    forall r | r in rows ensures exists b :: b in Buckets(op, rows, w) && InBucket(r.ts, b) {
      var b := BucketOfReading(op, rows, w, r);
    }
  }

  // ----------------------------------------------------------------------------------------------- what a bucket holds

  function InRange(rows: seq<Reading>, lo: int, hi: int): seq<Reading> {
    if rows == [] then [] else (if lo <= rows[0].ts < hi then [rows[0]] else []) + InRange(rows[1..], lo, hi)
  }

  function InGroup(rows: seq<Reading>, w: int, x: int): seq<Reading>
    requires w > 0
  {
    if rows == [] then [] else (if Group(rows[0].ts, w) == x then [rows[0]] else []) + InGroup(rows[1..], w, x)
  }

  function SumOf(rows: seq<Reading>): real {
    if rows == [] then 0.0 else rows[0].value + SumOf(rows[1..])
  }

  ghost predicate IsGreatest(part: seq<Reading>, y: real) {
    (exists r :: r in part && r.value == y) && forall r :: r in part ==> r.value <= y
  }

  ghost predicate IsLeast(part: seq<Reading>, y: real) {
    (exists r :: r in part && r.value == y) && forall r :: r in part ==> y <= r.value
  }

  /** What the SQL aggregates mean for a non-empty part of the readings. */
  ghost predicate IsAggregate(op: Op, part: seq<Reading>, y: real) {
    part != [] &&
    match op
    case Avg => y == SumOf(part) / |part| as real
    case Sum => y == SumOf(part)
    case Max => IsGreatest(part, y)
    case Min => IsLeast(part, y)
    case Diff => exists max, min :: IsGreatest(part, max) && IsLeast(part, min) && y == max - min
  }

  lemma {:induction false} SumOfGroup(rows: seq<Reading>, w: int, x: int)
    requires w > 0
    ensures CountOf(rows, w, x) == |InGroup(rows, w, x)|
    ensures Fold(Sum, rows, w, x) == if InGroup(rows, w, x) == [] then None else Some(SumOf(InGroup(rows, w, x)))
  {
    if rows == [] {
    } else {
      SumOfGroup(rows[1..], w, x);
      if Group(rows[0].ts, w) == x {
        assert InGroup(rows, w, x)[1..] == InGroup(rows[1..], w, x);
      } else {
        assert InGroup(rows, w, x) == InGroup(rows[1..], w, x);
      }
    }
  }

  lemma {:induction false} ExtremesOfGroup(rows: seq<Reading>, w: int, x: int)
    requires w > 0
    ensures var part, max, min := InGroup(rows, w, x), Fold(Max, rows, w, x), Fold(Min, rows, w, x);
            && (part == [] <==> max.None?) && (part == [] <==> min.None?)
            && (max.Some? ==> IsGreatest(part, max.value)) && (min.Some? ==> IsLeast(part, min.value))
  {
    if rows == [] {
    } else {
      ExtremesOfGroup(rows[1..], w, x);
      var rest := InGroup(rows[1..], w, x);
      if Group(rows[0].ts, w) == x {
        assert InGroup(rows, w, x) == [rows[0]] + rest;
      } else {
        assert InGroup(rows, w, x) == rest;
      }
    }
  }

  /** The aggregate of a group is that of its readings. */
  lemma AggregateOfGroup(op: Op, rows: seq<Reading>, w: int, x: int)
    requires w > 0 && Aggregate(op, rows, w, x).Some?
    ensures IsAggregate(op, InGroup(rows, w, x), Aggregate(op, rows, w, x).value)
  {
    SumOfGroup(rows, w, x);
    ExtremesOfGroup(rows, w, x);
  }

  /** From 1970 on the times of a group are those of its range. */
  lemma GroupIsRange(ts: int, other: int, w: int)
    requires w > 0 && ts >= 0 && other >= 0
    ensures var x := Group(other, w); Group(ts, w) == x <==> x * 1000 <= ts < (x + w) * 1000
  {
    GroupHolds(ts, w);
    GroupIsMultiple(ts, w);
    GroupIsMultiple(other, w);
    var a, b := Truncate(Truncate(ts, 1000), w), Truncate(Truncate(other, 1000), w);
    if w * a < w * b { MultiplesApart(a, b, w); }
    if w * b < w * a { MultiplesApart(b, a, w); }
  }

  lemma {:induction false} GroupPartIsRangePart(rows: seq<Reading>, other: int, w: int)
    requires w > 0 && other >= 0 && forall r :: r in rows ==> r.ts >= 0
    ensures var x := Group(other, w); InGroup(rows, w, x) == InRange(rows, x * 1000, (x + w) * 1000)
  {
    if rows == [] {
    } else {
      assert rows == [rows[0]] + rows[1..];
      GroupPartIsRangePart(rows[1..], other, w);
      GroupIsRange(rows[0].ts, other, w);
    }
  }

  /** Main result: for times from 1970 on the value of every bucket is the aggregate of exactly the readings in its
      half-open range. */
  lemma BucketsHoldTheirRange(op: Op, rows: seq<Reading>, w: int, b: Bucket)
    requires w > 0 && b in Buckets(op, rows, w) && forall r :: r in rows ==> r.ts >= 0
    ensures IsAggregate(op, InRange(rows, b.x, b.x2), b.y)
  {
    var r := GroupOfBucket(op, rows, w, b);
    AggregateOfGroup(op, rows, w, Group(r.ts, w));
    GroupPartIsRangePart(rows, r.ts, w);
  }

  lemma {:induction false} FilteredMembers(rows: seq<Sample>, sTime: int, eTime: int, r: Reading)
    ensures r in Filtered(rows, sTime, eTime) <==>
            -1e15 < r.value < 1e15 && sTime <= r.ts <= eTime &&
            exists s :: s in rows && s.ts == r.ts && s.number == Some(r.value)
  {
    if rows == [] {
    } else {
      assert rows == [rows[0]] + rows[1..];
      FilteredMembers(rows[1..], sTime, eTime, r);
    }
  }

  ghost predicate EveryReadingInBucket(readings: seq<Reading>, buckets: seq<Bucket>) {
    forall r :: r in readings ==> exists b :: b in buckets && InBucket(r.ts, b)
  }

  ghost predicate EveryBucketHoldsItsRange(op: Op, readings: seq<Reading>, w: int, buckets: seq<Bucket>) {
    forall b :: b in buckets ==> b.x2 == b.x + 1000 * w && IsAggregate(op, InRange(readings, b.x, b.x2), b.y)
  }

  lemma BucketsFit(op: Op, readings: seq<Reading>, w: int)
    requires w > 0 && forall r :: r in readings ==> r.ts >= 0
    ensures EveryReadingInBucket(readings, Buckets(op, readings, w))
    ensures EveryBucketHoldsItsRange(op, readings, w, Buckets(op, readings, w))
  {
    BucketsPartition(op, readings, w);
    forall b | b in Buckets(op, readings, w)
      ensures b.x2 == b.x + 1000 * w && IsAggregate(op, InRange(readings, b.x, b.x2), b.y)
    {
      var r := GroupOfBucket(op, readings, w, b);
      BucketsHoldTheirRange(op, readings, w, b);
    }
  }

  lemma FilteredTimes(rows: seq<Sample>, sTime: int, eTime: int)
    ensures forall r :: r in Filtered(rows, sTime, eTime) ==> sTime <= r.ts <= eTime
  {
    forall r | r in Filtered(rows, sTime, eTime) ensures sTime <= r.ts <= eTime {
      FilteredMembers(rows, sTime, eTime, r);
    }
  }

  /** The whole call: it fails exactly for an unknown function; otherwise, for a range from 1970 on, every number of the
      range lies in a bucket, and every bucket holds the aggregate of the numbers in its range. */
  lemma AggregateQueryMeaning(rows: seq<Sample>, sTime: int, eTime: int, aggregateWindow: int,
                              aggregateFunction: string)
    requires sTime >= 0
    ensures var op, result := OpOf(aggregateFunction), TelemetryDatasAggregate(rows, sTime, eTime, aggregateWindow,
                                                                               aggregateFunction);
            && (result.Failure? <==> op.None?)
            && (result.Success? ==>
                  && EveryReadingInBucket(Filtered(rows, sTime, eTime), result.value)
                  && EveryBucketHoldsItsRange(op.value, Filtered(rows, sTime, eTime), WindowSeconds(aggregateWindow),
                                              result.value))
  {
    if OpOf(aggregateFunction).Some? {
      FilteredTimes(rows, sTime, eTime);
      BucketsFit(OpOf(aggregateFunction).value, Filtered(rows, sTime, eTime), WindowSeconds(aggregateWindow));
    }
  }

  /** One millisecond before 1970, with windows of one second: the reading is outside its bucket, which begins at 0. */
  lemma BeforeEpochExample()
    ensures Group(-1, 1) == 0 && !(Group(-1, 1) * 1000 <= -1)
  {
  }

  lemma JoinAssociates(op: Op, a: Option<real>, b: Option<real>, c: Option<real>)
    ensures Join(op, Join(op, a, b), c) == Join(op, a, Join(op, b, c))
  {
  }

  lemma JoinCommutes(op: Op, a: Option<real>, b: Option<real>)
    requires op == Sum || op == Max || op == Min
    ensures Join(op, a, b) == Join(op, b, a)
  {
  }

  /** The aggregate over all groups of the list that pass into group x of a second window. */
  function FoldGroups(op: Op, rows: seq<Reading>, w: int, groups: seq<int>, w': int, x: int): Option<real>
    requires w > 0 && w' > 0
  {
    if groups == [] then None else
      Join(op, if Group(groups[0] * 1000, w') == x then Fold(op, rows, w, groups[0]) else None,
           FoldGroups(op, rows, w, groups[1..], w', x))
  }

  /** One more reading changes exactly one of the groups. */
  lemma {:induction false} FoldGroupsOneMore(op: Op, r: Reading, rows: seq<Reading>, w: int, groups: seq<int>, w': int,
                                             x: int)
    requires w > 0 && w' > 0 && Ascending(groups) && (op == Sum || op == Max || op == Min)
    ensures FoldGroups(op, [r] + rows, w, groups, w', x) ==
            Join(op, if Group(r.ts, w) in groups && Group(Group(r.ts, w) * 1000, w') == x then Some(r.value) else None,
                 FoldGroups(op, rows, w, groups, w', x))
    decreases |groups|
  {
    if groups == [] {
    } else {
      var g, tail := groups[0], groups[1..];
      assert groups == [g] + tail;
      assert ([r] + rows)[1..] == rows;
      FoldGroupsOneMore(op, r, rows, w, tail, w', x);
      assert g !in tail;
      var here := if Group(g * 1000, w') == x then Fold(op, rows, w, g) else None;
      var one := Some(r.value);
      var rest := FoldGroups(op, rows, w, tail, w', x);
      JoinAssociates(op, one, here, rest);
      JoinAssociates(op, here, one, rest);
      JoinCommutes(op, here, one);
    }
  }

  lemma {:induction false} FoldGroupsOfNothing(op: Op, w: int, groups: seq<int>, w': int, x: int)
    requires w > 0 && w' > 0
    ensures FoldGroups(op, [], w, groups, w', x) == None
    decreases |groups|
  {
    if groups == [] {
    } else {
      FoldGroupsOfNothing(op, w, groups[1..], w', x);
    }
  }

  /** Folding the groups' folds is folding the readings. */
  lemma {:induction false} FoldOfFolds(op: Op, rows: seq<Reading>, w: int, groups: seq<int>, w': int, x: int)
    requires w > 0 && w' > 0 && w' % w == 0 && Ascending(groups) && (op == Sum || op == Max || op == Min)
    requires forall r :: r in rows ==> Group(r.ts, w) in groups
    ensures FoldGroups(op, rows, w, groups, w', x) == Fold(op, rows, w', x)
    decreases |rows|
  {
    if rows == [] {
      FoldGroupsOfNothing(op, w, groups, w', x);
    } else {
      assert rows == [rows[0]] + rows[1..];
      FoldOfFolds(op, rows[1..], w, groups, w', x);
      FoldGroupsOneMore(op, rows[0], rows[1..], w, groups, w', x);
      GroupOfGroup(rows[0].ts, w, w');
    }
  }

  lemma DivOfDiv(a: int, w: int, k: int)
    requires a >= 0 && w > 0 && k > 0 && w * k > 0
    ensures (w * (a / w)) / (w * k) == a / (w * k)
    ensures w * (a / w) >= 0
  {
    DivMod(a, w);
    var q := a / w;
    assert q >= 0 by { if q < 0 { MulMonotone(w, q, -1); } }
    DivMod(q, k);
    var p, m := q / k, q % k;
    assert w * q == (w * k) * p + w * m by { assert w * (k * p + m) == (w * k) * p + w * m; }
    assert w * m + w <= w * k by { MulMonotone(w, m + 1, k); assert w * (m + 1) == w * m + w; }
    MulMonotone(w, 0, m);
    MulMonotone(w, 0, q);
    DivUnique(w * q, w * k, p);
    DivUnique(a, w * k, p);
  }

  lemma RoundNegates(sec: int, w: int)
    requires w > 0
    ensures Round(-sec, w) == -Round(sec, w)
  {
  }

  lemma RoundIsMultiple(sec: int, w: int)
    requires w > 0
    ensures Round(sec, w) == w * Truncate(sec, w)
  {
  }

  lemma RoundTwiceFromZero(sec: nat, w: int, k: int)
    requires w > 0 && k > 0 && w * k > 0
    ensures Round(Round(sec, w), w * k) == Round(sec, w * k)
  {
    DivOfDiv(sec, w, k);
    RoundIsMultiple(sec, w);
    RoundIsMultiple(sec, w * k);
    RoundIsMultiple(Round(sec, w), w * k);
  }

  lemma RoundTwice(sec: int, w: int, k: int)
    requires w > 0 && k > 0 && w * k > 0
    ensures Round(Round(sec, w), w * k) == Round(sec, w * k)
  {
    if sec >= 0 {
      RoundTwiceFromZero(sec, w, k);
    } else {
      RoundTwiceFromZero(-sec, w, k);
      RoundNegates(sec, w);
      RoundNegates(sec, w * k);
      RoundNegates(Round(sec, w), w * k);
    }
  }

  /** Grouping by a window and then by a multiple of it is grouping by the multiple, before 1970 too. */
  lemma GroupOfGroup(ts: int, w: int, w': int)
    requires w > 0 && w' > 0 && w' % w == 0
    ensures Group(Group(ts, w) * 1000, w') == Group(ts, w')
  {
    DivMod(w', w);
    var k := w' / w;
    assert k > 0 by { if k <= 0 { MulMonotone(w, k, 0); } }
    assert Truncate(Group(ts, w) * 1000, 1000) == Group(ts, w);
    RoundTwice(Truncate(ts, 1000), w, k);
  }

  /** The buckets of a query as readings at the buckets' begins. */
  function AsReadings(buckets: seq<Bucket>): seq<Reading> {
    if buckets == [] then [] else [Reading(buckets[0].x, buckets[0].y)] + AsReadings(buckets[1..])
  }

  lemma {:induction false} FoldOfBuckets(op: Op, rows: seq<Reading>, w: int, groups: seq<int>, w': int, x: int)
    requires w > 0 && w' > 0 && (op == Sum || op == Max || op == Min)
    requires forall g :: g in groups ==> g in Groups(rows, w)
    ensures Fold(op, AsReadings(ToBuckets(op, rows, w, groups)), w', x) == FoldGroups(op, rows, w, groups, w', x)
    decreases |groups|
  {
    if groups == [] {
    } else {
      assert groups == [groups[0]] + groups[1..];
      assert groups[0] in groups;
      NoNullAggregates(op, rows, w, groups[0]);
      FoldOfBuckets(op, rows, w, groups[1..], w', x);
      var y, rest := Aggregate(op, rows, w, groups[0]), ToBuckets(op, rows, w, groups[1..]);
      var b := Bucket(groups[0] * 1000, (groups[0] + w) * 1000, y.value);
      assert ([b] + rest)[1..] == rest;
      assert AsReadings([b] + rest) == [Reading(b.x, b.y)] + AsReadings(rest);
      assert ([Reading(b.x, b.y)] + AsReadings(rest))[1..] == AsReadings(rest);
    }
  }

  lemma {:induction false} ReadingsOfBuckets(op: Op, rows: seq<Reading>, w: int, groups: seq<int>)
    requires w > 0 && forall g :: g in groups ==> g in Groups(rows, w)
    ensures var readings := AsReadings(ToBuckets(op, rows, w, groups));
            |readings| == |groups| && forall i :: 0 <= i < |groups| ==> readings[i].ts == groups[i] * 1000
    decreases |groups|
  {
    if groups == [] {
    } else {
      assert groups == [groups[0]] + groups[1..];
      assert groups[0] in groups;
      NoNullAggregates(op, rows, w, groups[0]);
      ReadingsOfBuckets(op, rows, w, groups[1..]);
      var rest := ToBuckets(op, rows, w, groups[1..]);
      var all := ToBuckets(op, rows, w, groups);
      assert all[1..] == rest;
    }
  }

  lemma CoarserGroups(op: Op, rows: seq<Reading>, w: int, w': int)
    requires w > 0 && w' > 0 && w' % w == 0
    ensures Groups(AsReadings(Buckets(op, rows, w)), w') == Groups(rows, w')
  {
    var groups, readings := Groups(rows, w), AsReadings(Buckets(op, rows, w));
    GroupsAreGroups(rows, w);
    GroupsAreGroups(rows, w');
    GroupsAreGroups(readings, w');
    ReadingsOfBuckets(op, rows, w, groups);
    forall x | x in Groups(rows, w') ensures x in Groups(readings, w') {
      var r :| r in rows && Group(r.ts, w') == x;
      GroupOfGroup(r.ts, w, w');
      assert Group(r.ts, w) in groups;
      var i :| 0 <= i < |groups| && groups[i] == Group(r.ts, w);
      assert readings[i] in readings;
    }
    forall x | x in Groups(readings, w') ensures x in Groups(rows, w') {
      var q :| q in readings && Group(q.ts, w') == x;
      var i :| 0 <= i < |readings| && readings[i] == q;
      assert groups[i] in groups;
      var r :| r in rows && Group(r.ts, w) == groups[i];
      GroupOfGroup(r.ts, w, w');
    }
    SameMembersSameSeq(Groups(readings, w'), Groups(rows, w'));
  }

  /** Main result: when one window divides another, aggregating the finer buckets gives exactly the coarser ones, for
      SUM, MAX and MIN and whatever the times. */
  lemma FinerBucketsCombine(op: Op, rows: seq<Reading>, w: int, w': int)
    requires w > 0 && w' > 0 && w' % w == 0 && (op == Sum || op == Max || op == Min)
    ensures Buckets(op, AsReadings(Buckets(op, rows, w)), w') == Buckets(op, rows, w')
  {
    var readings := AsReadings(Buckets(op, rows, w));
    CoarserGroups(op, rows, w, w');
    GroupsAreGroups(rows, w);
    var groups := Groups(rows, w');
    BucketPerGroup(op, rows, w', groups);
    BucketPerGroup(op, readings, w', groups);
    forall i | 0 <= i < |groups| ensures Aggregate(op, readings, w', groups[i]) == Aggregate(op, rows, w', groups[i]) {
      FoldOfBuckets(op, rows, w, Groups(rows, w), w', groups[i]);
      FoldOfFolds(op, rows, w, Groups(rows, w), w', groups[i]);
    }
  }

  function SumOfGroups(rows: seq<Reading>, w: int, groups: seq<int>): real
    requires w > 0
  {
    if groups == [] then 0.0 else OrZero(Fold(Sum, rows, w, groups[0])) + SumOfGroups(rows, w, groups[1..])
  }

  lemma {:induction false} OneMoreReading(r: Reading, rows: seq<Reading>, w: int, groups: seq<int>)
    requires w > 0 && Ascending(groups)
    ensures SumOfGroups([r] + rows, w, groups) ==
            SumOfGroups(rows, w, groups) + if Group(r.ts, w) in groups then r.value else 0.0
    decreases |groups|
  {
    if groups == [] {
    } else {
      assert groups == [groups[0]] + groups[1..];
      assert ([r] + rows)[1..] == rows;
      OneMoreReading(r, rows, w, groups[1..]);
    }
  }

  lemma {:induction false} GroupsHoldTheSum(rows: seq<Reading>, w: int, groups: seq<int>)
    requires w > 0 && Ascending(groups) && forall r :: r in rows ==> Group(r.ts, w) in groups
    ensures SumOfGroups(rows, w, groups) == SumOf(rows)
  {
    if rows == [] {
      NoReadings(w, groups);
    } else {
      assert rows == [rows[0]] + rows[1..];
      GroupsHoldTheSum(rows[1..], w, groups);
      OneMoreReading(rows[0], rows[1..], w, groups);
    }
  }

  lemma {:induction false} NoReadings(w: int, groups: seq<int>)
    requires w > 0
    ensures SumOfGroups([], w, groups) == 0.0
    decreases |groups|
  {
    if groups == [] {
    } else {
      NoReadings(w, groups[1..]);
    }
  }

  lemma {:induction false} SumOfBuckets(rows: seq<Reading>, w: int, groups: seq<int>)
    requires w > 0 && forall g :: g in groups ==> g in Groups(rows, w)
    ensures SumOf(AsReadings(ToBuckets(Sum, rows, w, groups))) == SumOfGroups(rows, w, groups)
    decreases |groups|
  {
    if groups == [] {
    } else {
      assert groups == [groups[0]] + groups[1..];
      assert groups[0] in groups;
      NoNullAggregates(Sum, rows, w, groups[0]);
      SumOfBuckets(rows, w, groups[1..]);
      var rest := ToBuckets(Sum, rows, w, groups[1..]);
      var all := ToBuckets(Sum, rows, w, groups);
      assert all[1..] == rest;
      assert AsReadings(all)[1..] == AsReadings(rest);
    }
  }

  /** The bucket sums add up to the sum of all readings. */
  lemma BucketSumsAreConserved(rows: seq<Reading>, w: int)
    requires w > 0
    ensures SumOf(AsReadings(Buckets(Sum, rows, w))) == SumOf(rows)
  {
    GroupsAreGroups(rows, w);
    SumOfBuckets(rows, w, Groups(rows, w));
    GroupsHoldTheSum(rows, w, Groups(rows, w));
  }
}
