/** The two telemetry tables: the history, unique by device, key and time, and the current values, unique by device and
  * key, that are meant to replace the latest-per-key query over the history. */
module TelemetryTables {
  import opened Wrappers

  datatype Value = Value(number: Option<real>, text: Option<string>, flag: Option<bool>)

  /** A sample as it arrives in a batch. */
  datatype Row = Row(device: string, key: string, ts: int, value: Value, tenant: string)

  datatype Place = Place(device: string, key: string)

  datatype Moment = Moment(place: Place, ts: int)

  datatype Past = Past(value: Value, tenant: string)

  datatype Present = Present(ts: int, value: Value, tenant: string)

  datatype Outcome = Stored | Rejected

  function PlaceOf(r: Row): Place {
    Place(r.device, r.key)
  }

  function MomentOf(r: Row): Moment {
    Moment(PlaceOf(r), r.ts)
  }

  // --------------------------------------------------------------------------------------------------- what is written

  /** ON CONFLICT (device_id, key, ts) DO UPDATE: the values change, the tenant stays. */
  function Upsert(history: map<Moment, Past>, r: Row): map<Moment, Past> {
    var m := MomentOf(r);
    history[m := Past(r.value, if m in history then history[m].tenant else r.tenant)]
  }

  function UpsertAll(history: map<Moment, Past>, rows: seq<Row>): map<Moment, Past> {
    if rows == [] then history else Upsert(UpsertAll(history, rows[..|rows| - 1]), rows[|rows| - 1])
  }

  /** Update the values and the time, or create the row; times are not compared. */
  function Replace(current: map<Place, Present>, r: Row): map<Place, Present> {
    var p := PlaceOf(r);
    current[p := Present(r.ts, r.value, if p in current then current[p].tenant else r.tenant)]
  }

  function ReplaceAll(current: map<Place, Present>, rows: seq<Row>): map<Place, Present> {
    if rows == [] then current else Replace(ReplaceAll(current, rows[..|rows| - 1]), rows[|rows| - 1])
  }

  predicate DistinctMoments(rows: seq<Row>) {
    forall i, j :: 0 <= i < j < |rows| ==> MomentOf(rows[i]) != MomentOf(rows[j])
  }

  /** What a stored batch leaves: every old moment and every moment of the batch, the batch's values at its moments, and
      old rows as they were elsewhere; a row that was there keeps its tenant. */
  ghost predicate Holds(before: map<Moment, Past>, data: seq<Row>, after: map<Moment, Past>) {
    && (forall m :: m in after <==> m in before || exists r :: r in data && MomentOf(r) == m)
    && (forall r :: r in data ==>
                      after[MomentOf(r)] ==
                      Past(r.value, if MomentOf(r) in before then before[MomentOf(r)].tenant else r.tenant))
    && (forall m :: m in before && (forall r :: r in data ==> MomentOf(r) != m) ==> after[m] == before[m])
  }

  lemma {:induction false} UpsertAllMoments(history: map<Moment, Past>, rows: seq<Row>, m: Moment)
    ensures m in UpsertAll(history, rows) <==> m in history || exists r :: r in rows && MomentOf(r) == m
    decreases |rows|
  {
    if rows == [] {
    } else {
      var n := |rows| - 1;
      assert rows == rows[..n] + [rows[n]];
      UpsertAllMoments(history, rows[..n], m);
    }
  }

  lemma HoldsOneMore(history: map<Moment, Past>, data: seq<Row>, middle: map<Moment, Past>, r: Row)
    requires Holds(history, data, middle) && forall q :: q in data ==> MomentOf(q) != MomentOf(r)
    ensures Holds(history, data + [r], Upsert(middle, r))
  {
    var more, after := data + [r], Upsert(middle, r);
    assert forall q :: q in more <==> q in data || q == r;
    assert MomentOf(r) in middle <==> MomentOf(r) in history;
    forall m | m in history && (forall q :: q in more ==> MomentOf(q) != m) ensures after[m] == history[m] {
      assert MomentOf(r) != m;
    }
  }

  lemma {:induction false} UpsertAllHolds(history: map<Moment, Past>, data: seq<Row>)
    requires DistinctMoments(data)
    ensures Holds(history, data, UpsertAll(history, data))
    decreases |data|
  {
    if data == [] {
    } else {
      var n := |data| - 1;
      assert data == data[..n] + [data[n]];
      UpsertAllHolds(history, data[..n]);
      HoldsOneMore(history, data[..n], UpsertAll(history, data[..n]), data[n]);
    }
  }

  lemma RepeatedMoment(data: seq<Row>, i: int)
    requires 0 <= i < |data| && exists r :: r in data[..i] && MomentOf(r) == MomentOf(data[i])
    ensures !DistinctMoments(data)
  {
    var j :| 0 <= j < i && MomentOf(data[..i][j]) == MomentOf(data[i]);
  }

  class Tables {
    var history: map<Moment, Past>
    var current: map<Place, Present>

    constructor ()
      ensures history == map[] && current == map[]
    {
      history, current := map[], map[];
    }

    /** The plain insert of a batch is one statement: a duplicate, in the table or in the batch, undoes all of it.
        Otherwise the table holds all old rows and the rows of the batch. */
    method Insert(data: seq<Row>) returns (unique: bool)
      modifies this`history
      ensures unique <==> DistinctMoments(data) && forall r :: r in data ==> MomentOf(r) !in old(history)
      ensures unique ==> Holds(old(history), data, history) && history == UpsertAll(old(history), data)
      ensures !unique ==> history == old(history)
    {
      var rows := history;
      for i := 0 to |data|
        invariant history == old(history) && rows == UpsertAll(history, data[..i]) && DistinctMoments(data[..i])
        invariant forall r :: r in data[..i] ==> MomentOf(r) !in history
      {
        UpsertAllMoments(history, data[..i], MomentOf(data[i]));
        assert data[..i + 1] == data[..i] + [data[i]];
        if MomentOf(data[i]) in rows {
          if MomentOf(data[i]) !in history { RepeatedMoment(data, i); }
          assert data[i] in data;
          return false;
        }
        rows := rows[MomentOf(data[i]) := Past(data[i].value, data[i].tenant)];
      }
      assert data[..|data|] == data;
      UpsertAllHolds(history, data);
      history := rows;
      unique := true;
    }

    /** The statement with conflict handling cannot touch one row twice: a batch that repeats a moment is refused.
        Otherwise the table holds all old rows, with new values where the batch has them, and the new rows of the
        batch. */
    method InsertOnConflict(data: seq<Row>) returns (outcome: Outcome)
      modifies this`history
      ensures outcome.Stored? <==> DistinctMoments(data)
      ensures outcome.Stored? ==> Holds(old(history), data, history) && history == UpsertAll(old(history), data)
      ensures outcome.Rejected? ==> history == old(history)
    {
      var rows, touched := history, {};
      for i := 0 to |data|
        invariant history == old(history) && rows == UpsertAll(history, data[..i]) && DistinctMoments(data[..i])
        invariant forall m :: m in touched <==> exists r :: r in data[..i] && MomentOf(r) == m
      {
        var m := MomentOf(data[i]);
        assert data[..i + 1] == data[..i] + [data[i]];
        if m in touched {
          RepeatedMoment(data, i);
          return Rejected;
        }
        touched := touched + {m};
        rows := rows[m := Past(data[i].value, if m in rows then rows[m].tenant else data[i].tenant)];
      }
      assert data[..|data|] == data;
      UpsertAllHolds(history, data);
      history := rows;
      return Stored;
    }

    /** CreateTelemetrDataBatch: the plain insert, and after a unique violation the insert with conflict handling. */
    method CreateBatch(data: seq<Row>) returns (outcome: Outcome)
      modifies this`history
      ensures outcome.Stored? <==> DistinctMoments(data)
      ensures outcome.Stored? ==> Holds(old(history), data, history) && history == UpsertAll(old(history), data)
      ensures outcome.Rejected? ==> history == old(history)
    {
      var unique := Insert(data);
      if unique {
        return Stored;
      }
      outcome := InsertOnConflict(data);
    }

    /** UpdateTelemetrDataBatch */
    method UpdateBatch(data: seq<Row>)
      modifies this`current
      ensures current == ReplaceAll(old(current), data)
    {
      var before := current;
      for i := 0 to |data|
        invariant current == ReplaceAll(before, data[..i])
      {
        assert data[..i + 1][..i] == data[..i];
        var d, p := data[i], PlaceOf(data[i]);
        if p in current {
          current := current[p := Present(d.ts, d.value, current[p].tenant)];
        } else {
          current := current[p := Present(d.ts, d.value, d.tenant)];
        }
      }
      assert data[..|data|] == data;
    }
  }

  // ------------------------------------------------------------------------------------------------------ what is read

  /** The row that ROW_NUMBER() OVER (PARTITION BY key ORDER BY ts DESC) = 1 selects. */
  ghost predicate IsLatest(history: map<Moment, Past>, m: Moment) {
    m in history && forall n :: n in history && n.place == m.place ==> n.ts <= m.ts
  }

  ghost predicate HasHistory(history: map<Moment, Past>, p: Place) {
    exists m :: m in history && m.place == p
  }

  /** The current values of a place are those of its latest history row, and neither table knows a place alone. */
  ghost predicate Agree(history: map<Moment, Past>, current: map<Place, Present>, p: Place) {
    if p in current then
      IsLatest(history, Moment(p, current[p].ts)) && history[Moment(p, current[p].ts)].value == current[p].value
    else !HasHistory(history, p)
  }

  // ----------------------------------------------------------------------------------------------- the tables of a run

  function Concat(batches: seq<seq<Row>>): seq<Row> {
    if batches == [] then [] else Concat(batches[..|batches| - 1]) + batches[|batches| - 1]
  }

  /** The tables after batches that both writers accepted. */
  function HistoryAfter(batches: seq<seq<Row>>): map<Moment, Past> {
    if batches == [] then map[] else UpsertAll(HistoryAfter(batches[..|batches| - 1]), batches[|batches| - 1])
  }

  function CurrentAfter(batches: seq<seq<Row>>): map<Place, Present> {
    if batches == [] then map[] else ReplaceAll(CurrentAfter(batches[..|batches| - 1]), batches[|batches| - 1])
  }

  lemma {:induction false} UpsertAllAppends(history: map<Moment, Past>, a: seq<Row>, b: seq<Row>)
    ensures UpsertAll(history, a + b) == UpsertAll(UpsertAll(history, a), b)
    decreases |b|
  {
    if b == [] {
      assert a + b == a;
    } else {
      assert (a + b)[..|a + b| - 1] == a + b[..|b| - 1];
      UpsertAllAppends(history, a, b[..|b| - 1]);
    }
  }

  lemma {:induction false} ReplaceAllAppends(current: map<Place, Present>, a: seq<Row>, b: seq<Row>)
    ensures ReplaceAll(current, a + b) == ReplaceAll(ReplaceAll(current, a), b)
    decreases |b|
  {
    if b == [] {
      assert a + b == a;
    } else {
      assert (a + b)[..|a + b| - 1] == a + b[..|b| - 1];
      ReplaceAllAppends(current, a, b[..|b| - 1]);
    }
  }

  /** Batch boundaries do not matter. */
  lemma {:induction false} TablesOfArrivals(batches: seq<seq<Row>>)
    ensures HistoryAfter(batches) == UpsertAll(map[], Concat(batches))
    ensures CurrentAfter(batches) == ReplaceAll(map[], Concat(batches))
  {
    if batches == [] {
    } else {
      var n := |batches| - 1;
      TablesOfArrivals(batches[..n]);
      UpsertAllAppends(map[], Concat(batches[..n]), batches[n]);
      ReplaceAllAppends(map[], Concat(batches[..n]), batches[n]);
    }
  }

  /** The last arrival of a place. */
  ghost predicate IsLastOf(rows: seq<Row>, k: int, p: Place) {
    0 <= k < |rows| && PlaceOf(rows[k]) == p && forall i :: k < i < |rows| ==> PlaceOf(rows[i]) != p
  }

  lemma {:induction false} CurrentHoldsLastArrival(rows: seq<Row>, p: Place, k: int)
    requires IsLastOf(rows, k, p)
    ensures p in ReplaceAll(map[], rows)
    ensures ReplaceAll(map[], rows)[p].ts == rows[k].ts && ReplaceAll(map[], rows)[p].value == rows[k].value
  {
    var n := |rows| - 1;
    if k < n {
      CurrentHoldsLastArrival(rows[..n], p, k);
    }
  }

  lemma {:induction false} CurrentPlaces(rows: seq<Row>, p: Place)
    ensures p in ReplaceAll(map[], rows) <==> exists i :: 0 <= i < |rows| && PlaceOf(rows[i]) == p
  {
    if rows == [] {
    } else {
      var n := |rows| - 1;
      CurrentPlaces(rows[..n], p);
      if exists i :: 0 <= i < n && PlaceOf(rows[i]) == p {
        var i :| 0 <= i < n && PlaceOf(rows[i]) == p;
        assert rows[..n][i] == rows[i];
      }
    }
  }

  lemma {:induction false} HistoryMoments(rows: seq<Row>, m: Moment)
    ensures m in UpsertAll(map[], rows) <==> exists i :: 0 <= i < |rows| && MomentOf(rows[i]) == m
  {
    if rows == [] {
    } else {
      var n := |rows| - 1;
      HistoryMoments(rows[..n], m);
      if exists i :: 0 <= i < n && MomentOf(rows[i]) == m {
        var i :| 0 <= i < n && MomentOf(rows[i]) == m;
        assert rows[..n][i] == rows[i];
      }
    }
  }

  lemma {:induction false} HistoryHoldsLastValue(rows: seq<Row>, k: int)
    requires 0 <= k < |rows| && forall i :: k < i < |rows| ==> PlaceOf(rows[i]) != PlaceOf(rows[k])
    ensures MomentOf(rows[k]) in UpsertAll(map[], rows)
    ensures UpsertAll(map[], rows)[MomentOf(rows[k])].value == rows[k].value
  {
    var n := |rows| - 1;
    if k < n {
      HistoryHoldsLastValue(rows[..n], k);
    }
  }

  lemma {:induction false} LastArrival(rows: seq<Row>, p: Place) returns (k: int)
    requires exists i :: 0 <= i < |rows| && PlaceOf(rows[i]) == p
    ensures IsLastOf(rows, k, p)
  {
    var n := |rows| - 1;
    if PlaceOf(rows[n]) == p {
      k := n;
    } else {
      var i :| 0 <= i < |rows| && PlaceOf(rows[i]) == p;
      assert rows[..n][i] == rows[i];
      k := LastArrival(rows[..n], p);
    }
  }

  /** The last arrival of a place is no older than any arrival of it before. */
  ghost predicate LastIsNewest(rows: seq<Row>, p: Place) {
    forall k :: IsLastOf(rows, k, p) ==>
                  forall i :: 0 <= i < |rows| && PlaceOf(rows[i]) == p ==> rows[i].ts <= rows[k].ts
  }

  /** Main result: after any batches accepted by both writers, the current table agrees with the latest-per-key query at
      a place exactly when the last arrival there carries the greatest time so far. */
  lemma CurrentAgreesIffLastIsNewest(batches: seq<seq<Row>>, p: Place)
    ensures Agree(HistoryAfter(batches), CurrentAfter(batches), p) <==> LastIsNewest(Concat(batches), p)
  {
    var rows := Concat(batches);
    TablesOfArrivals(batches);
    CurrentPlaces(rows, p);
    var history, current := UpsertAll(map[], rows), ReplaceAll(map[], rows);
    forall m ensures m in history <==> exists i :: 0 <= i < |rows| && MomentOf(rows[i]) == m {
      HistoryMoments(rows, m);
    }
    if p in current {
      var k := LastArrival(rows, p);
      CurrentHoldsLastArrival(rows, p, k);
      HistoryHoldsLastValue(rows, k);
      assert forall j :: IsLastOf(rows, j, p) ==> j == k;
      forall i | 0 <= i < |rows| && PlaceOf(rows[i]) == p ensures MomentOf(rows[i]) in history {
      }
    }
  }

  /** A late row of an earlier time overwrites the current value, while the history query still returns the newer
      one. */
  lemma LateRowExample(newer: Row, older: Row)
    requires PlaceOf(newer) == PlaceOf(older) && older.ts < newer.ts
    ensures !Agree(HistoryAfter([[newer], [older]]), CurrentAfter([[newer], [older]]), PlaceOf(newer))
  {
    var batches, rows := [[newer], [older]], [newer, older];
    assert batches[..1] == [[newer]] && batches[..1][..0] == [];
    assert Concat([[newer]]) == [newer];
    assert Concat(batches) == rows;
    assert IsLastOf(rows, 1, PlaceOf(newer)) && PlaceOf(rows[0]) == PlaceOf(newer);
    CurrentAgreesIffLastIsNewest(batches, PlaceOf(newer));
  }

  /** Times per place never decrease in arrival order. */
  ghost predicate InOrder(rows: seq<Row>) {
    forall i, j :: 0 <= i < j < |rows| && PlaceOf(rows[i]) == PlaceOf(rows[j]) ==> rows[i].ts <= rows[j].ts
  }

  /** Rows of a place carry one tenant. */
  ghost predicate OneTenant(rows: seq<Row>) {
    forall i, j :: 0 <= i < j < |rows| && PlaceOf(rows[i]) == PlaceOf(rows[j]) ==> rows[i].tenant == rows[j].tenant
  }

  /** So arrival in time order keeps the tables in agreement at every batch boundary. */
  lemma InOrderKeepsAgreement(batches: seq<seq<Row>>, p: Place)
    requires InOrder(Concat(batches))
    ensures Agree(HistoryAfter(batches), CurrentAfter(batches), p)
  {
    CurrentAgreesIffLastIsNewest(batches, p);
  }

  lemma {:induction false} TenantsOfPlace(rows: seq<Row>, tenant: string, p: Place)
    requires forall i :: 0 <= i < |rows| && PlaceOf(rows[i]) == p ==> rows[i].tenant == tenant
    ensures p in ReplaceAll(map[], rows) ==> ReplaceAll(map[], rows)[p].tenant == tenant
    ensures forall m :: m in UpsertAll(map[], rows) && m.place == p ==> UpsertAll(map[], rows)[m].tenant == tenant
  {
    if rows == [] {
    } else {
      TenantsOfPlace(rows[..|rows| - 1], tenant, p);
    }
  }

  /** And when no place changes its tenant, the tenants agree as well. */
  lemma TenantsAgree(batches: seq<seq<Row>>, p: Place)
    requires InOrder(Concat(batches)) && OneTenant(Concat(batches)) && p in CurrentAfter(batches)
    ensures Moment(p, CurrentAfter(batches)[p].ts) in HistoryAfter(batches)
    ensures HistoryAfter(batches)[Moment(p, CurrentAfter(batches)[p].ts)].tenant == CurrentAfter(batches)[p].tenant
  {
    var rows := Concat(batches);
    InOrderKeepsAgreement(batches, p);
    TablesOfArrivals(batches);
    CurrentPlaces(rows, p);
    var k := LastArrival(rows, p);
    TenantsOfPlace(rows, rows[k].tenant, p);
  }
}
