/** The diagnostics collector under concurrency. Recorders append to one buffer under a lock and flush it when it is
  * full; a ticker and the final stop flush it too. A flush takes the whole buffer under the lock and then writes its
  * batch, item by item, outside the lock. Every locked section and every write is one step, in any interleaving. */
module Collector {
  import FailureLog
  import opened Wrappers

  type Failure = FailureLog.Failure

  /** A batch that some flush has taken, and how many of its items it has tried to write. */
  datatype Batch = Batch(items: seq<Failure>, tried: nat)

  /** What a thread is doing: nothing, about to flush (after recording, or for the ticker or the stop), or writing. */
  datatype Thread = Idle | MustFlush(recorded: bool) | Writing(batch: nat)

  datatype State = State(buffer: seq<Failure>, batches: seq<Batch>, threads: seq<Thread>, recorded: seq<Failure>,
                         written: seq<Failure>)

  datatype Step =
    | Record(thread: nat, failure: Failure)
    | Tick(thread: nat)
    | Take(thread: nat)
    | Write(thread: nat)

  predicate Unfinished(s: State, b: int) {
    0 <= b < |s.batches| && s.batches[b].tried < |s.batches[b].items|
  }

  predicate Enabled(s: State, step: Step) {
    step.thread < |s.threads| &&
    match step
    case Record(t, _) => s.threads[t].Idle?
    case Tick(t) => s.threads[t].Idle?
    case Take(t) => s.threads[t].MustFlush?
    case Write(t) => s.threads[t].Writing? && Unfinished(s, s.threads[t].batch)
  }

  /** size is BatchFlushSize. A failure without a device is not recorded. */
  function After(s: State, step: Step, size: nat): State
    requires Enabled(s, step)
  {
    match step
    case Record(t, failure) =>
      if failure.device == "" then s else
        var buffer := s.buffer + [failure];
        s.(buffer := buffer, recorded := s.recorded + [failure],
           threads := if |buffer| >= size then s.threads[t := MustFlush(true)] else s.threads)
    case Tick(t) => s.(threads := s.threads[t := MustFlush(false)])
    case Take(t) =>
      if s.buffer == [] then s.(threads := s.threads[t := Idle])
      else s.(buffer := [], batches := s.batches + [Batch(s.buffer, 0)],
              threads := s.threads[t := Writing(|s.batches|)])
    case Write(t) =>
      var b := s.threads[t].batch;
      var tried := s.batches[b].tried + 1;
      s.(batches := s.batches[b := s.batches[b].(tried := tried)],
         written := s.written + [s.batches[b].items[s.batches[b].tried]],
         threads := if tried < |s.batches[b].items| then s.threads else s.threads[t := Idle])
  }

  function Start(threads: nat): State {
    State([], [], seq(threads, _ => Idle), [], [])
  }

  /** The states that runs reach; a step that is not enabled does not happen. */
  function Run(threads: nat, size: nat, steps: seq<Step>): State {
    if steps == [] then Start(threads) else
      var s, step := Run(threads, size, steps[..|steps| - 1]), steps[|steps| - 1];
      if Enabled(s, step) then After(s, step, size) else s
  }

  // --------------------------------------------------------------------------------------------------------- invariant

  function Items(batches: seq<Batch>): seq<Failure> {
    if batches == [] then [] else Items(batches[..|batches| - 1]) + batches[|batches| - 1].items
  }

  /** The recorders that are about to flush. */
  function Pending(threads: seq<Thread>): nat {
    if threads == [] then 0 else Pending(threads[1..]) + if threads[0] == MustFlush(true) then 1 else 0
  }

  /** Every unfinished batch is being written by one thread, and threads write unfinished batches only. */
  ghost predicate OneWriter(s: State) {
    && (forall b :: 0 <= b < |s.batches| ==> s.batches[b].tried <= |s.batches[b].items|)
    && (forall t :: 0 <= t < |s.threads| && s.threads[t].Writing? ==> Unfinished(s, s.threads[t].batch))
    && (forall t, u :: 0 <= t < u < |s.threads| && s.threads[t].Writing? && s.threads[u].Writing? ==>
                         s.threads[t].batch != s.threads[u].batch)
    && (forall b :: Unfinished(s, b) ==> exists t :: 0 <= t < |s.threads| && s.threads[t] == Writing(b))
  }

  /** The recorded failures are, in order, the items of the batches taken and then the buffer. */
  ghost predicate NothingLost(s: State) {
    s.recorded == Items(s.batches) + s.buffer
  }

  ghost predicate BufferBound(s: State, size: nat) {
    |s.buffer| <= size - 1 + Pending(s.threads)
  }

  lemma {:induction false} PendingUpdate(threads: seq<Thread>, t: nat, x: Thread)
    requires t < |threads|
    ensures Pending(threads[t := x]) ==
            Pending(threads) - (if threads[t] == MustFlush(true) then 1 else 0) + if x == MustFlush(true) then 1 else 0
  {
    if t == 0 {
      assert threads[0 := x][1..] == threads[1..];
    } else {
      PendingUpdate(threads[1..], t - 1, x);
      assert threads[t := x][1..] == threads[1..][t - 1 := x];
    }
  }

  lemma {:induction false} PendingAtStart(threads: seq<Thread>)
    requires forall t :: 0 <= t < |threads| ==> threads[t].Idle?
    ensures Pending(threads) == 0
  {
    if threads == [] {
    } else {
      PendingAtStart(threads[1..]);
    }
  }

  lemma {:induction false} ItemsKept(batches: seq<Batch>, b: nat, tried: nat)
    requires b < |batches|
    ensures Items(batches[b := batches[b].(tried := tried)]) == Items(batches)
  {
    var n := |batches| - 1;
    var after := batches[b := batches[b].(tried := tried)];
    if b < n {
      ItemsKept(batches[..n], b, tried);
      assert after[..n] == batches[..n][b := batches[b].(tried := tried)];
    } else {
      assert after[..n] == batches[..n];
    }
  }

  lemma StepKeepsOrder(s: State, step: Step, size: nat)
    requires Enabled(s, step) && NothingLost(s)
    ensures NothingLost(After(s, step, size))
  {
    match step
    case Record(_, failure) =>
      assert Items(s.batches) + (s.buffer + [failure]) == Items(s.batches) + s.buffer + [failure];
    case Tick(_) =>
    case Take(_) =>
      var batch := Batch(s.buffer, 0);
      assert (s.batches + [batch])[..|s.batches|] == s.batches;
    case Write(t) =>
      ItemsKept(s.batches, s.threads[t].batch, s.batches[s.threads[t].batch].tried + 1);
  }

  lemma StepKeepsBound(s: State, step: Step, size: nat)
    requires Enabled(s, step) && BufferBound(s, size) && size >= 1
    ensures BufferBound(After(s, step, size), size)
  {
    match step
    case Record(t, _) => PendingUpdate(s.threads, t, MustFlush(true));
    case Tick(t) => PendingUpdate(s.threads, t, MustFlush(false));
    case Take(t) =>
      PendingUpdate(s.threads, t, Idle);
      PendingUpdate(s.threads, t, Writing(|s.batches|));
    case Write(t) => PendingUpdate(s.threads, t, Idle);
  }

  lemma TakeKeepsOneWriter(s: State, t: nat)
    requires Enabled(s, Take(t)) && OneWriter(s) && s.buffer != []
    ensures OneWriter(After(s, Take(t), 1))
  {
    var s' := After(s, Take(t), 1);
    forall b | Unfinished(s', b) ensures exists u :: 0 <= u < |s'.threads| && s'.threads[u] == Writing(b) {
      if b == |s.batches| {
        assert s'.threads[t] == Writing(b);
      } else {
        assert Unfinished(s, b);
        var u :| 0 <= u < |s.threads| && s.threads[u] == Writing(b);
        assert s'.threads[u] == Writing(b);
      }
    }
    forall u | 0 <= u < |s'.threads| && s'.threads[u].Writing? ensures Unfinished(s', s'.threads[u].batch) {
      if u != t { assert Unfinished(s, s.threads[u].batch); }
    }
  }

  lemma WriteKeepsOneWriter(s: State, t: nat)
    requires Enabled(s, Write(t)) && OneWriter(s)
    ensures OneWriter(After(s, Write(t), 1))
  {
    var s', c := After(s, Write(t), 1), s.threads[t].batch;
    assert Unfinished(s, c);
    forall b | Unfinished(s', b) ensures exists u :: 0 <= u < |s'.threads| && s'.threads[u] == Writing(b) {
      assert Unfinished(s, b);
      var u :| 0 <= u < |s.threads| && s.threads[u] == Writing(b);
      assert s'.threads[u] == Writing(b);
    }
    forall u | 0 <= u < |s'.threads| && s'.threads[u].Writing? ensures Unfinished(s', s'.threads[u].batch) {
      assert Unfinished(s, s.threads[u].batch);
      assert u < t || u == t || t < u;
    }
  }

  lemma ThreadChangeKeepsOneWriter(s: State, t: nat, x: Thread)
    requires t < |s.threads| && OneWriter(s) && !s.threads[t].Writing? && !x.Writing?
    ensures OneWriter(s.(threads := s.threads[t := x]))
  {
    var s' := s.(threads := s.threads[t := x]);
    forall b | Unfinished(s', b) ensures exists u :: 0 <= u < |s'.threads| && s'.threads[u] == Writing(b) {
      assert Unfinished(s, b);
      var u :| 0 <= u < |s.threads| && s.threads[u] == Writing(b);
      assert s'.threads[u] == Writing(b);
    }
    forall u | 0 <= u < |s'.threads| && s'.threads[u].Writing? ensures Unfinished(s', s'.threads[u].batch) {
      assert Unfinished(s, s.threads[u].batch);
    }
  }

  lemma BufferChangeKeepsOneWriter(s: State, buffer: seq<Failure>, recorded: seq<Failure>)
    requires OneWriter(s)
    ensures OneWriter(s.(buffer := buffer, recorded := recorded))
  {
    var s' := s.(buffer := buffer, recorded := recorded);
    assert forall b :: Unfinished(s', b) <==> Unfinished(s, b);
  }

  lemma StepKeepsOneWriter(s: State, step: Step, size: nat)
    requires Enabled(s, step) && OneWriter(s)
    ensures OneWriter(After(s, step, size))
  {
    match step
    case Record(t, failure) =>
      BufferChangeKeepsOneWriter(s, s.buffer + [failure], s.recorded + [failure]);
      ThreadChangeKeepsOneWriter(s.(buffer := s.buffer + [failure], recorded := s.recorded + [failure]), t,
                                 MustFlush(true));
    case Tick(t) => ThreadChangeKeepsOneWriter(s, t, MustFlush(false));
    case Take(t) =>
      if s.buffer == [] { ThreadChangeKeepsOneWriter(s, t, Idle); } else { TakeKeepsOneWriter(s, t); }
    case Write(t) => WriteKeepsOneWriter(s, t);
  }

  /** Main result: in every interleaving the recorded failures are exactly, and in order, the batches taken so far and
      then the buffer; every batch not yet completely tried is in the hands of exactly one flush; and the buffer is at
      most one short of the flush size plus the recorders about to flush. So each failure is in exactly one of the
      buffer, one batch in flight, or tried. */
  lemma {:induction false} RunsLoseNothing(threads: nat, size: nat, steps: seq<Step>)
    ensures NothingLost(Run(threads, size, steps)) && OneWriter(Run(threads, size, steps))
    ensures size >= 1 ==> BufferBound(Run(threads, size, steps), size)
    decreases |steps|
  {
    if steps == [] {
      PendingAtStart(Start(threads).threads);
    } else {
      var before, step := steps[..|steps| - 1], steps[|steps| - 1];
      RunsLoseNothing(threads, size, before);
      var s := Run(threads, size, before);
      if Enabled(s, step) {
        StepKeepsOrder(s, step, size);
        StepKeepsOneWriter(s, step, size);
        if size >= 1 { StepKeepsBound(s, step, size); }
      }
    }
  }

  /** When no flush is pending or running, every recorded failure has been tried or is in the buffer; after a final
      flush that nothing follows, all of them have been tried. */
  lemma AtRestEverythingIsTried(threads: nat, size: nat, steps: seq<Step>)
    requires forall t :: 0 <= t < |Run(threads, size, steps).threads| ==> Run(threads, size, steps).threads[t].Idle?
    ensures var s := Run(threads, size, steps);
            && (forall b :: 0 <= b < |s.batches| ==> s.batches[b].tried == |s.batches[b].items|)
            && (size >= 1 ==> |s.buffer| < size)
            && (s.buffer == [] ==> s.recorded == Items(s.batches))
  {
    var s := Run(threads, size, steps);
    RunsLoseNothing(threads, size, steps);
    PendingAtStart(s.threads);
    forall b | 0 <= b < |s.batches| ensures s.batches[b].tried == |s.batches[b].items| {
      assert forall t :: 0 <= t < |s.threads| ==> s.threads[t] != Writing(b);
    }
    assert Items(s.batches) + [] == Items(s.batches);
  }

  // ----------------------------------------------------------------------------------------------- the order of writes

  /** The items tried, batch by batch. */
  function TriedItems(batches: seq<Batch>): seq<Failure> {
    if batches == [] then [] else
      var last := batches[|batches| - 1];
      TriedItems(batches[..|batches| - 1]) + if last.tried <= |last.items| then last.items[..last.tried] else last.items
  }

  ghost predicate Finished(s: State, before: int) {
    forall b :: 0 <= b < before && b < |s.batches| ==> s.batches[b].tried == |s.batches[b].items|
  }

  /** A write belongs to the oldest batch that is not finished. */
  ghost predicate OldestFirst(s: State, step: Step)
    requires Enabled(s, step)
  {
    step.Write? ==> Finished(s, s.threads[step.thread].batch)
  }

  /** At most one flush is in flight. */
  ghost predicate OneFlush(s: State) {
    forall t, u :: 0 <= t < u < |s.threads| ==> !(s.threads[t].Writing? && s.threads[u].Writing?)
  }

  lemma OneFlushWritesOldest(s: State, step: Step)
    requires OneWriter(s) && Enabled(s, step) && OneFlush(s)
    ensures OldestFirst(s, step)
  {
    if step.Write? {
      assert forall t :: 0 <= t < |s.threads| && t != step.thread ==> !s.threads[t].Writing?;
      forall b | 0 <= b < s.threads[step.thread].batch && b < |s.batches|
        ensures s.batches[b].tried == |s.batches[b].items|
      {
        assert s.threads[step.thread] != Writing(b);
      }
    }
  }

  ghost predicate OneFlushThroughout(threads: nat, size: nat, steps: seq<Step>) {
    OneFlush(Run(threads, size, steps)) && (steps == [] || OneFlushThroughout(threads, size, steps[..|steps| - 1]))
  }

  ghost predicate WritesOldestFirst(threads: nat, size: nat, steps: seq<Step>) {
    steps == [] ||
    var before, step := steps[..|steps| - 1], steps[|steps| - 1];
    WritesOldestFirst(threads, size, before) &&
    (Enabled(Run(threads, size, before), step) ==> OldestFirst(Run(threads, size, before), step))
  }

  lemma {:induction false} OneFlushSuffices(threads: nat, size: nat, steps: seq<Step>)
    requires OneFlushThroughout(threads, size, steps)
    ensures WritesOldestFirst(threads, size, steps)
    decreases |steps|
  {
    if steps == [] {
    } else {
      var before, step := steps[..|steps| - 1], steps[|steps| - 1];
      OneFlushSuffices(threads, size, before);
      RunsLoseNothing(threads, size, before);
      if Enabled(Run(threads, size, before), step) {
        assert OneFlush(Run(threads, size, before));
        OneFlushWritesOldest(Run(threads, size, before), step);
      }
    }
  }

  /** A batch is begun only when all before it are finished, and the writes follow the batches. */
  ghost predicate InOrder(s: State) {
    && (forall b :: 0 <= b < |s.batches| && s.batches[b].tried > 0 ==> Finished(s, b))
    && s.written == TriedItems(s.batches)
  }

  lemma {:induction false} TriedOneMore(batches: seq<Batch>, b: nat)
    requires b < |batches| && batches[b].tried < |batches[b].items|
    requires forall c :: b < c < |batches| ==> batches[c].tried == 0
    ensures TriedItems(batches[b := batches[b].(tried := batches[b].tried + 1)]) ==
            TriedItems(batches) + [batches[b].items[batches[b].tried]]
  {
    var n := |batches| - 1;
    var after := batches[b := batches[b].(tried := batches[b].tried + 1)];
    if b == n {
      assert after[..n] == batches[..n];
    } else {
      assert after[..n] == batches[..n][b := batches[b].(tried := batches[b].tried + 1)];
      TriedOneMore(batches[..n], b);
      assert batches[n].items[..0] == [];
    }
  }

  lemma WriteKeepsInOrder(s: State, t: nat, size: nat)
    requires Enabled(s, Write(t)) && OneWriter(s) && InOrder(s) && OldestFirst(s, Write(t))
    ensures InOrder(After(s, Write(t), size))
  {
    var c := s.threads[t].batch;
    forall b | c < b < |s.batches| ensures s.batches[b].tried == 0 {
      assert s.batches[b].tried > 0 ==> Finished(s, b);
    }
    TriedOneMore(s.batches, c);
  }

  lemma StepKeepsInOrder(s: State, step: Step, size: nat)
    requires Enabled(s, step) && OneWriter(s) && InOrder(s) && OldestFirst(s, step)
    ensures InOrder(After(s, step, size))
  {
    match step
    case Record(_, _) =>
    case Tick(_) =>
    case Take(_) =>
      var batch := Batch(s.buffer, 0);
      assert (s.batches + [batch])[..|s.batches|] == s.batches;
    case Write(t) => WriteKeepsInOrder(s, t, size);
  }

  lemma {:induction false} RunsWriteInOrder(threads: nat, size: nat, steps: seq<Step>)
    requires WritesOldestFirst(threads, size, steps)
    ensures InOrder(Run(threads, size, steps))
    decreases |steps|
  {
    if steps == [] {
    } else {
      var before, step := steps[..|steps| - 1], steps[|steps| - 1];
      RunsWriteInOrder(threads, size, before);
      RunsLoseNothing(threads, size, before);
      if Enabled(Run(threads, size, before), step) {
        StepKeepsInOrder(Run(threads, size, before), step, size);
      }
    }
  }

  lemma {:induction false} AllTried(batches: seq<Batch>)
    requires forall b :: 0 <= b < |batches| ==> batches[b].tried == |batches[b].items|
    ensures TriedItems(batches) == Items(batches)
  {
    if batches == [] {
    } else {
      var n := |batches| - 1;
      AllTried(batches[..n]);
      assert batches[n].items[..batches[n].tried] == batches[n].items;
    }
  }

  /** Main result: when every write goes to the oldest unfinished batch (with at most one flush in flight they all do),
      then at rest everything recorded has been written in the order recorded, but for the buffer, and the stored list
      of a device is the newest min(N, k) of its k recorded failures, newest first. */
  lemma StoredIsNewestRecorded(threads: nat, size: nat, steps: seq<Step>, device: string, maxFailures: int)
    requires WritesOldestFirst(threads, size, steps)
    requires forall t :: 0 <= t < |Run(threads, size, steps).threads| ==> Run(threads, size, steps).threads[t].Idle?
    ensures var s := Run(threads, size, steps);
            && s.recorded == s.written + s.buffer
            && var log := FailureLog.RecordsOf(s.written, device);
               FailureLog.ExecuteAll(FailureLog.PushTrims(log), maxFailures) ==
               FailureLog.Newest(log, FailureLog.Kept(maxFailures, |log|))
  {
    var s := Run(threads, size, steps);
    RunsWriteInOrder(threads, size, steps);
    RunsLoseNothing(threads, size, steps);
    AtRestEverythingIsTried(threads, size, steps);
    AllTried(s.batches);
    FailureLog.StoredNewest(FailureLog.RecordsOf(s.written, device), maxFailures);
  }

  // ------------------------------------------------------------------------------------ exactly when the order is kept

  /** What has been written is what was recorded first, at every point of the run. */
  ghost predicate OrderKept(threads: nat, size: nat, steps: seq<Step>) {
    && Run(threads, size, steps).written <= Run(threads, size, steps).recorded
    && (steps == [] || OrderKept(threads, size, steps[..|steps| - 1]))
  }

  lemma {:induction false} TriedIsPrefix(batches: seq<Batch>)
    requires forall b, c :: 0 <= b < c < |batches| && batches[c].tried > 0 ==> batches[b].tried == |batches[b].items|
    ensures TriedItems(batches) <= Items(batches)
  {
    if batches == [] {
    } else {
      var n := |batches| - 1;
      if batches[n].tried == 0 {
        TriedIsPrefix(batches[..n]);
        assert batches[n].items[..0] == [];
      } else {
        AllTried(batches[..n]);
      }
    }
  }

  lemma InOrderIsPrefix(s: State)
    requires InOrder(s) && NothingLost(s)
    ensures s.written <= s.recorded
  {
    forall b, c | 0 <= b < c < |s.batches| && s.batches[c].tried > 0
      ensures s.batches[b].tried == |s.batches[b].items|
    {
      assert Finished(s, c);
    }
    TriedIsPrefix(s.batches);
  }

  /** The place of an item among those of all batches. */
  lemma {:induction false} ItemPlace(batches: seq<Batch>, c: nat, k: nat)
    requires c < |batches| && k < |batches[c].items|
    ensures var place := |Items(batches[..c])| + k;
            place < |Items(batches)| && Items(batches)[place] == batches[c].items[k]
  {
    var n := |batches| - 1;
    if c == n {
    } else {
      ItemPlace(batches[..n], c, k);
      assert batches[..n][..c] == batches[..c];
    }
  }

  lemma {:induction false} LaterBatchesStartLater(batches: seq<Batch>, b: nat, c: nat)
    requires b < c <= |batches|
    ensures |Items(batches[..b])| + |batches[b].items| <= |Items(batches[..c])|
    decreases c
  {
    var before := batches[..c];
    assert before[..c - 1] == batches[..c - 1] && before[c - 1] == batches[c - 1];
    if b == c - 1 {
    } else {
      LaterBatchesStartLater(batches, b, c - 1);
    }
  }

  lemma {:induction false} TriedReachesInto(batches: seq<Batch>, b: nat)
    requires b < |batches| && forall c :: b < c < |batches| ==> batches[c].tried == 0
    ensures |TriedItems(batches)| <= |Items(batches[..b])| + batches[b].tried
  {
    var n := |batches| - 1;
    if b == n {
      TriedNoMore(batches[..n]);
    } else {
      TriedReachesInto(batches[..n], b);
      assert batches[..n][..b] == batches[..b] && batches[n].items[..0] == [];
    }
  }

  lemma {:induction false} TriedNoMore(batches: seq<Batch>)
    ensures |TriedItems(batches)| <= |Items(batches)|
  {
    if batches == [] {
    } else {
      TriedNoMore(batches[..|batches| - 1]);
    }
  }

  /** A write to a batch while an older one is unfinished puts an item in a place where another was recorded. */
  lemma EarlyWriteLosesOrder(s: State, t: nat, size: nat, b: nat)
    requires Enabled(s, Write(t)) && InOrder(s) && NothingLost(s) && NoRepeats(s.recorded)
    requires b < s.threads[t].batch && Unfinished(s, b)
    ensures !(After(s, Write(t), size).written <= s.recorded)
  {
    var c, here := s.threads[t].batch, |s.written|;
    var k := s.batches[c].tried;
    forall d | b < d < |s.batches| ensures s.batches[d].tried == 0 {
      assert s.batches[d].tried > 0 ==> Finished(s, d);
    }
    TriedReachesInto(s.batches, b);
    LaterBatchesStartLater(s.batches, b, c);
    ItemPlace(s.batches, c, k);
    var place := |Items(s.batches[..c])| + k;
    assert s.recorded[place] == s.batches[c].items[k] && here < place;
    assert s.recorded[here] != s.recorded[place];
    assert After(s, Write(t), size).written[here] == s.batches[c].items[k];
  }

  lemma StepOrder(s: State, step: Step, size: nat)
    requires Enabled(s, step) && OneWriter(s) && NothingLost(s) && InOrder(s) && NoRepeats(s.recorded)
    ensures After(s, step, size).written <= After(s, step, size).recorded <==> OldestFirst(s, step)
  {
    if OldestFirst(s, step) {
      StepKeepsInOrder(s, step, size);
      StepKeepsOrder(s, step, size);
      InOrderIsPrefix(After(s, step, size));
    } else {
      var b :| 0 <= b < s.threads[step.thread].batch && b < |s.batches| && s.batches[b].tried != |s.batches[b].items|;
      EarlyWriteLosesOrder(s, step.thread, size, b);
    }
  }

  lemma RecordedGrows(threads: nat, size: nat, steps: seq<Step>)
    requires steps != []
    ensures Run(threads, size, steps[..|steps| - 1]).recorded <= Run(threads, size, steps).recorded
  {
  }

  /** Main result: when no two recorded failures are equal, what is written is at every point of a run what was recorded
      first if and only if every write goes to the oldest unfinished batch. */
  lemma {:induction false} OrderKeptIffOldestFirst(threads: nat, size: nat, steps: seq<Step>)
    requires NoRepeats(Run(threads, size, steps).recorded)
    ensures OrderKept(threads, size, steps) <==> WritesOldestFirst(threads, size, steps)
    decreases |steps|
  {
    if steps == [] {
    } else {
      var before, step := steps[..|steps| - 1], steps[|steps| - 1];
      RecordedGrows(threads, size, steps);
      OrderKeptIffOldestFirst(threads, size, before);
      var s := Run(threads, size, before);
      if WritesOldestFirst(threads, size, before) && Enabled(s, step) {
        RunsWriteInOrder(threads, size, before);
        RunsLoseNothing(threads, size, before);
        StepOrder(s, step, size);
      }
    }
  }

  /** Two flushes in flight can write in another order than recorded: each records a failure and takes it, and the
      second writes first. */
  lemma TwoFlushesLoseOrder(f: Failure, g: Failure)
    requires f != g && f.device != "" && g.device != ""
    ensures var s := Run(2, 1, [Record(0, f), Take(0), Record(1, g), Take(1), Write(1), Write(0)]);
            s.recorded == [f, g] && s.written == [g, f]
  {
    var steps := [Record(0, f), Take(0), Record(1, g), Take(1), Write(1), Write(0)];
    assert steps[..5][..4] == steps[..4] && steps[..4][..3] == steps[..3] && steps[..3][..2] == steps[..2];
    assert steps[..2][..1] == steps[..1] && steps[..1][..0] == [];
    var s0 := Start(2);
    var s1 := After(s0, Record(0, f), 1);
    assert Run(2, 1, steps[..1]) == s1;
    var s2 := After(s1, Take(0), 1);
    assert Run(2, 1, steps[..2]) == s2;
    var s3 := After(s2, Record(1, g), 1);
    assert Run(2, 1, steps[..3]) == s3;
    var s4 := After(s3, Take(1), 1);
    assert Run(2, 1, steps[..4]) == s4;
    var s5 := After(s4, Write(1), 1);
    assert Run(2, 1, steps[..5]) == s5;
  }
}
