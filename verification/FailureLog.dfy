/** The stored failures of a device: each failure is pushed to the front of a list that is then trimmed. Push and trim
  * are two commands of a pipeline, so those of concurrent flushes may interleave. */
module FailureLog {

  datatype Record = Record(timestamp: int, direction: string, stage: string, error: string)

  /** LRANGE list 0 stop, and what LTRIM list 0 stop keeps: a negative stop counts from the end. */
  function Head<T>(list: seq<T>, stop: int): seq<T> {
    var last := if stop < 0 then |list| + stop else if stop >= |list| then |list| - 1 else stop;
    if last < 0 then [] else list[..last + 1]
  }

  /** The newest m of a log, newest first. */
  function Newest<T>(log: seq<T>, m: nat): seq<T>
    requires m <= |log|
  {
    if m == 0 then [] else [log[|log| - 1]] + Newest(log[..|log| - 1], m - 1)
  }

  function Min(a: nat, b: nat): nat {
    if a < b then a else b
  }

  datatype Command = Push(record: Record) | Trim

  function Execute(list: seq<Record>, command: Command, maxFailures: int): seq<Record> {
    match command
    case Push(record) => [record] + list
    case Trim => Head(list, maxFailures - 1)
  }

  function ExecuteAll(commands: seq<Command>, maxFailures: int): seq<Record> {
    if commands == [] then [] else
      var n := |commands| - 1;
      Execute(ExecuteAll(commands[..n], maxFailures), commands[n], maxFailures)
  }

  /** The log of all pushes, oldest first. */
  function Log(commands: seq<Command>): seq<Record> {
    if commands == [] then [] else
      var n := |commands| - 1;
      Log(commands[..n]) + if commands[n].Push? then [commands[n].record] else []
  }

  lemma {:induction false} NewestPrefix<T>(log: seq<T>, m: nat, k: nat)
    requires k <= m <= |log|
    ensures |Newest(log, m)| == m && Newest(log, m)[..k] == Newest(log, k)
  {
    if m == 0 {
    } else {
      if k > 0 {
        NewestPrefix(log[..|log| - 1], m - 1, k - 1);
      } else {
        NewestPrefix(log[..|log| - 1], m - 1, 0);
      }
    }
  }

  lemma NewestPush<T>(log: seq<T>, r: T, m: nat)
    requires m <= |log|
    ensures Newest(log + [r], m + 1) == [r] + Newest(log, m)
  {
    assert (log + [r])[..|log|] == log;
  }

  /** The list is the newest m of the log, and m is no less than the limit or the log's length allow. */
  ghost predicate IsNewestPart(list: seq<Record>, log: seq<Record>, m: nat, maxFailures: nat) {
    m <= |log| && Min(maxFailures, |log|) <= m && list == Newest(log, m)
  }

  lemma TrimNewest(list: seq<Record>, log: seq<Record>, m: nat, maxFailures: nat)
    requires maxFailures >= 1 && IsNewestPart(list, log, m, maxFailures)
    ensures IsNewestPart(Execute(list, Trim, maxFailures), log, Min(maxFailures, |log|), maxFailures)
  {
    NewestPrefix(log, m, Min(maxFailures, |log|));
  }

  lemma PushNewest(list: seq<Record>, log: seq<Record>, m: nat, record: Record, maxFailures: nat)
    requires IsNewestPart(list, log, m, maxFailures)
    ensures IsNewestPart(Execute(list, Push(record), maxFailures), log + [record], m + 1, maxFailures)
  {
    NewestPush(log, record, m);
  }

  /** Whatever the interleaving, the list is always the newest part of the log, and long enough. */
  lemma {:induction false} ListIsNewestPart(commands: seq<Command>, maxFailures: nat) returns (m: nat)
    requires maxFailures >= 1
    ensures IsNewestPart(ExecuteAll(commands, maxFailures), Log(commands), m, maxFailures)
    ensures commands != [] && commands[|commands| - 1].Trim? ==> m == Min(maxFailures, |Log(commands)|)
  {
    if commands == [] {
      m := 0;
    } else {
      var n := |commands| - 1;
      m := ListIsNewestPart(commands[..n], maxFailures);
      var list, log := ExecuteAll(commands[..n], maxFailures), Log(commands[..n]);
      if commands[n].Push? {
        PushNewest(list, log, m, commands[n].record, maxFailures);
        m := m + 1;
      } else {
        assert Log(commands) == log + [] == log;
        TrimNewest(list, log, m, maxFailures);
        m := Min(maxFailures, |log|);
      }
    }
  }

  /** Main result: after any pushes and trims, in whatever interleaving, that end with a trim, the stored list is the
      newest min(N, k) of the k pushed failures, newest first, and reading N of it returns it. */
  lemma TrimmedListIsNewest(commands: seq<Command>, maxFailures: nat)
    requires maxFailures >= 1 && commands != [] && commands[|commands| - 1].Trim?
    ensures var log := Log(commands);
            var stored := ExecuteAll(commands, maxFailures);
            stored == Newest(log, Min(maxFailures, |log|)) && Head(stored, maxFailures - 1) == stored
  {
    var m := ListIsNewestPart(commands, maxFailures);
    NewestPrefix(Log(commands), m, m);
  }

  /** A limit of zero keeps everything instead of nothing: the stop -1 is the end of the list. */
  lemma {:induction false} LimitZeroKeepsAll(commands: seq<Command>)
    ensures ExecuteAll(commands, 0) == Newest(Log(commands), |Log(commands)|)
  {
    if commands == [] {
    } else {
      var n := |commands| - 1;
      LimitZeroKeepsAll(commands[..n]);
      if commands[n].Push? {
        NewestPush(Log(commands[..n]), commands[n].record, |Log(commands[..n])|);
      } else {
        assert Log(commands) == Log(commands[..n]);
        NewestPrefix(Log(commands), |Log(commands)|, |Log(commands)|);
      }
    }
  }

  /** The commands of flushes that run one at a time: a push and a trim for each failure. */
  function PushTrims(records: seq<Record>): seq<Command> {
    if records == [] then [] else PushTrims(records[..|records| - 1]) + [Push(records[|records| - 1]), Trim]
  }

  lemma {:induction false} LogOfPushTrims(records: seq<Record>)
    ensures Log(PushTrims(records)) == records
  {
    if records == [] {
    } else {
      var n := |records| - 1;
      LogOfPushTrims(records[..n]);
      var before := PushTrims(records[..n]);
      var commands := before + [Push(records[n]), Trim];
      assert commands[..|commands| - 1] == before + [Push(records[n])];
      assert (before + [Push(records[n])])[..|before|] == before;
      assert Log(before + [Push(records[n])]) == records[..n] + [records[n]];
    }
  }

  /** A negative limit keeps nothing: every trim drops at least the record just pushed. */
  lemma {:induction false} NegativeLimitKeepsNone(records: seq<Record>, maxFailures: int)
    requires maxFailures < 0
    ensures ExecuteAll(PushTrims(records), maxFailures) == []
  {
    if records == [] {
    } else {
      var n := |records| - 1;
      NegativeLimitKeepsNone(records[..n], maxFailures);
      OneMorePushTrim(records[..n], records[n], maxFailures);
      assert records == records[..n] + [records[n]];
    }
  }

  /** How many of k failures stay stored. */
  function Kept(maxFailures: int, k: nat): (m: nat)
    ensures m <= k
  {
    if maxFailures == 0 then k else if maxFailures < 0 then 0 else Min(maxFailures, k)
  }

  /** Flushes that run one at a time leave the newest part of the log, for any limit. */
  lemma StoredNewest(records: seq<Record>, maxFailures: int)
    ensures var stored := ExecuteAll(PushTrims(records), maxFailures);
            stored == Newest(records, Kept(maxFailures, |records|)) && Head(stored, maxFailures - 1) == stored
  {
    LogOfPushTrims(records);
    if maxFailures < 0 {
      NegativeLimitKeepsNone(records, maxFailures);
    } else if maxFailures == 0 {
      LimitZeroKeepsAll(PushTrims(records));
      NewestPrefix(records, |records|, |records|);
    } else if records != [] {
      TrimmedListIsNewest(PushTrims(records), maxFailures);
    }
  }

  /** The stored list keeps within its limit exactly when the limit is not zero. */
  lemma LimitHoldsIffNotZero(records: seq<Record>, maxFailures: int)
    requires records != []
    ensures |ExecuteAll(PushTrims(records), maxFailures)| <= (if maxFailures < 0 then 0 else maxFailures) <==>
            maxFailures != 0
  {
    StoredNewest(records, maxFailures);
    NewestPrefix(records, Kept(maxFailures, |records|), 0);
  }

  // -------------------------------------------------------------------------------------------------------- the class

  function Listed(lists: map<string, seq<Record>>, device: string): seq<Record> {
    if device in lists then lists[device] else []
  }

  datatype Failure = Failure(device: string, record: Record)

  function RecordsOf(batch: seq<Failure>, device: string): seq<Record> {
    if batch == [] then [] else
      var n := |batch| - 1;
      RecordsOf(batch[..n], device) + if batch[n].device == device then [batch[n].record] else []
  }

  ghost predicate ListsMatch(lists: map<string, seq<Record>>, added: seq<Failure>, maxFailures: int) {
    forall device {:trigger Listed(lists, device)} :: Listed(lists, device) ==
        ExecuteAll(PushTrims(RecordsOf(added, device)), maxFailures)
  }

  function AfterAdd(lists: map<string, seq<Record>>, device: string, record: Record, maxFailures: int): map<string,
      seq<Record>>
  {
    lists[device := Head([record] + Listed(lists, device), maxFailures - 1)]
  }

  lemma RecordsOfSnoc(added: seq<Failure>, device: string, record: Record, d: string)
    ensures RecordsOf(added + [Failure(device, record)], d) ==
            if d == device then RecordsOf(added, d) + [record] else RecordsOf(added, d)
  {
    assert (added + [Failure(device, record)])[..|added|] == added;
  }

  lemma AddKeepsMatch(lists: map<string, seq<Record>>, added: seq<Failure>, device: string, record: Record,
                      maxFailures: int)
    requires ListsMatch(lists, added, maxFailures)
    ensures ListsMatch(AfterAdd(lists, device, record, maxFailures), added + [Failure(device, record)], maxFailures)
  {
    var after, more := AfterAdd(lists, device, record, maxFailures), added + [Failure(device, record)];
    forall d ensures Listed(after, d) == ExecuteAll(PushTrims(RecordsOf(more, d)), maxFailures) {
      RecordsOfSnoc(added, device, record, d);
      if d == device {
        OneMorePushTrim(RecordsOf(added, d), record, maxFailures);
      } else {
        assert Listed(after, d) == Listed(lists, d);
      }
    }
  }

  lemma AppendOneMore(added: seq<Failure>, batch: seq<Failure>, i: int)
    requires 0 <= i < |batch|
    ensures added + batch[..i] + [Failure(batch[i].device, batch[i].record)] == added + batch[..i + 1]
  {
    assert batch[i] == Failure(batch[i].device, batch[i].record);
    assert batch[..i + 1] == batch[..i] + [batch[i]];
  }

  class Metrics {
    var lists: map<string, seq<Record>>
    /** All failures added so far, oldest first. */
    ghost var added: seq<Failure>
    const maxFailures: int

    /** Every list is what a push and a trim for each of the device's failures leave. */
    ghost predicate Valid()
      reads this
    {
      ListsMatch(lists, added, maxFailures)
    }

    constructor (maxFailures: int)
      ensures Valid() && added == [] && this.maxFailures == maxFailures
    {
      this.maxFailures := maxFailures;
      lists, added := map[], [];
    }

    method AddFailure(device: string, record: Record)
      requires Valid()
      modifies this
      ensures Valid() && added == old(added) + [Failure(device, record)]
      ensures lists == AfterAdd(old(lists), device, record, maxFailures)
    {
      AddKeepsMatch(lists, added, device, record, maxFailures);
      lists := lists[device := [record] + Listed(lists, device)];
      lists := lists[device := Head(lists[device], maxFailures - 1)];
      assert lists == AfterAdd(old(lists), device, record, maxFailures);
      added := added + [Failure(device, record)];
    }

    /** flush: the batch is written in order. */
    method Flush(batch: seq<Failure>)
      requires Valid()
      modifies this
      ensures Valid() && added == old(added) + batch
    {
      for i := 0 to |batch|
        invariant Valid() && added == old(added) + batch[..i]
      {
        AppendOneMore(old(added), batch, i);
        AddFailure(batch[i].device, batch[i].record);
      }
      assert batch[..|batch|] == batch;
    }

    /** After any flushes, the newest of all failures added for the device, newest first: min(N, k) of k for a positive
        limit, all for a limit of zero, and none for a negative one. */
    method GetFailures(device: string) returns (failures: seq<Record>)
      requires Valid()
      ensures var log := RecordsOf(added, device); failures == Newest(log, Kept(maxFailures, |log|))
    {
      failures := Head(Listed(lists, device), maxFailures - 1);
      StoredNewest(RecordsOf(added, device), maxFailures);
    }
  }

  lemma OneMorePushTrim(records: seq<Record>, record: Record, maxFailures: int)
    ensures ExecuteAll(PushTrims(records + [record]), maxFailures) ==
            Head([record] + ExecuteAll(PushTrims(records), maxFailures), maxFailures - 1)
  {
    var all, before := records + [record], PushTrims(records);
    assert all[..|all| - 1] == records;
    var commands := before + [Push(record), Trim];
    assert commands[..|commands| - 1] == before + [Push(record)];
    assert (before + [Push(record)])[..|before|] == before;
  }
}
