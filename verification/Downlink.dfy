/** The downlink bus and its handler: four bounded channels, each with one worker that handles messages in order, and a
  * handler whose outcomes feed the per-device counters and the status of log rows.
  *
  * Workers interleave step by step: every counter increment, every publish result and every status write is a step of
  * its own. Encoding, publishing and the lookup of a log row have arbitrary results. */
module Downlink {
  import opened Wrappers

  datatype MessageType = Command | AttributeSet | AttributeGet | Telemetry | Other(name: string)

  datatype Message = Message(deviceId: string, deviceNumber: string, deviceConfigId: string, kind: MessageType,
                             data: seq<int>, messageId: string)

  /** What the script encoder returns: an error, a failed script, or the encoded data. */
  datatype Encoded = EncodeError | ScriptFailed | Encoded(data: seq<int>)

  /** How far a message has been handled. A message that is counted is rejected, or fails, or is sent. */
  datatype Stage = Received | Counted | Rejected | Failed | Sent

  /** A message that a worker has taken, its stage, the statuses written for it, and whether the worker is done with
      it. */
  datatype Entry = Entry(message: Message, stage: Stage, writes: seq<string>, done: bool)

  const SENT: string := "1"
  const FAILED: string := "2"

  predicate IsValid(m: Message) {
    m.deviceNumber != "" && |m.data| > 0
  }

  /** updateLogStatus writes when the ids are given, the type has a log table and the row is found. */
  function StatusWrite(m: Message, status: string, found: bool): seq<string> {
    if m.messageId != "" && m.deviceId != "" && (m.kind.Command? || m.kind.AttributeSet? || m.kind.Telemetry?) && found
    then [status] else []
  }

  /** The final entry of a message: handle as a whole. */
  function Handled(m: Message, encoded: Encoded, published: bool, found: bool): Entry {
    if !IsValid(m) then Entry(m, Rejected, StatusWrite(m, FAILED, found), true)
    else if m.deviceConfigId != "" && !encoded.Encoded? then Entry(m, Failed, StatusWrite(m, FAILED, found), true)
    else if !published then Entry(m, Failed, StatusWrite(m, FAILED, found), true)
    else Entry(m, Sent, StatusWrite(m, SENT, found), true)
  }

  // ------------------------------------------------------------------------------------------------------- the handler

  function Count(counts: map<string, nat>, device: string): nat {
    if device in counts then counts[device] else 0
  }

  /** The counters skip messages without a device. */
  function Increment(counts: map<string, nat>, device: string): map<string, nat> {
    if device == "" then counts else counts[device := Count(counts, device) + 1]
  }

  /** A failure that is queued for the diagnostics: its time, direction and text are left out. */
  datatype Reported = Reported(device: string, stage: string)

  const ENCODE: string := "encode"
  const PUBLISH: string := "publish"

  /** What is reported about a message: the stage at which it failed, if it failed and has a device. */
  function ReportOf(m: Message, encoded: Encoded, published: bool): seq<Reported> {
    if m.deviceId == "" || !IsValid(m) then []
    else if m.deviceConfigId != "" && !encoded.Encoded? then [Reported(m.deviceId, ENCODE)]
    else if !published then [Reported(m.deviceId, PUBLISH)]
    else []
  }

  class Handler {
    var total: map<string, nat>
    var failed: map<string, nat>
    var reports: seq<Reported>

    constructor ()
      ensures total == map[] && failed == map[] && reports == []
    {
      total, failed, reports := map[], map[], [];
    }

    /** handle: what it counts and which status it writes, for any results of the encoder, the publisher and the row
        lookup. Only messages with a device configuration are encoded. */
    method Handle(message: Option<Message>, encoded: Encoded, published: bool, found: bool)
      returns (writes: seq<string>)
      modifies this
      ensures message.None? ==> total == old(total) && failed == old(failed) && reports == old(reports) && writes == []
      ensures message.Some? ==>
                var m := message.value;
                var entry := Handled(m, encoded, published, found);
                && writes == entry.writes
                && total == Increment(old(total), m.deviceId)
                && failed == (if entry.stage.Failed? then Increment(old(failed), m.deviceId) else old(failed))
                && reports == old(reports) + ReportOf(m, encoded, published)
    {
      if message.Some? && message.value.deviceId != "" {
        RecordDownlinkTotal(message.value.deviceId);
      }
      if message.None? || message.value.deviceNumber == "" || |message.value.data| == 0 {
        if message.Some? && message.value.messageId != "" {
          writes := UpdateLogStatus(message.value, FAILED, found);
        } else {
          writes := [];
        }
        return;
      }
      var m := message.value;
      if m.deviceConfigId != "" {
        if encoded.EncodeError? {
          RecordDownlinkFailed(m.deviceId, ENCODE);
          writes := UpdateLogStatus(m, FAILED, found);
          return;
        }
        if encoded.ScriptFailed? {
          RecordDownlinkFailed(m.deviceId, ENCODE);
          writes := UpdateLogStatus(m, FAILED, found);
          return;
        }
      }
      if !published {
        RecordDownlinkFailed(m.deviceId, PUBLISH);
        writes := UpdateLogStatus(m, FAILED, found);
        return;
      }
      writes := UpdateLogStatus(m, SENT, found);
    }

    method RecordDownlinkTotal(device: string)
      modifies this`total
      ensures total == Increment(old(total), device)
      ensures forall d :: Count(total, d) == Count(old(total), d) + if d == device && d != "" then 1 else 0
    {
      if device == "" {
        return;
      }
      total := total[device := Count(total, device) + 1];
    }

    /** Counts the failure, and queues it for the list of recent failures. */
    method RecordDownlinkFailed(device: string, stage: string)
      modifies this`failed, this`reports
      ensures failed == Increment(old(failed), device)
      ensures forall d :: Count(failed, d) == Count(old(failed), d) + if d == device && d != "" then 1 else 0
      ensures reports == old(reports) + if device == "" then [] else [Reported(device, stage)]
    {
      if device == "" {
        return;
      }
      failed := failed[device := Count(failed, device) + 1];
      reports := reports + [Reported(device, stage)];
    }

    method UpdateLogStatus(m: Message, status: string, found: bool) returns (writes: seq<string>)
      ensures writes == StatusWrite(m, status, found)
    {
      if m.messageId == "" || m.deviceId == "" {
        return [];
      }
      match m.kind {
        case Command => writes := if found then [status] else [];
        case AttributeSet => writes := if found then [status] else [];
        case Telemetry => writes := if found then [status] else [];
        case AttributeGet => writes := [];
        case Other(_) => writes := [];
      }
    }
  }

  // ----------------------------------------------------------------------------------------------------------- the bus

  /** A channel: everything published on it, what is queued, what its worker has taken, and the handling so far. A nil
      message is taken and ignored. */
  datatype Channel = Channel(published: seq<Option<Message>>, queue: seq<Option<Message>>, taken: seq<Option<Message>>,
                             entries: seq<Entry>, stopped: bool, closed: bool)

  datatype Bus = Bus(channels: seq<Channel>, total: map<string, nat>, failed: map<string, nat>)

  const CHANNELS: nat := 4

  datatype Step =
    | Publish(channel: nat, message: Option<Message>)
    | Handoff(channel: nat, message: Option<Message>)
    | Receive(channel: nat)
    | CountTotal(channel: nat)
    | Reject(channel: nat, found: bool)
    | CountFailed(channel: nat)
    | ReportFailed(channel: nat, found: bool)
    | SendOff(channel: nat)
    | ReportSent(channel: nat, found: bool)
    | Cancel(channel: nat)
    | Close(channel: nat)

  predicate Busy(c: Channel) {
    c.entries != [] && !c.entries[|c.entries| - 1].done
  }

  function Current(c: Channel): Entry
    requires Busy(c)
  {
    c.entries[|c.entries| - 1]
  }

  predicate At(c: Channel, stage: Stage) {
    Busy(c) && Current(c).stage == stage
  }

  /** Sending blocks on a full channel and panics on a closed one; a message may pass directly to a waiting worker. What
      is queued when a channel is closed can still be received; the nil messages a closed channel then yields are
      ignored. */
  predicate Possible(c: Channel, step: Step, size: nat) {
    match step
    case Publish(_, _) => !c.closed && |c.queue| < size
    case Handoff(_, _) => !c.closed && c.queue == [] && !Busy(c) && !c.stopped
    case Receive(_) => c.queue != [] && !Busy(c) && !c.stopped
    case CountTotal(_) => At(c, Received)
    case Reject(_, _) => At(c, Counted) && !IsValid(Current(c).message)
    case CountFailed(_) => At(c, Counted) && IsValid(Current(c).message)
    case ReportFailed(_, _) => At(c, Failed)
    case SendOff(_) => At(c, Counted) && IsValid(Current(c).message)
    case ReportSent(_, _) => At(c, Sent)
    case Cancel(_) => !Busy(c)
    case Close(_) => !c.closed
  }

  predicate Enabled(b: Bus, step: Step, size: nat) {
    step.channel < |b.channels| && Possible(b.channels[step.channel], step, size)
  }

  function Take(c: Channel, m: Option<Message>): Channel {
    c.(taken := c.taken + [m],
       entries := if m.None? then c.entries else c.entries + [Entry(m.value, Received, [], false)])
  }

  function Replace(c: Channel, e: Entry): Channel
    requires Busy(c)
  {
    c.(entries := c.entries[|c.entries| - 1 := e])
  }

  /** What the step makes of the message in hand. */
  function NextEntry(e: Entry, step: Step): Entry {
    match step
    case CountTotal(_) => e.(stage := Counted)
    case Reject(_, found) =>
      e.(stage := Rejected, writes := e.writes + StatusWrite(e.message, FAILED, found), done := true)
    case CountFailed(_) => e.(stage := Failed)
    case ReportFailed(_, found) => e.(writes := e.writes + StatusWrite(e.message, FAILED, found), done := true)
    case SendOff(_) => e.(stage := Sent)
    case ReportSent(_, found) => e.(writes := e.writes + StatusWrite(e.message, SENT, found), done := true)
    case _ => e
  }

  function NextChannel(c: Channel, step: Step, size: nat): Channel
    requires Possible(c, step, size)
  {
    match step
    case Publish(_, m) => c.(published := c.published + [m], queue := c.queue + [m])
    case Handoff(_, m) => Take(c.(published := c.published + [m]), m)
    case Receive(_) => Take(c.(queue := c.queue[1..]), c.queue[0])
    case Cancel(_) => c.(stopped := true)
    case Close(_) => c.(closed := true)
    case _ => Replace(c, NextEntry(Current(c), step))
  }

  function After(b: Bus, step: Step, size: nat): Bus
    requires Enabled(b, step, size)
  {
    var c := b.channels[step.channel];
    Bus(b.channels[step.channel := NextChannel(c, step, size)],
        if step.CountTotal? then Increment(b.total, Current(c).message.deviceId) else b.total,
        if step.CountFailed? then Increment(b.failed, Current(c).message.deviceId) else b.failed)
  }

  function Start(): Bus {
    Bus(seq(CHANNELS, _ => Channel([], [], [], [], false, false)), map[], map[])
  }

  function Run(size: nat, steps: seq<Step>): Bus {
    if steps == [] then Start() else
      var b, step := Run(size, steps[..|steps| - 1]), steps[|steps| - 1];
      if Enabled(b, step, size) then After(b, step, size) else b
  }

  // ------------------------------------------------------------------------------------------------ order in a channel

  /** The messages without the nil ones. */
  function Messages(taken: seq<Option<Message>>): seq<Message> {
    if taken == [] then [] else
      var n := |taken| - 1;
      Messages(taken[..n]) + if taken[n].Some? then [taken[n].value] else []
  }

  function Subjects(entries: seq<Entry>): (r: seq<Message>)
    ensures |r| == |entries| && forall i :: 0 <= i < |r| ==> r[i] == entries[i].message
  {
    if entries == [] then [] else Subjects(entries[..|entries| - 1]) + [entries[|entries| - 1].message]
  }

  function StatusOf(stage: Stage): string {
    if stage == Sent then SENT else FAILED
  }

  /** An entry in progress has no status written yet; one that a worker is done with was rejected because it is not
      valid, or failed or was sent because it is, and its status was written or its row was not found. */
  ghost predicate EntryFits(e: Entry) {
    if e.done then
      && (e.stage == Rejected || e.stage == Failed || e.stage == Sent)
      && (e.stage == Rejected <==> !IsValid(e.message))
      && (e.writes == [] || e.writes == StatusWrite(e.message, StatusOf(e.stage), true))
      && (e.writes == [] || e.writes == [StatusOf(e.stage)])
    else
      e.writes == [] && e.stage != Rejected && (e.stage == Failed || e.stage == Sent ==> IsValid(e.message))
  }

  /** Such an entry is what the handler as a whole makes of the message, for some results of the encoder, the publisher
      and the row lookup. */
  lemma DoneEntryIsHandled(e: Entry) returns (encoded: Encoded, published: bool, found: bool)
    requires e.done && EntryFits(e)
    ensures e == Handled(e.message, encoded, published, found)
  {
    encoded, published, found := Encoded([]), e.stage == Sent, e.writes != [];
  }

  /** First in, first out, within the buffer. */
  ghost predicate Fifo(c: Channel, size: nat) {
    c.published == c.taken + c.queue && |c.queue| <= size
  }

  /** Every entry fits, and only the last may be in progress. */
  ghost predicate AllButLastDone(entries: seq<Entry>) {
    && (forall i :: 0 <= i < |entries| ==> EntryFits(entries[i]))
    && (forall i :: 0 <= i < |entries| - 1 ==> entries[i].done)
  }

  /** The taken messages are handled in order, one at a time. */
  ghost predicate HandledInOrder(c: Channel) {
    Subjects(c.entries) == Messages(c.taken) && AllButLastDone(c.entries)
  }

  ghost predicate InOrder(c: Channel, size: nat) {
    Fifo(c, size) && HandledInOrder(c)
  }

  lemma SubjectsSnoc(entries: seq<Entry>, e: Entry)
    ensures Subjects(entries + [e]) == Subjects(entries) + [e.message]
  {
    assert (entries + [e])[..|entries|] == entries;
  }

  lemma MessagesSnoc(taken: seq<Option<Message>>, m: Option<Message>)
    ensures Messages(taken + [m]) == Messages(taken) + if m.Some? then [m.value] else []
  {
    assert (taken + [m])[..|taken|] == taken;
  }

  lemma AllButLastDoneSnoc(entries: seq<Entry>, e: Entry)
    requires AllButLastDone(entries) && EntryFits(e) && (entries != [] ==> entries[|entries| - 1].done)
    ensures AllButLastDone(entries + [e])
  {
  }

  lemma TakeKeepsHandling(c: Channel, m: Option<Message>)
    requires !Busy(c) && HandledInOrder(c)
    ensures HandledInOrder(Take(c, m))
  {
    MessagesSnoc(c.taken, m);
    if m.Some? {
      var e := Entry(m.value, Received, [], false);
      SubjectsSnoc(c.entries, e);
      assert EntryFits(e);
      AllButLastDoneSnoc(c.entries, e);
    } else {
      assert Messages(c.taken) + [] == Messages(c.taken);
    }
  }

  lemma AllButLastDoneReplace(c: Channel, e: Entry)
    requires AllButLastDone(c.entries) && Busy(c) && EntryFits(e)
    ensures AllButLastDone(Replace(c, e).entries)
  {
  }

  lemma ReplaceKeepsHandling(c: Channel, e: Entry)
    requires HandledInOrder(c) && Busy(c) && EntryFits(e) && e.message == Current(c).message
    ensures HandledInOrder(Replace(c, e))
  {
    var c' := Replace(c, e);
    AllButLastDoneReplace(c, e);
    assert forall i :: 0 <= i < |c.entries| ==> Subjects(c'.entries)[i] == Subjects(c.entries)[i];
  }

  lemma NextEntryFits(c: Channel, step: Step, size: nat)
    requires Busy(c) && Possible(c, step, size) && EntryFits(Current(c))
    ensures EntryFits(NextEntry(Current(c), step))
  {
  }

  lemma ChannelKeepsFifo(c: Channel, step: Step, size: nat)
    requires Possible(c, step, size) && Fifo(c, size)
    ensures Fifo(NextChannel(c, step, size), size)
  {
    match step
    case Publish(_, m) => assert c.taken + (c.queue + [m]) == c.taken + c.queue + [m];
    case Handoff(_, m) => assert c.published + [m] == c.taken + [m] + [];
    case Receive(_) => assert c.taken + c.queue == c.taken + [c.queue[0]] + c.queue[1..];
    case _ =>
  }

  lemma ChannelKeepsHandling(c: Channel, step: Step, size: nat)
    requires Possible(c, step, size) && HandledInOrder(c)
    ensures HandledInOrder(NextChannel(c, step, size))
  {
    match step
    case Publish(_, _) =>
    case Handoff(_, m) => TakeKeepsHandling(c.(published := c.published + [m]), m);
    case Receive(_) => TakeKeepsHandling(c.(queue := c.queue[1..]), c.queue[0]);
    case Cancel(_) =>
    case Close(_) =>
    case _ =>
      NextEntryFits(c, step, size);
      ReplaceKeepsHandling(c, NextEntry(Current(c), step));
  }

  lemma StepKeepsOrder(b: Bus, step: Step, size: nat)
    requires Enabled(b, step, size) && forall c :: c in b.channels ==> InOrder(c, size)
    ensures forall c :: c in After(b, step, size).channels ==> InOrder(c, size)
  {
    assert b.channels[step.channel] in b.channels;
    ChannelKeepsFifo(b.channels[step.channel], step, size);
    ChannelKeepsHandling(b.channels[step.channel], step, size);
    var b' := After(b, step, size);
    forall c | c in b'.channels ensures InOrder(c, size) {
      var j :| 0 <= j < |b'.channels| && b'.channels[j] == c;
      assert j == step.channel || c == b.channels[j];
    }
  }

  /** Main result on order: in every run, on every channel, what was published is what the worker took followed by the
      queue, the queue keeps within the buffer, the messages handled are the taken ones without the nil ones, and all
      but the last have been handled completely. */
  lemma {:induction false} RunsKeepOrder(size: nat, steps: seq<Step>)
    ensures forall c :: c in Run(size, steps).channels ==> InOrder(c, size)
    decreases |steps|
  {
    if steps == [] {
    } else {
      var before, step := steps[..|steps| - 1], steps[|steps| - 1];
      RunsKeepOrder(size, before);
      if Enabled(Run(size, before), step, size) {
        StepKeepsOrder(Run(size, before), step, size);
      }
    }
  }

  lemma {:induction false} MessagesAppend(a: seq<Option<Message>>, b: seq<Option<Message>>)
    ensures Messages(a + b) == Messages(a) + Messages(b)
    decreases |b|
  {
    if b == [] {
      assert a + b == a;
    } else {
      var n := |b| - 1;
      assert a + b == (a + b[..n]) + [b[n]];
      MessagesAppend(a, b[..n]);
      MessagesSnoc(a + b[..n], b[n]);
    }
  }

  /** Nil messages aside, what was published on a channel is what was handled, in order, followed by the queue. */
  lemma PublishedIsHandledThenQueued(size: nat, steps: seq<Step>, c: Channel)
    requires c in Run(size, steps).channels
    ensures Messages(c.published) == Subjects(c.entries) + Messages(c.queue) && |c.queue| <= size
  {
    RunsKeepOrder(size, steps);
    MessagesAppend(c.taken, c.queue);
  }

  /** Each message has at most one status write, "1" is written only for a message that was sent, and of a sent message
      any write is "1"; what the interleaved steps make of a message is what the handler as a whole makes of it. */
  lemma OneStatusWrite(size: nat, steps: seq<Step>, c: Channel, e: Entry)
    requires c in Run(size, steps).channels && e in c.entries
    ensures |e.writes| <= 1
    ensures SENT in e.writes ==> e.stage == Sent
    ensures e.stage == Sent && e.writes != [] ==> e.writes == [SENT]
    ensures e.done ==> exists encoded, published, found :: e == Handled(e.message, encoded, published, found)
  {
    RunsKeepOrder(size, steps);
    var i :| 0 <= i < |c.entries| && c.entries[i] == e;
    assert EntryFits(c.entries[i]);
    if e.done {
      var encoded, published, found := DoneEntryIsHandled(e);
    }
  }

  // ---------------------------------------------------------------------------------------------------------- counters

  /** How many messages of the device have reached one of the stages. */
  ghost function Tally(entries: seq<Entry>, device: string, stages: set<Stage>): nat {
    if entries == [] then 0 else
      var e := entries[|entries| - 1];
      Tally(entries[..|entries| - 1], device, stages) + if e.message.deviceId == device && e.stage in stages then 1
          else 0
  }

  ghost function TallyAll(channels: seq<Channel>, device: string, stages: set<Stage>): nat {
    if channels == [] then 0 else
      TallyAll(channels[..|channels| - 1], device, stages) + Tally(channels[|channels| - 1].entries, device, stages)
  }

  ghost const COUNTED: set<Stage> := {Counted, Rejected, Failed, Sent}

  lemma {:induction false} TallyOfChannel(channels: seq<Channel>, i: nat, c: Channel, device: string,
                                          stages: set<Stage>)
    requires i < |channels|
    ensures TallyAll(channels[i := c], device, stages) ==
            TallyAll(channels, device, stages) - Tally(channels[i].entries, device, stages) +
            Tally(c.entries, device, stages)
  {
    var n := |channels| - 1;
    if i == n {
      assert channels[i := c][..n] == channels[..n];
    } else {
      assert channels[i := c][..n] == channels[..n][i := c];
      TallyOfChannel(channels[..n], i, c, device, stages);
    }
  }

  lemma TallyOfReplace(c: Channel, e: Entry, device: string, stages: set<Stage>)
    requires Busy(c) && e.message == Current(c).message
    ensures Tally(Replace(c, e).entries, device, stages) ==
            Tally(c.entries, device, stages)
            - (if e.message.deviceId == device && Current(c).stage in stages then 1 else 0)
            + (if e.message.deviceId == device && e.stage in stages then 1 else 0)
  {
    var n := |c.entries| - 1;
    assert Replace(c, e).entries[..n] == c.entries[..n];
  }

  lemma TallyOfTake(c: Channel, m: Option<Message>, device: string, stages: set<Stage>)
    requires Received !in stages
    ensures Tally(Take(c, m).entries, device, stages) == Tally(c.entries, device, stages)
  {
    if m.Some? {
      assert (c.entries + [Entry(m.value, Received, [], false)])[..|c.entries|] == c.entries;
    }
  }

  /** The counters of a device say how many of its messages have been counted, and how many have failed. */
  ghost predicate CountersMatch(b: Bus, device: string) {
    && Count(b.total, device) == TallyAll(b.channels, device, COUNTED)
    && Count(b.failed, device) == TallyAll(b.channels, device, {Failed})
  }

  lemma TakeCounters(c: Channel, m: Option<Message>, device: string)
    ensures Tally(Take(c, m).entries, device, COUNTED) == Tally(c.entries, device, COUNTED)
    ensures Tally(Take(c, m).entries, device, {Failed}) == Tally(c.entries, device, {Failed})
  {
    TallyOfTake(c, m, device, COUNTED);
    TallyOfTake(c, m, device, {Failed});
  }

  /** A step counts in its channel what it counts in the counters. */
  lemma ChannelCounters(c: Channel, step: Step, size: nat, device: string)
    requires Possible(c, step, size)
    ensures Tally(NextChannel(c, step, size).entries, device, COUNTED) ==
            Tally(c.entries, device, COUNTED) + if step.CountTotal? && Current(c).message.deviceId == device then 1
                else 0
    ensures Tally(NextChannel(c, step, size).entries, device, {Failed}) ==
            Tally(c.entries, device, {Failed}) + if step.CountFailed? && Current(c).message.deviceId == device then 1
                else 0
  {
    match step
    case Publish(_, _) =>
    case Handoff(_, m) => TakeCounters(c.(published := c.published + [m]), m, device);
    case Receive(_) => TakeCounters(c.(queue := c.queue[1..]), c.queue[0], device);
    case Cancel(_) =>
    case Close(_) =>
    case _ =>
      TallyOfReplace(c, NextEntry(Current(c), step), device, COUNTED);
      TallyOfReplace(c, NextEntry(Current(c), step), device, {Failed});
  }

  lemma StepKeepsCounters(b: Bus, step: Step, size: nat, device: string)
    requires Enabled(b, step, size) && CountersMatch(b, device) && device != ""
    ensures CountersMatch(After(b, step, size), device)
  {
    var c := b.channels[step.channel];
    ChannelCounters(c, step, size, device);
    TallyOfChannel(b.channels, step.channel, NextChannel(c, step, size), device, COUNTED);
    TallyOfChannel(b.channels, step.channel, NextChannel(c, step, size), device, {Failed});
  }

  lemma {:induction false} NothingTallied(channels: seq<Channel>, device: string, stages: set<Stage>)
    requires forall i :: 0 <= i < |channels| ==> channels[i].entries == []
    ensures TallyAll(channels, device, stages) == 0
  {
    if channels == [] {
    } else {
      NothingTallied(channels[..|channels| - 1], device, stages);
    }
  }

  lemma {:induction false} RunsKeepCounters(size: nat, steps: seq<Step>, device: string)
    requires device != ""
    ensures CountersMatch(Run(size, steps), device)
    decreases |steps|
  {
    if steps == [] {
      NothingTallied(Start().channels, device, COUNTED);
      NothingTallied(Start().channels, device, {Failed});
    } else {
      var before, step := steps[..|steps| - 1], steps[|steps| - 1];
      RunsKeepCounters(size, before, device);
      if Enabled(Run(size, before), step, size) {
        StepKeepsCounters(Run(size, before), step, size, device);
      }
    }
  }

  lemma {:induction false} TallySplits(entries: seq<Entry>, device: string)
    ensures Tally(entries, device, COUNTED) ==
            Tally(entries, device, {Counted}) + Tally(entries, device, {Rejected}) +
            Tally(entries, device, {Failed}) + Tally(entries, device, {Sent})
  {
    if entries == [] {
    } else {
      TallySplits(entries[..|entries| - 1], device);
    }
  }

  lemma {:induction false} TallyAllSplits(channels: seq<Channel>, device: string)
    ensures TallyAll(channels, device, COUNTED) ==
            TallyAll(channels, device, {Counted}) + TallyAll(channels, device, {Rejected}) +
            TallyAll(channels, device, {Failed}) + TallyAll(channels, device, {Sent})
  {
    if channels == [] {
    } else {
      TallyAllSplits(channels[..|channels| - 1], device);
      TallySplits(channels[|channels| - 1].entries, device);
    }
  }

  lemma {:induction false} NoneOpen(entries: seq<Entry>, device: string)
    requires forall i :: 0 <= i < |entries| ==> entries[i].done && EntryFits(entries[i])
    ensures Tally(entries, device, {Counted}) == 0
  {
    if entries == [] {
    } else {
      NoneOpen(entries[..|entries| - 1], device);
      assert EntryFits(entries[|entries| - 1]);
    }
  }

  lemma {:induction false} NoneOpenAtRest(channels: seq<Channel>, device: string, size: nat)
    requires forall i :: 0 <= i < |channels| ==> InOrder(channels[i], size) && !Busy(channels[i])
    ensures TallyAll(channels, device, {Counted}) == 0
  {
    if channels == [] {
    } else {
      NoneOpenAtRest(channels[..|channels| - 1], device, size);
      NoneOpen(channels[|channels| - 1].entries, device);
    }
  }

  /** calculateMetric of the downlink: the share of successes in percent. */
  function SuccessRate(total: int, success: int): real {
    if total > 0 then success as real / total as real * 100.0 else 0.0
  }

  lemma RateInRange(total: int, success: int)
    requires 0 <= success <= total
    ensures 0.0 <= SuccessRate(total, success) <= 100.0
  {
    if total > 0 {
      var share := success as real / total as real;
      assert 0.0 <= share <= 1.0;
    }
  }

  /** Main result on counters: at every step of every run no device has more failed than counted messages, so the
      reported success rate lies between 0 and 100. */
  lemma FailedNeverExceedsTotal(size: nat, steps: seq<Step>, device: string)
    requires device != ""
    ensures var total, failed := Count(Run(size, steps).total, device), Count(Run(size, steps).failed, device);
            failed <= total && 0.0 <= SuccessRate(total, total - failed) <= 100.0
  {
    RunsKeepCounters(size, steps, device);
    TallyAllSplits(Run(size, steps).channels, device);
    RateInRange(Count(Run(size, steps).total, device),
                Count(Run(size, steps).total, device) - Count(Run(size, steps).failed, device));
  }

  /** When no worker is in the middle of a message, the reported successes of a device are its messages sent and its
      messages rejected by validation, which are counted but do not count as failed. */
  lemma SuccessesAtRest(size: nat, steps: seq<Step>, device: string)
    requires device != "" && forall c :: c in Run(size, steps).channels ==> !Busy(c)
    ensures var b := Run(size, steps);
            Count(b.total, device) - Count(b.failed, device) ==
            TallyAll(b.channels, device, {Sent}) + TallyAll(b.channels, device, {Rejected})
  {
    var b := Run(size, steps);
    RunsKeepOrder(size, steps);
    RunsKeepCounters(size, steps, device);
    TallyAllSplits(b.channels, device);
    forall i | 0 <= i < |b.channels| ensures InOrder(b.channels[i], size) && !Busy(b.channels[i]) {
      assert b.channels[i] in b.channels;
    }
    NoneOpenAtRest(b.channels, device, size);
  }
}
