/** At-least-once handoff delivery: a receiver with a bounded deduplication window and the
    coordinator whose records and participant states it guards. */
module Handoff {
  import opened Wrappers
  import opened Json
  import Sorting

  datatype MessageType = Prepare | Commit | Abort | StateTransfer | Ack | Nack | Heartbeat

  datatype Status = Pending | Preparing | Committed | Aborted | FailedHandoff

  datatype Message = Message(
    messageId: string,
    handoffId: string,
    senderNodeId: string,
    receiverNodeId: string,
    messageType: MessageType,
    stepIndex: int,
    statePayload: Json,
    provenanceRef: string)

  datatype Record = Record(senderNodeId: string, receiverNodeId: string, status: Status, completedAt: Option<real>)

  /** A message and the clock reading when it is received. */
  datatype Arrival = Arrival(message: Message, at: real)

  // ----- The effect of processed messages -----

  datatype Core = Core(records: map<string, Record>, participants: map<string, Json>)

  /** What a fresh message leaves of the participant states: a transfer stores its payload, an abort
      forgets the handoff, a commit changes nothing. */
  ghost predicate ParticipantsMoved(before: map<string, Json>, m: Message, after: map<string, Json>) {
    && (m.messageType == StateTransfer ==> after == before[m.handoffId := m.statePayload])
    && (m.messageType == Abort ==> after == before - {m.handoffId})
    && (m.messageType == Commit ==> after == before)
  }

  /** What it leaves of the records: the status of its own handoff, and for a commit or a transfer
      the time of completion; every other record, and both node identifiers, are as they were. */
  ghost predicate RecordsMoved(before: map<string, Record>, m: Message, now: real, after: map<string, Record>) {
    && after.Keys == before.Keys
    && (forall h | h in before && h != m.handoffId :: after[h] == before[h])
    && (m.handoffId in before ==>
          var was, result := before[m.handoffId], after[m.handoffId];
          && result.senderNodeId == was.senderNodeId && result.receiverNodeId == was.receiverNodeId
          && (m.messageType == Abort ==> result.status == Aborted && result.completedAt == was.completedAt)
          && (m.messageType == StateTransfer || m.messageType == Commit ==>
                result.status == Committed && result.completedAt == Some(now)))
  }

  predicate Recordable(m: Message) {
    m.messageType == StateTransfer || m.messageType == Commit || m.messageType == Abort
  }

  function UpdateRecord(
    records: map<string, Record>, handoffId: string, status: Status, now: real): map<string, Record>
  {
    if handoffId !in records then records
    else
      var r := records[handoffId].(status := status);
      records[handoffId := if status == Committed then r.(completedAt := Some(now)) else r]
  }

  function Apply(c: Core, a: Arrival): Core {
    var m := a.message;
    match m.messageType
    case StateTransfer => Core(UpdateRecord(c.records, m.handoffId, Committed, a.at),
        c.participants[m.handoffId := m.statePayload])
    case Commit => c.(records := UpdateRecord(c.records, m.handoffId, Committed, a.at))
    case Abort => Core(UpdateRecord(c.records, m.handoffId, Aborted, a.at), c.participants - {m.handoffId})
    case _ => c
  }

  datatype Step =
    | Initiate(handoffId: string, sender: string, receiver: string, payload: Json)
    | Process(arrival: Arrival)

  function Perform(c: Core, s: Step): Core {
    match s
    case Initiate(id, sender, receiver, payload) =>
      Core(c.records[id := Record(sender, receiver, Pending, None)], c.participants[id := payload])
    case Process(a) => Apply(c, a)
  }

  function Replay(steps: seq<Step>): Core {
    if steps == [] then Core(map[], map[])
    else Perform(Replay(steps[..|steps| - 1]), steps[|steps| - 1])
  }

  // ----- Deduplication -----

  function LastOf<T>(s: seq<T>, n: int): seq<T> {
    if n <= 0 then [] else if |s| <= n then s else s[|s| - n..]
  }

  function Ids(log: seq<Arrival>): (r: seq<string>)
    ensures |r| == |log|
  {
    seq(|log|, i requires 0 <= i < |log| => log[i].message.messageId)
  }

  /** What a receiver with the given window processes out of a series of arrivals. */
  ghost function Processed(window: int, arrivals: seq<Arrival>): seq<Arrival> {
    if arrivals == [] then []
    else
      var before, a := Processed(window, arrivals[..|arrivals| - 1]), arrivals[|arrivals| - 1];
      if Recordable(a.message) && a.message.messageId !in LastOf(Ids(before), window) then before + [a] else before
  }

  /** The first recordable occurrence of every message identifier. */
  ghost function FirstOccurrences(arrivals: seq<Arrival>): seq<Arrival> {
    if arrivals == [] then []
    else
      var before, a := FirstOccurrences(arrivals[..|arrivals| - 1]), arrivals[|arrivals| - 1];
      if Recordable(a.message) && a.message.messageId !in Ids(before) then before + [a] else before
  }

  /** Every repeat comes before `window` other identifiers have been seen for the first time. */
  ghost predicate RepeatsInWindow(window: int, arrivals: seq<Arrival>) {
    forall i | 0 <= i < |arrivals| :: RepeatInWindow(window, arrivals, i)
  }

  ghost predicate RepeatInWindow(window: int, arrivals: seq<Arrival>, i: int)
    requires 0 <= i < |arrivals|
  {
    var seen, id := Ids(FirstOccurrences(arrivals[..i])), arrivals[i].message.messageId;
    Recordable(arrivals[i].message) && id in seen ==> id in LastOf(seen, window)
  }

  lemma LastOfIncluded(s: seq<string>, n: int, x: string)
    requires x in LastOf(s, n)
    ensures x in s
  {
  }

  lemma {:induction false} RepeatsInWindowSuffice(window: int, arrivals: seq<Arrival>)
    requires RepeatsInWindow(window, arrivals)
    ensures Processed(window, arrivals) == FirstOccurrences(arrivals)
  {
    if arrivals != [] {
      var last := |arrivals| - 1;
      var front := arrivals[..last];
      forall i | 0 <= i < |front| ensures RepeatInWindow(window, front, i) {
        assert RepeatInWindow(window, arrivals, i);
        assert front[..i] == arrivals[..i];
      }
      RepeatsInWindowSuffice(window, front);
      assert RepeatInWindow(window, arrivals, last);
    }
  }

  lemma {:induction false} FirstOccurrencesDistinct(arrivals: seq<Arrival>)
    ensures Sorting.NoDuplicates(Ids(FirstOccurrences(arrivals)))
  {
    if arrivals != [] {
      var front, a := arrivals[..|arrivals| - 1], arrivals[|arrivals| - 1];
      FirstOccurrencesDistinct(front);
      var f := FirstOccurrences(front);
      assert Ids(f + [a]) == Ids(f) + [a.message.messageId];
    }
  }

  lemma {:induction false} ProcessedGrows(window: int, arrivals: seq<Arrival>, i: nat)
    requires i <= |arrivals|
    ensures Processed(window, arrivals[..i]) <= Processed(window, arrivals)
    decreases |arrivals|
  {
    if i < |arrivals| {
      var front := arrivals[..|arrivals| - 1];
      assert front[..i] == arrivals[..i];
      ProcessedGrows(window, front, i);
    } else {
      assert arrivals[..i] == arrivals;
    }
  }

  /** One repeat outside the window is processed again. */
  lemma LateRepeatIsReprocessed(window: int, arrivals: seq<Arrival>, i: nat)
    requires i < |arrivals| && !RepeatInWindow(window, arrivals, i)
    requires forall k | 0 <= k < i :: RepeatInWindow(window, arrivals, k)
    ensures Processed(window, arrivals) != FirstOccurrences(arrivals)
  {
    var front, a := arrivals[..i], arrivals[i];
    forall k | 0 <= k < |front| ensures RepeatInWindow(window, front, k) {
      assert RepeatInWindow(window, arrivals, k);
      assert front[..k] == arrivals[..k];
    }
    RepeatsInWindowSuffice(window, front);
    assert arrivals[..i + 1][..i] == front;
    var log := Processed(window, front);
    assert Processed(window, arrivals[..i + 1]) == log + [a];
    ProcessedGrows(window, arrivals, i + 1);
    var all := Processed(window, arrivals);
    var k :| 0 <= k < |log| && Ids(log)[k] == a.message.messageId;
    assert Ids(all)[k] == Ids(all)[|log|];
    FirstOccurrencesDistinct(arrivals);
  }

  /** Redelivery is harmless exactly when every repeat falls inside the window. */
  lemma ExactlyOnceIffRepeatsInWindow(window: int, arrivals: seq<Arrival>)
    ensures Processed(window, arrivals) == FirstOccurrences(arrivals) <==> RepeatsInWindow(window, arrivals)
  {
    if RepeatsInWindow(window, arrivals) {
      RepeatsInWindowSuffice(window, arrivals);
    } else {
      var i := FirstLateRepeat(window, arrivals, |arrivals|);
      LateRepeatIsReprocessed(window, arrivals, i);
    }
  }

  lemma {:induction false} FirstLateRepeat(window: int, arrivals: seq<Arrival>, n: nat) returns (i: nat)
    requires n <= |arrivals| && exists k :: 0 <= k < n && !RepeatInWindow(window, arrivals, k)
    ensures i < n && !RepeatInWindow(window, arrivals, i)
    ensures forall k | 0 <= k < i :: RepeatInWindow(window, arrivals, k)
  {
    if exists k :: 0 <= k < n - 1 && !RepeatInWindow(window, arrivals, k) {
      i := FirstLateRepeat(window, arrivals, n - 1);
    } else {
      i := n - 1;
    }
  }

  // ----- What reaches the coordinator, and what it applies -----

  /** The messages of a trace, in order. */
  function Arrivals(steps: seq<Step>): seq<Arrival> {
    if steps == [] then []
    else
      var last := steps[|steps| - 1];
      Arrivals(steps[..|steps| - 1]) + (if last.Process? then [last.arrival] else [])
  }

  /** The part of a trace that a coordinator behind a receiver with the given window applies. */
  ghost function Delivered(window: int, trace: seq<Step>): seq<Step> {
    if trace == [] then []
    else
      var before, last := Delivered(window, trace[..|trace| - 1]), trace[|trace| - 1];
      if last.Process? && !Fresh(last.arrival, LastOf(Ids(Arrivals(before)), window)) then before else before + [last]
  }

  /** The part of a trace in which only the first occurrence of every message is applied. */
  ghost function DeliveredOnce(trace: seq<Step>): seq<Step> {
    if trace == [] then []
    else
      var before, last := DeliveredOnce(trace[..|trace| - 1]), trace[|trace| - 1];
      if last.Process? && !Fresh(last.arrival, Ids(Arrivals(before))) then before else before + [last]
  }

  predicate Fresh(a: Arrival, seen: seq<string>) { Recordable(a.message) && a.message.messageId !in seen }

  lemma ArrivalsAppend(steps: seq<Step>, s: Step)
    ensures Arrivals(steps + [s]) == Arrivals(steps) + (if s.Process? then [s.arrival] else [])
  {
    assert (steps + [s])[..|steps|] == steps;
  }

  lemma DeliveredStep(window: int, trace: seq<Step>, s: Step)
    ensures var before := Delivered(window, trace);
            Delivered(window, trace + [s])
            == if s.Process? && !Fresh(s.arrival, LastOf(Ids(Arrivals(before)), window)) then before else before + [s]
  {
    assert (trace + [s])[..|trace|] == trace;
  }

  lemma DeliveredOnceStep(trace: seq<Step>, s: Step)
    ensures var before := DeliveredOnce(trace);
            DeliveredOnce(trace + [s])
            == if s.Process? && !Fresh(s.arrival, Ids(Arrivals(before))) then before else before + [s]
  {
    assert (trace + [s])[..|trace|] == trace;
  }

  lemma ReplayStep(steps: seq<Step>, s: Step)
    ensures Replay(steps + [s]) == Perform(Replay(steps), s)
  {
    assert (steps + [s])[..|steps|] == steps;
  }

  lemma ProcessedStep(window: int, arrivals: seq<Arrival>, a: Arrival)
    ensures var before := Processed(window, arrivals);
            Processed(window, arrivals + [a]) == if Fresh(a, LastOf(Ids(before), window)) then before + [a] else before
    ensures var before := FirstOccurrences(arrivals);
            FirstOccurrences(arrivals + [a]) == if Fresh(a, Ids(before)) then before + [a] else before
  {
    assert (arrivals + [a])[..|arrivals|] == arrivals;
  }

  lemma {:induction false} DeliveredIsProcessed(window: int, trace: seq<Step>)
    ensures Arrivals(Delivered(window, trace)) == Processed(window, Arrivals(trace))
    ensures Arrivals(DeliveredOnce(trace)) == FirstOccurrences(Arrivals(trace))
  {
    if trace != [] {
      var front, last := trace[..|trace| - 1], trace[|trace| - 1];
      assert trace == front + [last];
      hide *;
      DeliveredIsProcessed(window, front);
      ArrivalsAppend(front, last);
      DeliveredStep(window, front, last);
      DeliveredOnceStep(front, last);
      ArrivalsAppend(Delivered(window, front), last);
      ArrivalsAppend(DeliveredOnce(front), last);
      if last.Process? {
        ProcessedStep(window, Arrivals(front), last.arrival);
      } else {
        assert Arrivals(front) + [] == Arrivals(front);
        assert Arrivals(Delivered(window, front)) + [] == Arrivals(Delivered(window, front));
        assert Arrivals(DeliveredOnce(front)) + [] == Arrivals(DeliveredOnce(front));
      }
    }
  }

  /** A coordinator applies exactly the first occurrences if and only if every repeat falls
      inside the window. */
  lemma {:induction false} DeliveredOnceIff(window: int, trace: seq<Step>)
    ensures Delivered(window, trace) == DeliveredOnce(trace) <==> RepeatsInWindow(window, Arrivals(trace))
  {
    DeliveredIsProcessed(window, trace);
    ExactlyOnceIffRepeatsInWindow(window, Arrivals(trace));
    if RepeatsInWindow(window, Arrivals(trace)) { RepeatsDeliveredOnce(window, trace); }
  }

  lemma {:induction false} RepeatsDeliveredOnce(window: int, trace: seq<Step>)
    requires RepeatsInWindow(window, Arrivals(trace))
    ensures Delivered(window, trace) == DeliveredOnce(trace)
  {
    if trace != [] {
      var front, last := trace[..|trace| - 1], trace[|trace| - 1];
      var all, some := Arrivals(trace), Arrivals(front);
      assert all == some + (if last.Process? then [last.arrival] else []);
      RepeatsPrefix(window, all, some);
      RepeatsDeliveredOnce(window, front);
      DeliveredIsProcessed(window, front);
      if last.Process? {
        assert RepeatInWindow(window, all, |some|);
        assert all[..|some|] == some;
        var seen := Ids(FirstOccurrences(some));
        if last.arrival.message.messageId in LastOf(seen, window) {
          LastOfIncluded(seen, window, last.arrival.message.messageId);
        }
      }
    }
  }

  lemma RepeatsPrefix(window: int, all: seq<Arrival>, some: seq<Arrival>)
    requires some <= all && RepeatsInWindow(window, all)
    ensures RepeatsInWindow(window, some)
  {
    forall i | 0 <= i < |some| ensures RepeatInWindow(window, some, i) {
      assert RepeatInWindow(window, all, i);
      assert all[..i] == some[..i];
    }
  }

  // ----- What the state holds, read off the applied steps -----

  predicate Concerns(s: Step, h: string) {
    match s
    case Initiate(id, _, _, _) => id == h
    case Process(a) => a.message.handoffId == h && Recordable(a.message)
  }

  /** The step hands over a state for h: an initiation or a transfer. */
  predicate HandsOver(s: Step, h: string) {
    Concerns(s, h) && (s.Process? ==> s.arrival.message.messageType == StateTransfer)
  }

  predicate Aborts(s: Step, h: string) {
    Concerns(s, h) && s.Process? && s.arrival.message.messageType == Abort
  }

  function PayloadOf(s: Step): Json {
    match s
    case Initiate(_, _, _, payload) => payload
    case Process(a) => a.message.statePayload
  }

  /** Step i is the last one that hands over a state for h or aborts it. */
  ghost predicate LastWord(steps: seq<Step>, h: string, i: int) {
    && 0 <= i < |steps| && (HandsOver(steps[i], h) || Aborts(steps[i], h))
    && forall j | i < j < |steps| :: !HandsOver(steps[j], h) && !Aborts(steps[j], h)
  }

  /** A handoff holds the payload of its last applied initiation or transfer, and nothing exactly
      when there was none or an abort came after it. */
  lemma {:induction false} StateIsLastPayload(steps: seq<Step>, h: string)
    ensures h in Replay(steps).participants <==> exists i :: LastWord(steps, h, i) && HandsOver(steps[i], h)
    ensures forall i | LastWord(steps, h, i) && HandsOver(steps[i], h) ::
              h in Replay(steps).participants && Replay(steps).participants[h] == PayloadOf(steps[i])
  {
    if steps != [] {
      var front, last := steps[..|steps| - 1], steps[|steps| - 1];
      StateIsLastPayload(front, h);
      ParticipantAfter(Replay(front), last, h);
      assert steps == front + [last];
      LastWordMoves(front, last, h);
      hide LastWord;
      hide HandsOver;
      hide Aborts;
      hide Perform;
      if HandsOver(last, h) { assert LastWord(steps, h, |front|); }
    }
  }

  lemma LastWordMoves(front: seq<Step>, last: Step, h: string)
    ensures if HandsOver(last, h) || Aborts(last, h)
            then forall i :: LastWord(front + [last], h, i) <==> i == |front|
            else forall i :: LastWord(front + [last], h, i) <==> LastWord(front, h, i)
    ensures forall i | LastWord(front, h, i) :: 0 <= i < |front| && (front + [last])[i] == front[i]
  {
    var all := front + [last];
    hide HandsOver;
    hide Aborts;
    assert all[|front|] == last && forall j | 0 <= j < |front| :: all[j] == front[j];
    if !HandsOver(last, h) && !Aborts(last, h) {
      forall i ensures LastWord(all, h, i) <==> LastWord(front, h, i) {
        if LastWord(all, h, i) {
          assert i != |front|;
          forall j | i < j < |front| ensures !HandsOver(front[j], h) && !Aborts(front[j], h) {
            assert !HandsOver(all[j], h) && !Aborts(all[j], h);
          }
        }
      }
    } else {
      assert LastWord(all, h, |front|);
    }
  }

  lemma ParticipantAfter(c: Core, s: Step, h: string)
    ensures HandsOver(s, h) ==> h in Perform(c, s).participants && Perform(c, s).participants[h] == PayloadOf(s)
    ensures Aborts(s, h) ==> h !in Perform(c, s).participants
    ensures !HandsOver(s, h) && !Aborts(s, h) ==>
              && (h in Perform(c, s).participants <==> h in c.participants)
              && (h in c.participants ==> Perform(c, s).participants[h] == c.participants[h])
  {
  }

  /** The status a step leaves on its handoff. */
  predicate LeavesStatus(s: Step, status: Status) {
    match s
    case Initiate(_, _, _, _) => status == Pending
    case Process(a) =>
      match a.message.messageType
      case StateTransfer => status == Committed
      case Commit => status == Committed
      case Abort => status == Aborted
      case _ => false
  }

  ghost predicate LastConcern(steps: seq<Step>, h: string, i: int) {
    0 <= i < |steps| && Concerns(steps[i], h) && forall j | i < j < |steps| :: !Concerns(steps[j], h)
  }

  /** A handoff has a record exactly when it was initiated, and its status is the one left by the
      last step that concerns it. */
  lemma {:induction false} StatusIsLastStep(steps: seq<Step>, h: string)
    ensures h in Replay(steps).records <==> exists s :: s in steps && s.Initiate? && s.handoffId == h
    ensures forall i | LastConcern(steps, h, i) ::
              h in Replay(steps).records ==> LeavesStatus(steps[i], Replay(steps).records[h].status)
  {
    if steps != [] {
      var front, last := steps[..|steps| - 1], steps[|steps| - 1];
      assert steps == front + [last];
      StatusIsLastStep(front, h);
      RecordAfter(Replay(front), last, h);
      forall i | LastConcern(steps, h, i)
        ensures h in Replay(steps).records ==> LeavesStatus(steps[i], Replay(steps).records[h].status)
      {
        if i < |front| {
          assert !Concerns(steps[|front|], h);
          forall j | i < j < |front| ensures !Concerns(front[j], h) { assert !Concerns(steps[j], h); }
          assert LastConcern(front, h, i);
        }
      }
      hide LeavesStatus;
      hide Perform;
      hide Concerns;
    }
  }

  lemma RecordAfter(c: Core, s: Step, h: string)
    ensures var d := Perform(c, s);
            && (h in d.records <==> h in c.records || (s.Initiate? && s.handoffId == h))
            && (!Concerns(s, h) && h in c.records ==> d.records[h] == c.records[h])
            && (Concerns(s, h) && h in d.records ==> LeavesStatus(s, d.records[h].status))
  {
  }

  // ----- Safety of the records -----

  /** An aborted handoff holds no participant state. */
  ghost predicate AbortedHoldsNothing(c: Core) {
    forall h | h in c.records && c.records[h].status == Aborted :: h !in c.participants
  }

  /** In every reachable state an aborted handoff holds no participant state. */
  lemma {:induction false} AbortedHoldsNothingAlways(steps: seq<Step>)
    ensures AbortedHoldsNothing(Replay(steps))
  {
    if steps != [] {
      AbortedHoldsNothingAlways(steps[..|steps| - 1]);
    }
  }

  /** A committed handoff holds the transferred state. */
  ghost predicate CommittedHolds(c: Core) {
    forall h | h in c.records && c.records[h].status == Committed :: h in c.participants
  }

  /** Only a COMMIT for a known handoff without participant state breaks "committed handoffs
      hold the transferred state". */
  lemma CommittedHoldsIff(c: Core, s: Step)
    requires CommittedHolds(c)
    ensures CommittedHolds(Perform(c, s)) <==>
              !(&& s.Process? && s.arrival.message.messageType == Commit
                && s.arrival.message.handoffId in c.records
                && s.arrival.message.handoffId !in c.participants)
  {
    var d := Perform(c, s);
    if s.Process? && s.arrival.message.messageType == Commit && s.arrival.message.handoffId in c.records {
      var h := s.arrival.message.handoffId;
      assert d.records[h].status == Committed;
    }
  }

  /** A COMMIT after an ABORT is such a step: three different messages, all of them applied
      whatever the window, leave the flag without the state. */
  lemma CommitAfterAbort(window: int, a: Arrival, b: Arrival, c: Arrival, payload: Json)
    requires a.message.messageType == StateTransfer && b.message.messageType == Abort && c.message.messageType == Commit
    requires a.message.handoffId == b.message.handoffId == c.message.handoffId
    requires a.message.messageId != b.message.messageId && b.message.messageId != c.message.messageId
    requires a.message.messageId != c.message.messageId
    ensures var h := a.message.handoffId;
            var trace := [Initiate(h, "A", "B", payload), Process(a), Process(b), Process(c)];
            Delivered(window, trace) == trace && !CommittedHolds(Replay(Delivered(window, trace)))
  {
    TransferThenAbort(window, a, b, payload);
    var h, s2 := a.message.handoffId, [Initiate(a.message.handoffId, "A", "B", payload), Process(a), Process(b)];
    DeliveredStep(window, s2, Process(c));
    ReplayStep(s2, Process(c));
    assert s2 + [Process(c)] == [Initiate(h, "A", "B", payload), Process(a), Process(b), Process(c)];
    NotAmong(window, a, b, c);
    var committed := Perform(Replay(s2), Process(c));
    assert committed.records[h].status == Committed && h !in committed.participants;
    hide *;
    assert !CommittedHolds(committed) by { Uncommitted(committed, h); }
  }

  lemma Uncommitted(c: Core, h: string)
    requires h in c.records && c.records[h].status == Committed && h !in c.participants
    ensures !CommittedHolds(c)
  {
  }

  lemma NotAmong(window: int, a: Arrival, b: Arrival, c: Arrival)
    requires c.message.messageId != a.message.messageId && c.message.messageId != b.message.messageId
    ensures Ids([a, b]) == [a.message.messageId, b.message.messageId]
    ensures c.message.messageId !in Ids([a, b]) && c.message.messageId !in LastOf(Ids([a, b]), window)
  {
    if c.message.messageId in LastOf(Ids([a, b]), window) {
      LastOfIncluded(Ids([a, b]), window, c.message.messageId);
    }
  }

  /** A transfer and an abort, as two different messages, are both applied whatever the window. */
  lemma TransferThenAbort(window: int, a: Arrival, b: Arrival, payload: Json)
    requires a.message.messageType == StateTransfer && b.message.messageType == Abort
    requires a.message.handoffId == b.message.handoffId && a.message.messageId != b.message.messageId
    ensures var h := a.message.handoffId;
            var trace := [Initiate(h, "A", "B", payload), Process(a), Process(b)];
            && Delivered(window, trace) == trace && DeliveredOnce(trace) == trace && Arrivals(trace) == [a, b]
            && h in Replay(trace).records && Replay(trace).records[h].status == Aborted
            && h !in Replay(trace).participants
  {
    var s0 := [Initiate(a.message.handoffId, "A", "B", payload)];
    var s1 := s0 + [Process(a)];
    assert s1 + [Process(b)] == [Initiate(a.message.handoffId, "A", "B", payload), Process(a), Process(b)];
    assert Delivered(window, s0) == s0 && DeliveredOnce(s0) == s0 && Arrivals(s0) == [];
    assert Ids([]) == [] && Ids([a]) == [a.message.messageId];
    assert Replay(s0) == Perform(Replay([]), s0[0]);
    assert Recordable(a.message) && Recordable(b.message);
    AbortEnds(a, b, payload);
    hide *;
    FreshIsApplied(window, s0, a);
    FreshIsApplied(window, s1, b);
  }

  lemma FreshIsApplied(window: int, trace: seq<Step>, a: Arrival)
    requires Delivered(window, trace) == trace && DeliveredOnce(trace) == trace
    requires Recordable(a.message) && a.message.messageId !in Ids(Arrivals(trace))
    ensures Delivered(window, trace + [Process(a)]) == trace + [Process(a)]
    ensures DeliveredOnce(trace + [Process(a)]) == trace + [Process(a)]
    ensures Arrivals(trace + [Process(a)]) == Arrivals(trace) + [a]
    ensures Replay(trace + [Process(a)]) == Perform(Replay(trace), Process(a))
  {
    ArrivalsAppend(trace, Process(a));
    DeliveredStep(window, trace, Process(a));
    DeliveredOnceStep(trace, Process(a));
    ReplayStep(trace, Process(a));
    var seen := Ids(Arrivals(trace));
    if a.message.messageId in LastOf(seen, window) { LastOfIncluded(seen, window, a.message.messageId); }
    hide LastOf;
  }

  lemma AbortEnds(a: Arrival, b: Arrival, payload: Json)
    requires a.message.messageType == StateTransfer && b.message.messageType == Abort
    requires a.message.handoffId == b.message.handoffId
    ensures var h := a.message.handoffId;
            var end := Perform(Perform(Perform(Replay([]), Initiate(h, "A", "B", payload)), Process(a)), Process(b));
            h in end.records && end.records[h].status == Aborted && h !in end.participants
  {
  }

  ghost predicate InState(c: Core, h: string, status: Status, present: bool) {
    h in c.records && c.records[h].status == status && (h in c.participants <==> present)
  }

  /** Outside the window the state itself can go wrong: with room for one identifier, a repeated
      transfer after an abort brings the aborted handoff back. */
  lemma LateRepeatResurrects(a: Arrival, b: Arrival, payload: Json)
    requires a.message.messageType == StateTransfer && b.message.messageType == Abort
    requires a.message.handoffId == b.message.handoffId && a.message.messageId != b.message.messageId
    ensures var h := a.message.handoffId;
            var trace := [Initiate(h, "A", "B", payload), Process(a), Process(b)] + [Process(a)];
            && InState(Replay(Delivered(1, trace)), h, Committed, true)
            && InState(Replay(DeliveredOnce(trace)), h, Aborted, false)
  {
    TransferThenAbort(1, a, b, payload);
    hide *;
    var trace := [Initiate(a.message.handoffId, "A", "B", payload), Process(a), Process(b)];
    InStateAfter(Replay(trace), a.message.handoffId);
    LateTransfer(trace, a, b);
  }

  lemma InStateAfter(c: Core, h: string)
    requires h in c.records && c.records[h].status == Aborted && h !in c.participants
    ensures InState(c, h, Aborted, false)
  {
  }

  lemma LateTransfer(trace: seq<Step>, a: Arrival, b: Arrival)
    requires Delivered(1, trace) == trace && DeliveredOnce(trace) == trace && Arrivals(trace) == [a, b]
    requires a.message.messageType == StateTransfer && a.message.messageId != b.message.messageId
    requires InState(Replay(trace), a.message.handoffId, Aborted, false)
    ensures InState(Replay(Delivered(1, trace + [Process(a)])), a.message.handoffId, Committed, true)
    ensures InState(Replay(DeliveredOnce(trace + [Process(a)])), a.message.handoffId, Aborted, false)
  {
    DeliveredStep(1, trace, Process(a));
    DeliveredOnceStep(trace, Process(a));
    ReplayStep(trace, Process(a));
    assert Ids([a, b]) == [a.message.messageId, b.message.messageId];
    hide Delivered;
    hide DeliveredOnce;
    hide Arrivals;
    hide Replay;
  }

  // ----- The receiver -----

  datatype Outcome = Accepted | CommittedOutcome | AbortedOutcome

  datatype Entry = Entry(id: string, result: Outcome, timestamp: real)

  predicate EntryLeq(a: Entry, b: Entry) { a.timestamp <= b.timestamp }

  function EntryIds(history: seq<Entry>): (r: seq<string>)
    ensures |r| == |history|
  {
    seq(|history|, i requires 0 <= i < |history| => history[i].id)
  }

  function WithoutEntry(history: seq<Entry>, id: string): seq<Entry> {
    if history == [] then []
    else (if history[0].id == id then [] else [history[0]]) + WithoutEntry(history[1..], id)
  }

  /** Removes the entry with the smallest timestamp, the earliest recorded among equals. */
  function Evict(history: seq<Entry>): seq<Entry>
    requires history != []
  {
    Sorting.SameElements(history, Sorting.Sort(history, EntryLeq));
    WithoutEntry(history, Sorting.Sort(history, EntryLeq)[0].id)
  }

  lemma DistinctHead(history: seq<Entry>)
    requires history != [] && Sorting.NoDuplicates(EntryIds(history))
    ensures EntryIds(history[1..]) == EntryIds(history)[1..]
    ensures EntryIds(history) == [history[0].id] + EntryIds(history[1..])
    ensures Sorting.NoDuplicates(EntryIds(history[1..]))
    ensures history[0].id !in EntryIds(history[1..])
  {
    assert EntryIds(history[1..]) == EntryIds(history)[1..];
    Sorting.NoDuplicatesTail(EntryIds(history));
  }

  lemma {:induction false} WithoutAbsent(history: seq<Entry>, id: string)
    requires id !in EntryIds(history)
    ensures WithoutEntry(history, id) == history
  {
    if history != [] {
      assert history[0].id == EntryIds(history)[0];
      assert EntryIds(history)[1..] == EntryIds(history[1..]);
      WithoutAbsent(history[1..], id);
    }
  }

  lemma {:induction false} WithoutEntryIds(history: seq<Entry>, id: string)
    requires Sorting.NoDuplicates(EntryIds(history)) && id in EntryIds(history)
    ensures var w := WithoutEntry(history, id);
            && Sorting.NoDuplicates(EntryIds(w))
            && |w| == |history| - 1
            && forall x :: x in EntryIds(w) <==> x in EntryIds(history) && x != id
  {
    DistinctHead(history);
    var rest := history[1..];
    if history[0].id == id {
      WithoutAbsent(rest, id);
      assert [] + rest == rest;
    } else {
      WithoutEntryIds(rest, id);
      var w := WithoutEntry(rest, id);
      assert EntryIds([history[0]] + w) == [history[0].id] + EntryIds(w);
    }
  }

  lemma EvictKeepsDistinct(history: seq<Entry>)
    requires history != [] && Sorting.NoDuplicates(EntryIds(history))
    ensures var oldest := Sorting.Sort(history, EntryLeq)[0].id;
            && oldest in EntryIds(history)
            && Sorting.NoDuplicates(EntryIds(Evict(history)))
            && |Evict(history)| == |history| - 1
            && forall x :: x in EntryIds(Evict(history)) <==> x in EntryIds(history) && x != oldest
  {
    var sorted := Sorting.Sort(history, EntryLeq);
    Sorting.SameElements(history, sorted);
    assert sorted[0] in sorted;
    var k :| 0 <= k < |history| && history[k] == sorted[0];
    assert EntryIds(history)[k] == sorted[0].id;
    WithoutEntryIds(history, sorted[0].id);
  }

  /** With timestamps in order, the evicted entry is the first one. */
  lemma EvictInOrder(history: seq<Entry>)
    requires history != [] && Sorting.SortedBy(history, EntryLeq)
    requires Sorting.NoDuplicates(EntryIds(history))
    ensures Evict(history) == history[1..]
  {
    Sorting.SortOfSorted(history, EntryLeq);
    DistinctHead(history);
    WithoutAbsent(history[1..], history[0].id);
    assert [] + history[1..] == history[1..];
  }

  /** The history is the last `window` recorded identifiers, oldest first. */
  ghost predicate HoldsWindow(history: seq<Entry>, recorded: seq<string>, window: int) {
    EntryIds(history) == LastOf(recorded, window) && Sorting.SortedBy(history, EntryLeq)
  }

  ghost predicate AllBefore(history: seq<Entry>, now: real) {
    forall e | e in history :: e.timestamp <= now
  }

  lemma AppendInOrder(history: seq<Entry>, e: Entry)
    requires Sorting.SortedBy(history, EntryLeq) && AllBefore(history, e.timestamp)
    ensures Sorting.SortedBy(history + [e], EntryLeq) && AllBefore(history + [e], e.timestamp)
  {
  }

  /** Recording in clock order slides the window by one. */
  lemma WindowSlides(history: seq<Entry>, e: Entry, recorded: seq<string>, window: int)
    requires HoldsWindow(history, recorded, window) && AllBefore(history, e.timestamp)
    requires Sorting.NoDuplicates(EntryIds(history)) && e.id !in EntryIds(history)
    ensures var grown := history + [e];
            var slid := if |grown| > window then Evict(grown) else grown;
            HoldsWindow(slid, recorded + [e.id], window) && AllBefore(slid, e.timestamp)
  {
    AppendDistinct(history, e);
    AppendInOrder(history, e);
    WindowIdentifiers(history, e, recorded, window);
    EvictInOrder(history + [e]);
    TailInOrder(history + [e], e.timestamp);
    hide Evict;
    hide EntryIds;
    hide LastOf;
    hide AllBefore;
    hide Sorting.SortedBy;
    hide Sorting.NoDuplicates;
  }

  lemma TailInOrder(history: seq<Entry>, now: real)
    requires history != [] && Sorting.SortedBy(history, EntryLeq) && AllBefore(history, now)
    ensures Sorting.SortedBy(history[1..], EntryLeq) && AllBefore(history[1..], now)
  {
  }

  lemma WindowIdentifiers(history: seq<Entry>, e: Entry, recorded: seq<string>, window: int)
    requires EntryIds(history) == LastOf(recorded, window)
    requires Sorting.SortedBy(history + [e], EntryLeq) && Sorting.NoDuplicates(EntryIds(history + [e]))
    requires EntryIds(history + [e]) == EntryIds(history) + [e.id]
    ensures EntryIds(if |history + [e]| > window then Evict(history + [e]) else history + [e])
            == LastOf(recorded + [e.id], window)
  {
    var grown := history + [e];
    LastOfSlides(recorded, e.id, window);
    EvictInOrder(grown);
    DistinctHead(grown);
    hide *;
    assert |EntryIds(history)| == |history|;
  }

  lemma AppendDistinct(history: seq<Entry>, e: Entry)
    requires Sorting.NoDuplicates(EntryIds(history)) && e.id !in EntryIds(history)
    ensures Sorting.NoDuplicates(EntryIds(history + [e]))
    ensures EntryIds(history + [e]) == EntryIds(history) + [e.id]
    ensures forall x :: x in EntryIds(history + [e]) <==> x in EntryIds(history) || x == e.id
  {
    assert EntryIds(history + [e]) == EntryIds(history) + [e.id];
  }

  lemma LastOfSlides(s: seq<string>, x: string, n: int)
    ensures LastOf(s + [x], n)
            == if |LastOf(s, n)| + 1 > n then (LastOf(s, n) + [x])[1..] else LastOf(s, n) + [x]
  {
  }

  /** The seen set holds exactly the identifiers of the history. */
  ghost predicate SeenMatches(seenIds: set<string>, history: seq<Entry>) {
    && Sorting.NoDuplicates(EntryIds(history))
    && (forall x :: x in seenIds <==> x in EntryIds(history))
    && |seenIds| == |history|
  }

  lemma SeenGrows(seenIds: set<string>, history: seq<Entry>, e: Entry)
    requires SeenMatches(seenIds, history) && e.id !in seenIds
    ensures SeenMatches(seenIds + {e.id}, history + [e])
  {
    AppendDistinct(history, e);
  }

  lemma SeenShrinks(seenIds: set<string>, history: seq<Entry>)
    requires SeenMatches(seenIds, history) && history != []
    ensures |Sorting.Sort(history, EntryLeq)| > 0
    ensures SeenMatches(seenIds - {Sorting.Sort(history, EntryLeq)[0].id}, Evict(history))
  {
    EvictKeepsDistinct(history);
  }

  class IdempotentReceiver {
    const windowSize: int
    var seenIds: set<string>
    /** The message history, in insertion order. */
    var history: seq<Entry>
    /** Every identifier ever recorded, in order. */
    ghost var recorded: seq<string>

    ghost predicate Valid()
      reads this
    {
      SeenMatches(seenIds, history)
    }

    /** The seen identifiers are the last `windowSize` recorded ones, with timestamps in order. */
    ghost predicate WindowExact()
      reads this
    {
      Valid() && HoldsWindow(history, recorded, windowSize)
    }

    ghost predicate NotBefore(now: real)
      reads this
    {
      AllBefore(history, now)
    }

    constructor (windowSize: int)
      ensures Valid() && WindowExact() && recorded == [] && this.windowSize == windowSize
    {
      this.windowSize := windowSize;
      seenIds, history, recorded := {}, [], [];
    }

    predicate IsDuplicate(messageId: string)
      reads this
    {
      messageId in seenIds
    }

    method Record(message: Message, result: Outcome, now: real)
      requires Valid()
      modifies this
      ensures Valid()
      ensures old(IsDuplicate(message.messageId)) ==>
                seenIds == old(seenIds) && history == old(history) && recorded == old(recorded)
      ensures !old(IsDuplicate(message.messageId)) ==>
                && recorded == old(recorded) + [message.messageId]
                && var grown := old(history) + [Entry(message.messageId, result, now)];
                   history == if |grown| > windowSize then Evict(grown) else grown
      ensures old(WindowExact()) && old(NotBefore(now)) ==> WindowExact() && NotBefore(now)
    {
      if message.messageId in seenIds { return; }
      var entry := Entry(message.messageId, result, now);
      SeenGrows(seenIds, history, entry);
      if WindowExact() && NotBefore(now) { WindowSlides(history, entry, recorded, windowSize); }
      assert |seenIds + {message.messageId}| == |history + [entry]|;
      SeenShrinks(seenIds + {message.messageId}, history + [entry]);
      hide Evict;
      hide EntryIds;
      hide HoldsWindow;
      hide AllBefore;
      hide Sorting.Sort;
      hide SeenMatches;
      recorded := recorded + [message.messageId];
      seenIds := seenIds + {message.messageId};
      history := history + [entry];
      if |seenIds| > windowSize {
        seenIds := seenIds - {Sorting.Sort(history, EntryLeq)[0].id};
        history := Evict(history);
      }
    }

    /** A result is cached for exactly the duplicates. */
    function GetCachedResult(messageId: string): (r: Option<Outcome>)
      requires Valid()
      reads this
      ensures r.Some? <==> IsDuplicate(messageId)
    {
      Lookup(history, messageId)
    }
  }

  function Lookup(history: seq<Entry>, messageId: string): (r: Option<Outcome>)
    ensures r.Some? <==> messageId in EntryIds(history)
  {
    if history == [] then None
    else
      assert EntryIds(history) == [history[0].id] + EntryIds(history[1..]);
      if history[0].id == messageId then Some(history[0].result) else Lookup(history[1..], messageId)
  }

  lemma DuplicateIffInWindow(receiver: IdempotentReceiver, id: string)
    requires receiver.WindowExact()
    ensures receiver.IsDuplicate(id) <==> id in LastOf(receiver.recorded, receiver.windowSize)
  {
  }

  // ----- The coordinator -----

  /** The recorded identifiers are those of the applied messages, and the applied steps are what
      the window let through. */
  ghost predicate Synced(window: int, recorded: seq<string>, steps: seq<Step>, trace: seq<Step>) {
    recorded == Ids(Arrivals(steps)) && steps == Delivered(window, trace)
  }

  lemma ArrivalKeepsSynced(window: int, recorded: seq<string>, steps: seq<Step>, trace: seq<Step>, a: Arrival)
    requires Synced(window, recorded, steps, trace)
    ensures if Fresh(a, LastOf(recorded, window))
            then Synced(window, recorded + [a.message.messageId], steps + [Process(a)], trace + [Process(a)])
            else Synced(window, recorded, steps, trace + [Process(a)])
  {
    var applied := Arrivals(steps);
    assert Ids(applied + [a]) == Ids(applied) + [a.message.messageId];
    assert recorded == Ids(applied) && steps == Delivered(window, trace);
    ArrivalsAppend(steps, Process(a));
    DeliveredStep(window, trace, Process(a));
    var next := trace + [Process(a)];
    assert Fresh(a, LastOf(recorded, window)) ==> Delivered(window, next) == steps + [Process(a)];
    assert !Fresh(a, LastOf(recorded, window)) ==> Delivered(window, next) == steps;
    assert Arrivals(steps + [Process(a)]) == applied + [a];
    hide Arrivals;
    hide Delivered;
    hide Ids;
    hide LastOf;
    hide Fresh;
  }

  lemma AppliedMoves(c: Core, m: Message, now: real)
    requires Recordable(m)
    ensures ParticipantsMoved(c.participants, m, Apply(c, Arrival(m, now)).participants)
    ensures RecordsMoved(c.records, m, now, Apply(c, Arrival(m, now)).records)
  {
  }

  class DistributedCoordinator {
    const nodeId: string
    var records: map<string, Record>
    var participants: map<string, Json>
    /** Everything that reached the coordinator, duplicates included. */
    ghost var trace: seq<Step>
    /** What it applied of that. */
    ghost var steps: seq<Step>

    ghost predicate Valid()
      reads this
    {
      Core(records, participants) == Replay(steps)
    }

    /** The receiver has recorded exactly the messages this coordinator has applied, and the
        coordinator has applied exactly what the receiver's window let through. */
    ghost predicate InSync(receiver: IdempotentReceiver)
      reads this, receiver
    {
      receiver.WindowExact() && Synced(receiver.windowSize, receiver.recorded, steps, trace)
    }

    constructor (nodeId: string)
      ensures Valid() && steps == [] && trace == [] && records == map[] && participants == map[]
    {
      this.nodeId := nodeId;
      records, participants := map[], map[];
      steps, trace := [], [];
    }

    /** Fresh identifiers come from outside. */
    method InitiateHandoff(sender: string, receiver: string, payload: Json, provenance: string, stepIndex: int,
                           handoffId: string, messageId: string)
      returns (message: Message)
      requires Valid()
      modifies this
      ensures Valid()
      ensures var initiation := Initiate(handoffId, sender, receiver, payload);
              steps == old(steps) + [initiation] && trace == old(trace) + [initiation]
      ensures records == old(records)[handoffId := Record(sender, receiver, Pending, None)]
      ensures participants == old(participants)[handoffId := payload]
      ensures Arrivals(steps) == old(Arrivals(steps))
      ensures forall window | old(steps == Delivered(window, trace)) :: steps == Delivered(window, trace)
      ensures message == Message(messageId, handoffId, sender, receiver, StateTransfer, stepIndex, payload, provenance)
    {
      ghost var initiation := Initiate(handoffId, sender, receiver, payload);
      message := Message(messageId, handoffId, sender, receiver, StateTransfer, stepIndex, payload, provenance);
      forall window ensures Delivered(window, trace + [initiation]) == Delivered(window, trace) + [initiation] {
        DeliveredStep(window, trace, initiation);
      }
      ReplayStep(steps, initiation);
      ArrivalsAppend(steps, initiation);
      hide *;
      records := records[handoffId := Record(sender, receiver, Pending, None)];
      participants := participants[handoffId := payload];
      steps := steps + [initiation];
      trace := trace + [initiation];
    }

    function MakeAck(message: Message, ackId: string, alreadyProcessed: bool): Message {
      Message(ackId, message.handoffId, message.receiverNodeId, message.senderNodeId, Ack, message.stepIndex,
              Obj(map[Key("already_processed") := Bool(alreadyProcessed)]), message.provenanceRef)
    }

    /** The acknowledgement goes back where the message came from, for the same handoff and step. */
    ghost predicate Acknowledges(ack: Message, m: Message, ackId: string, alreadyProcessed: bool) {
      && ack.messageType == Ack && ack.messageId == ackId && ack.handoffId == m.handoffId
      && ack.senderNodeId == m.receiverNodeId && ack.receiverNodeId == m.senderNodeId
      && ack.stepIndex == m.stepIndex && ack.provenanceRef == m.provenanceRef
      && ack.statePayload == Obj(map[Key("already_processed") := Bool(alreadyProcessed)])
    }

    /** Duplicates are acknowledged without effect; a fresh recordable message is applied once,
        recorded and acknowledged; anything else is ignored. */
    method ReceiveMessage(message: Message, receiver: IdempotentReceiver, now: real, ackId: string)
      returns (response: Option<Message>)
      requires Valid() && receiver.Valid()
      modifies this, receiver
      ensures Valid() && receiver.Valid()
      ensures trace == old(trace) + [Process(Arrival(message, now))]
      ensures old(receiver.IsDuplicate(message.messageId)) ==>
                && steps == old(steps)
                && response == Some(MakeAck(message, ackId, true))
      ensures !old(receiver.IsDuplicate(message.messageId)) && Recordable(message) ==>
                && steps == old(steps) + [Process(Arrival(message, now))]
                && receiver.recorded == old(receiver.recorded) + [message.messageId]
                && response == Some(MakeAck(message, ackId, false))
                && ParticipantsMoved(old(participants), message, participants)
                && RecordsMoved(old(records), message, now, records)
      ensures old(receiver.IsDuplicate(message.messageId)) || !Recordable(message) ==>
                records == old(records) && participants == old(participants)
      ensures response.Some? ==> Acknowledges(response.value, message, ackId,
          old(receiver.IsDuplicate(message.messageId)))
      ensures !old(receiver.IsDuplicate(message.messageId)) && !Recordable(message) ==>
                steps == old(steps) && response == None
      ensures old(InSync(receiver)) && old(receiver.NotBefore(now)) ==> InSync(receiver) && receiver.NotBefore(now)
    {
      ghost var arrived := Process(Arrival(message, now));
      if InSync(receiver) {
        DuplicateIffInWindow(receiver, message.messageId);
        ArrivalKeepsSynced(receiver.windowSize, receiver.recorded, steps, trace, arrived.arrival);
      }
      ReplayStep(steps, arrived);
      hide Synced;
      hide Delivered;
      hide DeliveredOnce;
      hide Arrivals;
      hide Replay;
      hide Apply;
      hide Recordable;
      hide LastOf;
      hide SeenMatches;
      hide HoldsWindow;
      hide AllBefore;
      hide ParticipantsMoved;
      hide RecordsMoved;
      trace := trace + [arrived];
      if receiver.IsDuplicate(message.messageId) {
        return Some(MakeAck(message, ackId, true));
      }
      if !Recordable(message) { return None; }
      Absorb(message, receiver, now);
      steps := steps + [arrived];
      response := Some(MakeAck(message, ackId, false));
    }

    /** Applies a fresh recordable message and records it. */
    method Absorb(message: Message, receiver: IdempotentReceiver, now: real)
      requires receiver.Valid() && Recordable(message) && !receiver.IsDuplicate(message.messageId)
      modifies this`records, this`participants, receiver
      ensures Core(records, participants) == Apply(old(Core(records, participants)), Arrival(message, now))
      ensures ParticipantsMoved(old(participants), message, participants)
      ensures RecordsMoved(old(records), message, now, records)
      ensures receiver.Valid() && receiver.recorded == old(receiver.recorded) + [message.messageId]
      ensures old(receiver.WindowExact()) && old(receiver.NotBefore(now)) ==>
          receiver.WindowExact() && receiver.NotBefore(now)
    {
      AppliedMoves(Core(records, participants), message, now);
      hide SeenMatches;
      hide HoldsWindow;
      hide AllBefore;
      hide ParticipantsMoved;
      hide RecordsMoved;
      if message.messageType == StateTransfer {
        participants := participants[message.handoffId := message.statePayload];
        receiver.Record(message, Accepted, now);
        SetStatus(message.handoffId, Committed, now);
      } else if message.messageType == Commit {
        receiver.Record(message, CommittedOutcome, now);
        SetStatus(message.handoffId, Committed, now);
      } else {
        receiver.Record(message, AbortedOutcome, now);
        participants := participants - {message.handoffId};
        SetStatus(message.handoffId, Aborted, now);
      }
    }

    method SetStatus(handoffId: string, status: Status, now: real)
      modifies this`records
      ensures records == UpdateRecord(old(records), handoffId, status, now)
    {
      if handoffId in records {
        var r := records[handoffId].(status := status);
        if status == Committed { r := r.(completedAt := Some(now)); }
        records := records[handoffId := r];
      }
    }
  }

  /** In every state reached over an ordered clock: if every repeat fell inside the window, the
      records and participant states are those of applying each message once, at its first
      occurrence. */
  lemma StateIsExactlyOnce(c: DistributedCoordinator, receiver: IdempotentReceiver)
    requires c.Valid() && c.InSync(receiver) && RepeatsInWindow(receiver.windowSize, Arrivals(c.trace))
    ensures Core(c.records, c.participants) == Replay(DeliveredOnce(c.trace))
  {
    DeliveredOnceIff(receiver.windowSize, c.trace);
  }

  /** In every state of a coordinator: each handoff that was initiated has the status its last
      applied step leaves. */
  lemma RecordHasLastStatus(c: DistributedCoordinator, h: string)
    requires c.Valid()
    ensures h in c.records <==> exists s :: s in c.steps && s.Initiate? && s.handoffId == h
    ensures forall i | LastConcern(c.steps, h, i) :: h in c.records ==> LeavesStatus(c.steps[i], c.records[h].status)
  {
    hide LastConcern;
    StatusIsLastStep(c.steps, h);
  }

  /** In every state of a coordinator: each handoff holds the payload of its last applied
      initiation or transfer, unless an abort came after it. */
  lemma ParticipantHoldsLastPayload(c: DistributedCoordinator, h: string)
    requires c.Valid()
    ensures h in c.participants <==> exists i :: LastWord(c.steps, h, i) && HandsOver(c.steps[i], h)
    ensures forall i | LastWord(c.steps, h, i) && HandsOver(c.steps[i], h) ::
              h in c.participants && c.participants[h] == PayloadOf(c.steps[i])
  {
    hide LastWord;
    hide HandsOver;
    StateIsLastPayload(c.steps, h);
  }
}
