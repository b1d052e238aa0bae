/** When everything that was captured can still reach a client without another push. */
module Delivery {
  import opened Util
  import opened Wire
  import opened WireProofs
  import opened DriverRead
  import opened BrokerIrps
  import opened Pipeline

  /** Something is queued that no read will find until another push: a stall, or IRPs pushed after
      the read that is under way was sized. */
  ghost predicate LeftBehind(s: State) {
    Stalled(s) || (s.broker.Copying? && |s.broker.popped| + |s.queue| > s.broker.number)
  }

  /** More is queued than the largest buffer holds. */
  ghost predicate TooBig(s: State) {
    !s.broker.Copying? && QueueSize(s.queue) > 0x8000_0000
  }

  /** A retry has a length of the doubling sequence, and has something to read; the length is zero
      only after 2^31 was too small. */
  ghost predicate Retries(s: State) {
    s.broker.Polling? ==>
      && s.queue != []
      && (exists k: nat :: s.broker.length == AttemptLength(k))
      && (s.broker.length == 0 ==> QueueSize(s.queue) > 0x8000_0000)
  }

  lemma LengthStep(length: u32)
    requires exists k: nat :: length == AttemptLength(k)
    ensures exists k: nat :: Doubled(length) == AttemptLength(k)
    ensures length <= 0x8000_0000
    ensures Doubled(length) == 0 ==> length in {0, 0x8000_0000}
    ensures 0 < length < 0x8000_0000 ==> Doubled(length) == 2 * length
  {
    var k: nat :| length == AttemptLength(k);
    assert Doubled(length) == AttemptLength(k + 1);
    hide AttemptLength, Pow2;
    AttemptLengths(k);
    AttemptLengths(k + 1);
    HighestPower();
    if k < 32 {
      DoubledPower(k);
    }
  }

  lemma FirstLength()
    ensures exists k: nat :: 1 == AttemptLength(k)
  {
    assert AttemptLength(0) == 1;
  }

  lemma RetriesStep(s: State, step: Step)
    requires Inv(s) && Retries(s)
    ensures Retries(Apply(s, step))
  {
    hide Parse, OnePop, AttemptLength, Doubled, QueueSize, Serialise, ExportAll, Concat;
    FirstLength();
    if s.broker.Polling? {
      LengthStep(s.broker.length);
      if step.Push? {
        QueueSizeAppend(s.queue, [step.irp]);
      }
    }
  }

  /** Without a push, what is left behind stays behind. */
  lemma LeftBehindStays(s: State, step: Step)
    requires Inv(s) && LeftBehind(s) && !step.Push?
    ensures LeftBehind(Apply(s, step))
  {
    hide Parse, OnePop, QueueSize, Serialise, ExportAll, Concat;
    if step.PopOne? && s.broker.Copying? && |s.broker.popped| < s.broker.number {
      PopSucceeds(s);
    }
  }

  lemma TooBigStays(s: State, step: Step)
    requires Inv(s) && Retries(s) && TooBig(s) && !step.Push?
    ensures TooBig(Apply(s, step))
  {
    hide Parse, OnePop, QueueSize, AttemptLength, Serialise, ExportAll, Concat;
    if s.broker.Polling? {
      LengthStep(s.broker.length);
    }
  }

  /** Everything that is queued will be read. */
  ghost predicate Readable(s: State) {
    !LeftBehind(s) && !TooBig(s)
  }

  lemma NotReadableStays(s: State, step: Step)
    requires Inv(s) && Retries(s) && !Readable(s) && !step.Push?
    ensures !Readable(Apply(s, step))
  {
    hide Apply, LeftBehind, TooBig;
    if LeftBehind(s) {
      LeftBehindStays(s, step);
    } else {
      TooBigStays(s, step);
    }
  }

  // ----- a run to the end -----

  ghost predicate Done(s: State) {
    s.broker == Waiting && s.queue == [] && s.json == []
  }

  /** What the broker, or else the client, does next. */
  ghost function NextStep(s: State): Step {
    match s.broker
    case Waiting => if s.queue != [] then Wake else ClientPop
    case Polling(_) => Read(true)
    case Copying(_, number, popped, _) => if |popped| < number then PopOne else FinishRead
    case Dispatching(rest) => if rest != [] then Dispatch else FinishBatch
    case Failed(_) => Wake
  }

  /** A read in between makes what is queued count for less. */
  ghost function Queued(s: State): nat {
    if s.broker.Copying? then 2 * |s.queue| + 1 else if s.queue == [] then 0 else 2 * |s.queue| + 2
  }

  ghost function Phase(s: State): nat {
    match s.broker
    case Dispatching(_) => 3
    case Waiting => 2
    case Polling(_) => 1
    case _ => 0
  }

  ghost function Todo(s: State): nat {
    match s.broker
    case Dispatching(rest) => |rest|
    case Waiting => |s.json|
    case Polling(length) => if length < QueueSize(s.queue) then QueueSize(s.queue) - length else 0
    case _ => 0
  }

  ghost predicate Closer(s: State, t: State) {
    || Queued(t) < Queued(s)
    || (Queued(t) == Queued(s) && Phase(t) < Phase(s))
    || (Queued(t) == Queued(s) && Phase(t) == Phase(s) && Todo(t) < Todo(s))
  }

  ghost predicate OnTheWay(s: State) {
    Inv(s) && Retries(s) && Readable(s) && s.connected
  }

  lemma PollCloser(s: State)
    requires OnTheWay(s) && s.broker.Polling?
    ensures var t := Apply(s, Read(true)); Readable(t) && Closer(s, t)
  {
    hide QueueSize, AttemptLength, Doubled, Inv;
    LengthStep(s.broker.length);
  }

  lemma NothingQueued()
    ensures QueueSize([]) == 0
  {
  }

  lemma CopyCloser(s: State)
    requires OnTheWay(s) && s.broker.Copying?
    ensures var t := Apply(s, NextStep(s)); Readable(t) && Closer(s, t)
  {
    hide QueueSize, Parse, OnePop, RecordBytes, Serialise, ExportAll, Concat;
    NothingQueued();
    if |s.broker.popped| < s.broker.number {
      PopSucceeds(s);
    }
  }

  lemma OtherCloser(s: State)
    requires OnTheWay(s) && !s.broker.Copying? && !s.broker.Polling? && !Done(s)
    ensures var t := Apply(s, NextStep(s)); Readable(t) && Closer(s, t)
  {
    hide QueueSize, Parse, OnePop, Serialise, ExportAll, Concat;
  }

  lemma NextKeeps(s: State)
    requires OnTheWay(s) && !Done(s)
    ensures var t := Apply(s, NextStep(s)); OnTheWay(t) && Closer(s, t) && t.pushed == s.pushed
    ensures !NextStep(s).Push?
  {
    hide Inv, Retries, Readable, Closer, QueueSize, Parse, OnePop, Serialise, ExportAll, Concat, Dropped;
    StepKeeps(s, NextStep(s));
    RetriesStep(s, NextStep(s));
    if s.broker.Polling? {
      PollCloser(s);
    } else if s.broker.Copying? {
      CopyCloser(s);
    } else {
      OtherCloser(s);
    }
  }

  lemma {:induction false} RunsOut(s: State) returns (steps: seq<Step>)
    requires OnTheWay(s)
    ensures NoPush(steps) && Done(Run(s, steps)) && Run(s, steps).pushed == s.pushed
    decreases Queued(s), Phase(s), Todo(s)
  {
    hide OnTheWay, Done, NextStep, Apply, Queued, Phase, Todo;
    if Done(s) {
      steps := [];
    } else {
      NextKeeps(s);
      var rest := RunsOut(Apply(s, NextStep(s)));
      steps := [NextStep(s)] + rest;
      assert steps[1..] == rest;
    }
  }

  lemma {:induction false} NeverReadable(s: State, steps: seq<Step>)
    requires Inv(s) && Retries(s) && !Readable(s) && NoPush(steps)
    ensures !Readable(Run(s, steps)) && Run(s, steps).pushed == s.pushed
    decreases |steps|
  {
    hide Inv, Retries, Readable, Apply;
    if steps != [] {
      NotReadableStays(s, steps[0]);
      StepKeeps(s, steps[0]);
      RetriesStep(s, steps[0]);
      PushedStays(s, steps[0]);
      assert NoPush(steps[1..]);
      NeverReadable(Apply(s, steps[0]), steps[1..]);
    }
  }

  lemma PushedStays(s: State, step: Step)
    requires !step.Push?
    ensures Apply(s, step).pushed == s.pushed
  {
    hide QueueSize, Parse, OnePop, Dropped;
  }

  lemma {:induction false} RetriesRun(s: State, steps: seq<Step>)
    requires Inv(s) && Retries(s)
    ensures Retries(Run(s, steps))
    decreases |steps|
  {
    hide Inv, Retries, Apply;
    if steps != [] {
      StepKeeps(s, steps[0]);
      RetriesStep(s, steps[0]);
      RetriesRun(Apply(s, steps[0]), steps[1..]);
    }
  }

  lemma {:induction false} DispatchesAppend(s: State, a: seq<Step>, b: seq<Step>)
    ensures DispatchesConnected(s, a + b) <==> DispatchesConnected(s, a) && DispatchesConnected(Run(s, a), b)
    decreases |a|
  {
    hide Apply;
    if a == [] {
      assert a + b == b;
    } else {
      assert (a + b)[0] == a[0] && (a + b)[1..] == a[1..] + b;
      DispatchesAppend(Apply(s, a[0]), a[1..], b);
    }
  }

  /** What was dropped is missing from what was kept. */
  lemma {:induction false} KeptLength(handed: seq<Handed>)
    ensures |Concat(KeptOf, handed)| <= |Concat(IrpOf, handed)| == |handed|
    ensures |Concat(KeptOf, handed)| == |handed| ==> AllKept(handed)
    decreases |handed|
  {
    if handed != [] {
      KeptLength(handed[1..]);
      assert forall i | 1 <= i < |handed| :: handed[i] == handed[1..][i - 1];
    }
  }

  /** In a state that delivered everything, nothing is queued and nothing was dropped. */
  lemma AllDelivered(s: State)
    requires Inv(s) && s.delivered == ExportAll(s.pushed)
    ensures s.queue == [] && AllKept(s.handed)
  {
    hide AllKept, Concat;
    KeptLength(s.handed);
  }

  lemma UnreadQueued(s: State)
    requires Inv(s) && !Readable(s)
    ensures s.queue != []
  {
    hide Conserved, QueueSize;
    NothingQueued();
  }

  lemma ConnectFirst(s: State) returns (t: State)
    requires Inv(s) && Retries(s) && Readable(s)
    ensures t == Run(s, [RegisterCallback, AddConnectors])
    ensures OnTheWay(t) && t.pushed == s.pushed && DispatchesConnected(s, [RegisterCallback, AddConnectors])
  {
    hide Inv, QueueSize, Parse, OnePop, Dropped;
    var s1 := Apply(s, RegisterCallback);
    StepKeeps(s, RegisterCallback);
    StepKeeps(s1, AddConnectors);
    RunTwo(s, RegisterCallback, AddConnectors);
    t := Apply(s1, AddConnectors);
    assert [RegisterCallback, AddConnectors][1..] == [AddConnectors] && [AddConnectors][1..] == [];
  }

  /** Some continuation without a push delivers everything. */
  ghost predicate Deliverable(s: State) {
    exists more :: NoPush(more) && Run(s, more).delivered == ExportAll(s.pushed)
  }

  lemma ReadableDelivers(steps: seq<Step>)
    requires Readable(Run(INITIAL, steps)) && DispatchesConnected(INITIAL, steps)
    ensures Deliverable(Run(INITIAL, steps))
  {
    hide Run, Inv, Retries, Readable, OnTheWay, NoPush, DispatchesConnected, Apply;
    var s := Run(INITIAL, steps);
    StartsFine();
    RunKeeps(INITIAL, steps);
    RetriesRun(INITIAL, steps);
    var setUp := [RegisterCallback, AddConnectors];
    var t := ConnectFirst(s);
    var rest := RunsOut(t);
    var more := setUp + rest;
    RunAppend(s, setUp, rest);
    IsConnected(t);
    ConnectedStays(t, rest);
    DispatchesAppend(s, setUp, rest);
    DispatchesAppend(INITIAL, steps, more);
    RunAppend(INITIAL, steps, more);
    InOrderDelivery(steps + more);
    NothingLeft(Run(s, more));
    NoPushAppend(rest);
    assert NoPush(more);
  }

  lemma IsConnected(s: State)
    requires OnTheWay(s)
    ensures s.connected
  {
  }

  lemma NoPushAppend(rest: seq<Step>)
    requires NoPush(rest)
    ensures NoPush([RegisterCallback, AddConnectors] + rest)
  {
  }

  lemma NothingLeft(s: State)
    requires Done(s) && ExportAll(s.pushed) == s.delivered + s.json + InFlight(s.broker) + ExportAll(s.queue)
    ensures s.delivered == ExportAll(s.pushed)
  {
    assert s.delivered + [] + [] + [] == s.delivered;
  }

  lemma StartsFine()
    ensures Inv(INITIAL) && Retries(INITIAL)
  {
  }

  lemma DeliversReadable(steps: seq<Step>, more: seq<Step>)
    requires var s := Run(INITIAL, steps); NoPush(more) && Run(s, more).delivered == ExportAll(s.pushed)
    ensures Readable(Run(INITIAL, steps)) && DispatchesConnected(INITIAL, steps)
  {
    hide Run, Inv, Retries, Readable, DispatchesConnected, AllKept, NoPush;
    var s := Run(INITIAL, steps);
    StartsFine();
    RunKeeps(INITIAL, steps);
    RetriesRun(INITIAL, steps);
    RunKeeps(s, more);
    RunAppend(INITIAL, steps, more);
    PushedRun(s, more);
    AllDelivered(Run(s, more));
    LossExact(INITIAL, steps + more);
    DispatchesAppend(INITIAL, steps, more);
    if !Readable(s) {
      NeverReadable(s, more);
      UnreadQueued(Run(s, more));
    }
  }

  lemma {:induction false} PushedRun(s: State, steps: seq<Step>)
    requires NoPush(steps)
    ensures Run(s, steps).pushed == s.pushed
    decreases |steps|
  {
    hide Apply;
    if steps != [] {
      PushedStays(s, steps[0]);
      PushedRun(Apply(s, steps[0]), steps[1..]);
    }
  }

  /** After any run, everything captured so far can still be delivered, once, in order and byte for
      byte, without another push, exactly if nothing was dispatched before the connectors were in
      place, nothing is left behind by a read or a forgotten signal, and what waits for a read has
      at most 2^31 bytes. */
  lemma DeliveryExact(steps: seq<Step>)
    ensures Deliverable(Run(INITIAL, steps))
            <==> Readable(Run(INITIAL, steps)) && DispatchesConnected(INITIAL, steps)
  {
    hide Run, Readable, DispatchesConnected;
    var s := Run(INITIAL, steps);
    if Readable(s) && DispatchesConnected(INITIAL, steps) {
      ReadableDelivers(steps);
    }
    if Deliverable(s) {
      var more :| NoPush(more) && Run(s, more).delivered == ExportAll(s.pushed);
      DeliversReadable(steps, more);
    }
  }
}
