/** The whole way of an IRP, from a push in the driver to a client, as a state machine.

    Pushing processors, the broker's IRP manager, the registration of the connectors and the
    client take atomic steps in any order. A run is any sequence of steps; a step that is not
    enabled changes nothing. */
module Pipeline {
  import opened Util
  import opened Wire
  import opened WireProofs
  import opened DriverRead
  import opened BrokerIrps

  /** Where the broker's IRP manager is. */
  datatype Broker =
    | Waiting
    /** About to call `ReadFile` with a buffer of that length. */
    | Polling(length: u32)
    /** Inside the driver's popping loop. `popped` is history: what the bytes were made from. */
    | Copying(expected: nat, number: nat, popped: seq<QueuedIrp>, bytes: seq<u8>)
    | Dispatching(rest: seq<CapturedIrp>)
    /** The driver took an error exit in the middle of a copy. */
    | Failed(status: NtStatus)

  /** An IRP that left the broker, and whether a JSON queue received it. */
  datatype Handed = Handed(irp: CapturedIrp, kept: bool)

  datatype State = State(
    queue: seq<QueuedIrp>,
    /** The broker has shared its event with the driver. */
    installed: bool,
    signalled: bool,
    broker: Broker,
    registered: bool,
    connected: bool,
    json: seq<CapturedIrp>,
    /** History: everything ever pushed, handed over by the broker, and returned to a client. */
    pushed: seq<QueuedIrp>,
    handed: seq<Handed>,
    delivered: seq<CapturedIrp>)

  datatype Step =
    | Push(irp: QueuedIrp)
    | InstallEvent
    | Wake
    | Read(mapped: bool)
    | PopOne
    | FinishRead
    | Dispatch
    | FinishBatch
    | RegisterCallback
    | AddConnectors
    | ClientPop

  const INITIAL := State([], false, false, Waiting, false, false, [], [], [], [])

  function Dropped(irps: seq<CapturedIrp>): seq<Handed> {
    if irps == [] then [] else [Handed(irps[0], false)] + Dropped(irps[1..])
  }

  ghost function Apply(s: State, step: Step): State {
    match step
    case Push(irp) =>
      s.(queue := s.queue + [irp], signalled := s.installed, pushed := s.pushed + [irp])
    case InstallEvent => s.(installed := true)
    case Wake =>
      if s.broker.Waiting? && s.signalled then s.(broker := Polling(1)) else s
    case Read(mapped) =>
      if !s.broker.Polling? then s
      else if s.broker.length < QueueSize(s.queue) then s.(broker := Polling(Doubled(s.broker.length)))
      else if !mapped then s.(broker := Waiting, signalled := false)
      else s.(broker := Copying(QueueSize(s.queue), |s.queue|, [], []))
    case PopOne =>
      if s.broker.Copying? && |s.broker.popped| < s.broker.number then ApplyPop(s) else s
    case FinishRead =>
      if s.broker.Copying? && |s.broker.popped| >= s.broker.number
      then s.(broker := Dispatching(Parse(s.broker.bytes)), signalled := false)
      else s
    case Dispatch =>
      if s.broker.Dispatching? && s.broker.rest != [] then ApplyDispatch(s) else s
    case FinishBatch =>
      if s.broker == Dispatching([]) then s.(broker := Waiting) else s
    case RegisterCallback => s.(registered := true)
    case AddConnectors => if s.registered then s.(connected := true) else s
    case ClientPop =>
      if s.json == [] then s else s.(json := s.json[1..], delivered := s.delivered + [s.json[0]])
  }

  /** One turn of the driver's loop; emptying the queue clears the event. */
  ghost function ApplyPop(s: State): State
    requires s.broker.Copying?
  {
    var c := s.broker;
    var pop := OnePop(s.queue, if |c.bytes| <= c.expected then c.expected - |c.bytes| else 0);
    if pop.status != Success then s.(broker := Failed(pop.status), queue := pop.left)
    else
      s.(queue := pop.left,
         signalled := s.signalled && pop.left != [],
         broker := c.(popped := c.popped + [s.queue[0]], bytes := c.bytes + pop.written))
  }

  /** Without a callback the rest of the batch is abandoned; without connectors the IRP goes nowhere. */
  ghost function ApplyDispatch(s: State): State
    requires s.broker.Dispatching? && s.broker.rest != []
  {
    var irp := s.broker.rest[0];
    if !s.registered then
      s.(broker := Dispatching([]), handed := s.handed + Dropped(s.broker.rest))
    else
      s.(broker := Dispatching(s.broker.rest[1..]),
         json := if s.connected then s.json + [irp] else s.json,
         handed := s.handed + [Handed(irp, s.connected)])
  }

  ghost function Run(s: State, steps: seq<Step>): State
    decreases |steps|
  {
    if steps == [] then s else Run(Apply(s, steps[0]), steps[1..])
  }

  // ----- what every run keeps -----

  function IrpOf(h: Handed): seq<CapturedIrp> {
    [h.irp]
  }

  function KeptOf(h: Handed): seq<CapturedIrp> {
    if h.kept then [h.irp] else []
  }

  /** The IRPs that left the driver's queue and have not been handed over. */
  ghost function InFlight(b: Broker): seq<CapturedIrp> {
    match b
    case Copying(_, _, popped, _) => ExportAll(popped)
    case Dispatching(rest) => rest
    case _ => []
  }

  /** Every pushed IRP is in exactly one place, in order of arrival. */
  ghost predicate Conserved(s: State) {
    && ExportAll(s.pushed) == Concat(IrpOf, s.handed) + InFlight(s.broker) + ExportAll(s.queue)
    && Concat(KeptOf, s.handed) == s.delivered + s.json
  }

  /** A copy under way has written what it popped, and what it still has to pop is queued. */
  ghost predicate CopyOnTrack(s: State) {
    match s.broker
    case Failed(_) => false
    case Copying(expected, number, popped, bytes) =>
      && bytes == Serialise(ExportAll(popped))
      && |popped| <= number <= |popped| + |s.queue|
      && expected == |bytes| + QueueSize(s.queue[..number - |popped|])
    case _ => true
  }

  ghost predicate Inv(s: State) {
    && Conserved(s)
    && CopyOnTrack(s)
    && (s.signalled ==> s.queue != [] && s.installed)
    && (s.installed || s.broker.Waiting?)
    && (s.connected ==> s.registered)
  }

  lemma ExportOne(q: seq<QueuedIrp>, irp: QueuedIrp)
    ensures ExportAll(q + [irp]) == ExportAll(q) + [Export(irp)]
  {
    ExportAppend(q, [irp]);
  }

  lemma ExportHead(q: seq<QueuedIrp>)
    requires q != []
    ensures ExportAll(q) == [Export(q[0])] + ExportAll(q[1..])
  {
  }

  lemma PushKeeps(s: State, irp: QueuedIrp)
    requires Inv(s)
    ensures Inv(Apply(s, Push(irp)))
  {
    hide ExportAll, QueueSize, Serialise, Concat;
    ExportOne(s.pushed, irp);
    ExportOne(s.queue, irp);
    Assoc(Concat(IrpOf, s.handed) + InFlight(s.broker), ExportAll(s.queue), [Export(irp)]);
    if s.broker.Copying? {
      var due := s.broker.number - |s.broker.popped|;
      assert (s.queue + [irp])[..due] == s.queue[..due];
    }
  }

  lemma ReadKeeps(s: State, mapped: bool)
    requires Inv(s)
    ensures Inv(Apply(s, Read(mapped)))
  {
    hide ExportAll, QueueSize, Serialise, Concat;
    NothingCopied(s.queue);
  }

  lemma NothingCopied(queue: seq<QueuedIrp>)
    ensures queue[..|queue|] == queue
    ensures ExportAll([]) == [] && Serialise([]) == []
  {
  }

  /** The next pop of a copy on track succeeds. */
  lemma PopSucceeds(s: State)
    requires CopyOnTrack(s) && s.broker.Copying? && |s.broker.popped| < s.broker.number
    ensures s.queue != [] && |s.broker.bytes| <= s.broker.expected
    ensures OnePop(s.queue, s.broker.expected - |s.broker.bytes|)
         == CopyResult(Success, RecordBytes(Export(s.queue[0])), s.queue[1..])
    ensures var due := s.queue[..s.broker.number - |s.broker.popped|];
            |RecordBytes(Export(s.queue[0]))| + QueueSize(due[1..]) == QueueSize(due)
  {
    hide Serialise, ExportAll, Fitting, RecordBytes;
    var due := s.queue[..s.broker.number - |s.broker.popped|];
    QueueSizeStep(due);
    WholeRecordFits(Export(s.queue[0]), s.broker.expected - |s.broker.bytes|);
  }

  lemma SerialiseOne(q: seq<QueuedIrp>, irp: QueuedIrp)
    ensures Serialise(ExportAll(q + [irp])) == Serialise(ExportAll(q)) + RecordBytes(Export(irp))
  {
    ExportOne(q, irp);
    ConcatAppend(RecordBytes, ExportAll(q), [Export(irp)]);
    assert Concat(RecordBytes, [Export(irp)]) == RecordBytes(Export(irp)) + [];
  }

  lemma PopKeeps(s: State)
    requires Inv(s) && s.broker.Copying? && |s.broker.popped| < s.broker.number
    ensures Inv(ApplyPop(s))
  {
    hide Serialise, ExportAll, QueueSize, Concat, OnePop, RecordBytes, Export;
    var c := s.broker;
    var irp := s.queue[0];
    PopSucceeds(s);
    ExportOne(c.popped, irp);
    SerialiseOne(c.popped, irp);
    ExportHead(s.queue);
    var handed := Concat(IrpOf, s.handed);
    Assoc(handed, ExportAll(c.popped), [Export(irp)]);
    Assoc(handed + ExportAll(c.popped), [Export(irp)], ExportAll(s.queue[1..]));
    assert s.queue[1..][..c.number - |c.popped| - 1] == s.queue[..c.number - |c.popped|][1..];
  }

  lemma FinishKeeps(s: State)
    requires Inv(s)
    ensures Inv(Apply(s, FinishRead))
  {
    hide Serialise, ExportAll, QueueSize, Concat, Parse;
    if s.broker.Copying? {
      RoundTrip(s.broker.popped);
    }
  }

  lemma {:induction false} DroppedFates(irps: seq<CapturedIrp>)
    ensures Concat(IrpOf, Dropped(irps)) == irps
    ensures Concat(KeptOf, Dropped(irps)) == []
  {
    if irps != [] {
      DroppedFates(irps[1..]);
    }
  }

  lemma OneFate(h: Handed)
    ensures Concat(IrpOf, [h]) == [h.irp] && Concat(KeptOf, [h]) == if h.kept then [h.irp] else []
  {
  }

  lemma DispatchKeeps(s: State)
    requires Inv(s) && s.broker.Dispatching? && s.broker.rest != []
    ensures Inv(ApplyDispatch(s))
  {
    hide ExportAll, Concat, Dropped, IrpOf, KeptOf;
    var rest := s.broker.rest;
    if !s.registered {
      DroppedFates(rest);
      ConcatAppend(IrpOf, s.handed, Dropped(rest));
      ConcatAppend(KeptOf, s.handed, Dropped(rest));
    } else {
      var h := Handed(rest[0], s.connected);
      OneFate(h);
      ConcatAppend(IrpOf, s.handed, [h]);
      ConcatAppend(KeptOf, s.handed, [h]);
      assert rest == [rest[0]] + rest[1..];
      Assoc(Concat(IrpOf, s.handed), [rest[0]], rest[1..]);
      Assoc(s.delivered, s.json, [rest[0]]);
    }
  }

  lemma ClientKeeps(s: State)
    requires Inv(s)
    ensures Inv(Apply(s, ClientPop))
  {
    hide ExportAll, QueueSize, Serialise, Concat;
    if s.json != [] {
      Assoc(s.delivered, [s.json[0]], s.json[1..]);
      assert s.json == [s.json[0]] + s.json[1..];
    }
  }

  lemma {:induction false} DroppedAt(irps: seq<CapturedIrp>)
    ensures |Dropped(irps)| == |irps| && forall i | 0 <= i < |irps| :: Dropped(irps)[i] == Handed(irps[i], false)
  {
    if irps != [] {
      DroppedAt(irps[1..]);
    }
  }

  /** With a callback one IRP is handed over, and kept if the connectors are there; without one the
      whole rest of the batch is lost. */
  lemma DispatchStep(s: State)
    requires s.broker.Dispatching? && s.broker.rest != []
    ensures var rest, t := s.broker.rest, Apply(s, Dispatch);
            && t == s.(broker := t.broker, json := t.json, handed := t.handed) && s.handed <= t.handed
            && (s.registered ==>
                  && t.broker == Dispatching(rest[1..])
                  && t.handed[|s.handed|..] == [Handed(rest[0], s.connected)]
                  && t.json == if s.connected then s.json + [rest[0]] else s.json)
            && (!s.registered ==>
                  && t.broker == Dispatching([]) && t.json == s.json
                  && |t.handed| == |s.handed| + |rest|
                  && forall i | 0 <= i < |rest| :: t.handed[|s.handed| + i] == Handed(rest[i], false))
  {
    DroppedAt(s.broker.rest);
  }

  /** One read: too short a buffer is doubled and removes nothing, unmapped pages end the poll, and
      otherwise exactly what is queued now is going to be copied. */
  lemma ReadStep(s: State, mapped: bool)
    requires s.broker.Polling?
    ensures var need, length, t := |Serialise(ExportAll(s.queue))|, s.broker.length, Apply(s, Read(mapped));
            && (length < need ==> t == s.(broker := Polling(2 * length % 0x1_0000_0000)))
            && (length >= need && !mapped ==> t == s.(broker := Waiting, signalled := false))
            && (length >= need && mapped ==> t == s.(broker := Copying(need, |s.queue|, [], [])))
  {
    hide Serialise, ExportAll, QueueSize;
    RoundTrip(s.queue);
  }

  /** The other steps of the broker; waking needs the event, and the end of a read clears it. */
  lemma CopyStep(s: State)
    requires Inv(s)
    ensures Apply(s, Wake) == if s.broker == Waiting && s.signalled then s.(broker := Polling(1)) else s
    ensures s.broker.Copying? && |s.broker.popped| < s.broker.number ==>
              && s.queue != []
              && Apply(s, PopOne) == s.(queue := s.queue[1..], signalled := s.signalled && |s.queue| > 1,
                                        broker := s.broker.(popped := s.broker.popped + [s.queue[0]],
                                                            bytes := s.broker.bytes + RecordBytes(Export(s.queue[0]))))
    ensures s.broker.Copying? && |s.broker.popped| == s.broker.number ==>
              Apply(s, FinishRead) == s.(broker := Dispatching(ExportAll(s.broker.popped)), signalled := false)
  {
    hide Serialise, ExportAll, QueueSize, Parse, RecordBytes, Export, OnePop;
    if s.broker.Copying? {
      if |s.broker.popped| < s.broker.number {
        PopSucceeds(s);
      } else {
        RoundTrip(s.broker.popped);
      }
    }
  }

  lemma StepKeeps(s: State, step: Step)
    requires Inv(s)
    ensures Inv(Apply(s, step))
  {
    hide Serialise, ExportAll, QueueSize, Concat, Parse, ApplyPop, ApplyDispatch;
    match step {
      case Push(irp) => PushKeeps(s, irp);
      case Read(mapped) => ReadKeeps(s, mapped);
      case PopOne => if s.broker.Copying? && |s.broker.popped| < s.broker.number { PopKeeps(s); }
      case FinishRead => FinishKeeps(s);
      case Dispatch => if s.broker.Dispatching? && s.broker.rest != [] { DispatchKeeps(s); }
      case ClientPop => ClientKeeps(s);
      case _ =>
    }
  }

  lemma {:induction false} RunKeeps(s: State, steps: seq<Step>)
    requires Inv(s)
    ensures Inv(Run(s, steps))
    decreases |steps|
  {
    hide Inv, Apply;
    if steps != [] {
      StepKeeps(s, steps[0]);
      RunKeeps(Apply(s, steps[0]), steps[1..]);
    }
  }

  /** In every run: no driver read fails half-way, and every pushed IRP has either been handed over,
      is in flight, or is still queued, once and in order. */
  lemma Conservation(steps: seq<Step>)
    ensures var s := Run(INITIAL, steps);
            && !s.broker.Failed?
            && ExportAll(s.pushed) == Concat(IrpOf, s.handed) + InFlight(s.broker) + ExportAll(s.queue)
            && Concat(KeptOf, s.handed) == s.delivered + s.json
            && (s.signalled ==> s.queue != [])
  {
    hide Run;
    RunKeeps(INITIAL, steps);
  }

  // ----- when nothing is lost -----

  ghost predicate AllKept(handed: seq<Handed>) {
    forall i | 0 <= i < |handed| :: handed[i].kept
  }

  /** Every dispatch of the run finds the connectors in place. */
  ghost predicate DispatchesConnected(s: State, steps: seq<Step>)
    decreases |steps|
  {
    steps == [] ||
    ((steps[0] == Dispatch && s.broker.Dispatching? && s.broker.rest != [] ==> s.connected)
     && DispatchesConnected(Apply(s, steps[0]), steps[1..]))
  }

  lemma LossStep(s: State, step: Step)
    requires s.connected ==> s.registered
    ensures Apply(s, step).connected ==> Apply(s, step).registered
    ensures AllKept(Apply(s, step).handed) <==>
            AllKept(s.handed) && (step == Dispatch && s.broker.Dispatching? && s.broker.rest != [] ==> s.connected)
  {
    hide QueueSize, Parse, OnePop;
    if step == Dispatch && s.broker.Dispatching? && s.broker.rest != [] {
      var after := Apply(s, step).handed;
      assert s.handed <= after && !after[|s.handed|].kept == !s.connected;
      assert forall i | 0 <= i < |s.handed| :: after[i] == s.handed[i];
    } else {
      assert Apply(s, step).handed == s.handed;
    }
  }

  /** IRPs are lost exactly in the runs that dispatch before the connectors are in place. */
  lemma {:induction false} LossExact(s: State, steps: seq<Step>)
    requires s.connected ==> s.registered
    ensures AllKept(Run(s, steps).handed) <==> AllKept(s.handed) && DispatchesConnected(s, steps)
    decreases |steps|
  {
    hide Apply, AllKept;
    if steps != [] {
      LossStep(s, steps[0]);
      LossExact(Apply(s, steps[0]), steps[1..]);
    }
  }

  lemma {:induction false} KeptIsAll(handed: seq<Handed>)
    requires AllKept(handed)
    ensures Concat(KeptOf, handed) == Concat(IrpOf, handed)
    decreases |handed|
  {
    if handed != [] {
      KeptIsAll(handed[1..]);
    }
  }

  /** Exactly-once, in-order delivery: what was pushed is what clients got, then what the JSON queue
      holds, then what is in flight, then what is still in the driver. */
  lemma InOrderDelivery(steps: seq<Step>)
    requires DispatchesConnected(INITIAL, steps)
    ensures var s := Run(INITIAL, steps);
            ExportAll(s.pushed) == s.delivered + s.json + InFlight(s.broker) + ExportAll(s.queue)
  {
    hide Run, Concat;
    Conservation(steps);
    LossExact(INITIAL, steps);
    KeptIsAll(Run(INITIAL, steps).handed);
  }

  lemma {:induction false} ConnectedStays(s: State, steps: seq<Step>)
    requires s.connected
    ensures DispatchesConnected(s, steps)
    decreases |steps|
  {
    hide QueueSize, Parse, OnePop, Dropped;
    if steps != [] {
      ConnectedStays(Apply(s, steps[0]), steps[1..]);
    }
  }

  /** Whatever happens after the connectors are set up, nothing is lost. */
  lemma ConnectedFirst(steps: seq<Step>)
    ensures DispatchesConnected(INITIAL, [RegisterCallback, AddConnectors] + steps)
  {
    hide Apply;
    var all := [RegisterCallback, AddConnectors] + steps;
    var s1, s2 := Apply(INITIAL, RegisterCallback), Apply(Apply(INITIAL, RegisterCallback), AddConnectors);
    assert all[1..][0] == AddConnectors && all[1..][1..] == steps;
    SetUpConnects();
    ConnectedStays(s2, steps);
  }

  lemma SetUpConnects()
    ensures Apply(Apply(INITIAL, RegisterCallback), AddConnectors).connected
  {
  }

  // ----- the lost wake-up -----

  /** IRPs are queued, but nothing will tell the broker: it is not reading, and the event is not signalled. */
  ghost predicate Stalled(s: State) {
    s.queue != [] && !s.signalled && !s.broker.Polling? && !s.broker.Copying?
  }

  /** A step that leaves an IRP queued and the event unsignalled, with no read to come: a push before
      the event is installed; or a reset of the event over a queue that is not empty, at the end of
      a read during which something was pushed, or by a read that fails although the buffer is
      large enough. */
  ghost predicate Forgets(s: State, step: Step) {
    match step
    case Push(_) => !s.installed
    case FinishRead => s.queue != [] && s.broker.Copying? && |s.broker.popped| >= s.broker.number
    case Read(mapped) =>
      s.queue != [] && s.broker.Polling? && s.broker.length >= QueueSize(s.queue) && !mapped
    case _ => false
  }

  /** One step: a stall begins with a step that forgets, and ends with a push that is heard. */
  lemma StallStep(s: State, step: Step)
    requires Inv(s)
    ensures Stalled(Apply(s, step)) <==> Forgets(s, step) || (Stalled(s) && !step.Push?)
  {
    hide Serialise, ExportAll, QueueSize, Concat, Parse, OnePop;
    if step.PopOne? && s.broker.Copying? && |s.broker.popped| < s.broker.number {
      PopSucceeds(s);
    }
  }

  /** Some step forgets, and no push comes after it. */
  ghost predicate ForgotLast(s: State, steps: seq<Step>) {
    exists k :: 0 <= k < |steps| && Forgets(Run(s, steps[..k]), steps[k])
      && forall j | k < j < |steps| :: !steps[j].Push?
  }

  ghost predicate NoPush(steps: seq<Step>) {
    forall j | 0 <= j < |steps| :: !steps[j].Push?
  }

  lemma ForgotLastStep(s: State, steps: seq<Step>, last: Step)
    ensures ForgotLast(s, steps + [last]) <==> Forgets(Run(s, steps), last) || (ForgotLast(s, steps) && !last.Push?)
  {
    hide Run, Forgets;
    var all := steps + [last];
    assert all[..|steps|] == steps && all[|steps|] == last;
    assert forall k | 0 <= k < |steps| :: all[..k] == steps[..k] && all[k] == steps[k];
    if ForgotLast(s, steps) && !last.Push? {
      var k :| 0 <= k < |steps| && Forgets(Run(s, steps[..k]), steps[k])
               && forall j | k < j < |steps| :: !steps[j].Push?;
      assert Forgets(Run(s, all[..k]), all[k]);
    }
    if Forgets(Run(s, steps), last) {
      assert Forgets(Run(s, all[..|steps|]), all[|steps|]);
    }
  }

  lemma {:induction false} StallFrom(s: State, steps: seq<Step>)
    requires Inv(s)
    ensures Stalled(Run(s, steps)) <==> ForgotLast(s, steps) || (Stalled(s) && NoPush(steps))
    decreases |steps|
  {
    hide Inv, Apply, Stalled, Forgets, ForgotLast;
    if steps == [] {
      NothingForgot(s);
    } else {
      var before, last := steps[..|steps| - 1], steps[|steps| - 1];
      assert before + [last] == steps;
      StallFrom(s, before);
      RunKeeps(s, before);
      StallStep(Run(s, before), last);
      ForgotLastStep(s, before, last);
      RunLast(s, before, last);
    }
  }

  lemma NothingForgot(s: State)
    ensures !ForgotLast(s, [])
  {
  }

  lemma RunLast(s: State, steps: seq<Step>, last: Step)
    ensures Run(s, steps + [last]) == Apply(Run(s, steps), last)
  {
    hide Apply;
    RunAppend(s, steps, [last]);
    assert [last][1..] == [];
  }

  /** A run ends in a stall exactly if one of its steps forgets an IRP and no push comes after it. */
  lemma StallExact(steps: seq<Step>)
    ensures Stalled(Run(INITIAL, steps)) <==> ForgotLast(INITIAL, steps)
  {
    hide Run, ForgotLast;
    Started();
    StallFrom(INITIAL, steps);
  }

  /** Until the next push the queue stays as it is and the broker does not read it. */
  lemma {:induction false} StalledUntilPush(s: State, steps: seq<Step>)
    requires Stalled(s) && NoPush(steps)
    ensures Stalled(Run(s, steps)) && Run(s, steps).queue == s.queue
    decreases |steps|
  {
    hide QueueSize, Parse;
    if steps != [] {
      StalledUntilPush(Apply(s, steps[0]), steps[1..]);
    }
  }

  lemma {:induction false} RunAppend(s: State, a: seq<Step>, b: seq<Step>)
    ensures Run(s, a + b) == Run(Run(s, a), b)
    decreases |a|
  {
    hide Apply;
    if a == [] {
      assert a + b == b;
    } else {
      assert (a + b)[0] == a[0] && (a + b)[1..] == a[1..] + b;
      RunAppend(Apply(s, a[0]), a[1..], b);
    }
  }

  /** Reads from attempt k on until one finds the buffer large enough; that one may fail. */
  ghost function Reads(s: State, k: nat, mapped: bool): (steps: seq<Step>)
    requires k < 32 && s.broker == Polling(AttemptLength(k)) && QueueSize(s.queue) <= 0x8000_0000
    ensures Run(s, steps) == if mapped then s.(broker := Copying(QueueSize(s.queue), |s.queue|, [], []))
                             else s.(broker := Waiting, signalled := false)
    decreases 32 - k
  {
    hide QueueSize;
    HighestPower();
    AttemptLengths(k);
    if AttemptLength(k) >= QueueSize(s.queue) then [Read(mapped)]
    else
      var next := Apply(s, Read(mapped));
      var rest := Reads(next, k + 1, mapped);
      assert ([Read(mapped)] + rest)[1..] == rest;
      [Read(mapped)] + rest
  }

  lemma RunTwo(s: State, a: Step, b: Step)
    ensures Run(s, [a, b]) == Apply(Apply(s, a), b)
  {
    hide Apply;
    assert [a, b][1..] == [b] && [b][1..] == [];
    assert Run(Apply(s, a), [b]) == Run(Apply(Apply(s, a), b), []);
  }

  /** One IRP is being copied and another is pushed before the broker resets the event. */
  lemma LatePush(s: State, a: QueuedIrp, b: QueuedIrp, steps: seq<Step>)
    requires Inv(s) && s.broker == Copying(QueueSize([a]), 1, [], []) && s.queue == [a] && s.connected
    requires steps == [Push(b), PopOne, FinishRead, Dispatch, FinishBatch]
    ensures Stalled(Run(s, steps)) && Run(s, steps).broker == Waiting
    ensures Run(s, steps).queue == [b] && Run(s, steps).json == s.json + [Export(a)]
  {
    hide QueueSize, Parse, Serialise, ExportAll, OnePop, RecordBytes, Inv;
    var s1 := Apply(s, Push(b));
    StepKeeps(s, Push(b));
    OnTrack(s1);
    PopSucceeds(s1);
    var s2 := Apply(s1, PopOne);
    assert [a, b][1..] == [b] && [] + [a] == [a];
    OneRecord(a);
    var s3 := Apply(s2, FinishRead);
    assert s3.broker == Dispatching([Export(a)]);
    var s4 := Apply(s3, Dispatch);
    assert s4.broker == Dispatching([]);
    var s5 := Apply(s4, FinishBatch);
    RunFive(s, Push(b), PopOne, FinishRead, Dispatch, FinishBatch);
  }

  lemma OnTrack(s: State)
    requires Inv(s)
    ensures CopyOnTrack(s) && (s.connected ==> s.registered)
  {
  }

  lemma OneRecord(a: QueuedIrp)
    ensures Parse([] + RecordBytes(Export(a))) == [Export(a)]
  {
    hide Parse, FirstRecord, RecordBytes;
    RoundTrip([a]);
    SerialiseOne([], a);
    assert [] + [a] == [a] && ExportAll([a]) == [Export(a)];
    assert Serialise(ExportAll([])) == [];
  }

  lemma RunFive(s: State, a: Step, b: Step, c: Step, d: Step, e: Step)
    ensures Run(s, [a, b, c, d, e]) == Apply(Apply(Apply(Apply(Apply(s, a), b), c), d), e)
  {
    hide Apply;
    assert [a, b, c, d, e] == [a, b] + [c, d] + [e];
    RunAppend(s, [a, b] + [c, d], [e]);
    RunAppend(s, [a, b], [c, d]);
    RunTwo(s, a, b);
    RunTwo(Run(s, [a, b]), c, d);
    assert [e][1..] == [];
  }

  /** An IRP captured after the event was installed, with or without the connectors in place. */
  lemma Captured(s: State, a: QueuedIrp)
    requires s.broker == Waiting && s.queue == []
    ensures Run(s, [InstallEvent, Push(a), Wake])
         == s.(installed := true, queue := [a], pushed := s.pushed + [a], signalled := true, broker := Polling(1))
  {
    hide QueueSize;
    assert [InstallEvent, Push(a), Wake] == [InstallEvent, Push(a)] + [Wake];
    RunLast(s, [InstallEvent, Push(a)], Wake);
    RunTwo(s, InstallEvent, Push(a));
    assert [] + [a] == [a];
  }

  /** The connectors are set up. */
  lemma SetUp()
    ensures Run(INITIAL, [RegisterCallback, AddConnectors]) == INITIAL.(registered := true, connected := true)
  {
    hide QueueSize;
    RunTwo(INITIAL, RegisterCallback, AddConnectors);
  }

  /** The steps that lead to a read of one IRP, from a state with nothing queued. */
  ghost function ReadOne(s: State, a: QueuedIrp, mapped: bool): (steps: seq<Step>)
    requires s.broker == Waiting && s.queue == [] && QueueSize([a]) <= 0x8000_0000
    ensures var r := s.(installed := true, queue := [a], pushed := s.pushed + [a]);
            Run(s, steps) == if mapped then r.(signalled := true, broker := Copying(QueueSize([a]), 1, [], []))
                             else r.(signalled := false, broker := Waiting)
  {
    hide QueueSize, Apply, Run;
    Captured(s, a);
    assert AttemptLength(0) == 1;
    var start := [InstallEvent, Push(a), Wake];
    var polls := Reads(Run(s, start), 0, mapped);
    RunAppend(s, start, polls);
    start + polls
  }

  /** A push during a read that succeeds leads to a stall with the connectors in place, for any two
      IRPs. */
  lemma StallReachable(a: QueuedIrp, b: QueuedIrp)
    requires QueueSize([a]) <= 0x8000_0000
    ensures exists steps :: var s := Run(INITIAL, steps);
              Stalled(s) && s.broker == Waiting && s.queue == [b] && s.json == [Export(a)]
  {
    hide QueueSize, Apply, Run, Inv;
    var setUp := [RegisterCallback, AddConnectors];
    SetUp();
    var reading := ReadOne(Run(INITIAL, setUp), a, true);
    var end := [Push(b), PopOne, FinishRead, Dispatch, FinishBatch];
    RunAppend(INITIAL, setUp, reading);
    RunAppend(INITIAL, setUp + reading, end);
    Started();
    RunKeeps(INITIAL, setUp + reading);
    LatePush(Run(INITIAL, setUp + reading), a, b, end);
    assert [] + [Export(a)] == [Export(a)];
    assert Stalled(Run(INITIAL, setUp + reading + end));
  }

  /** So does a single read that fails, for any IRP. */
  lemma FailedReadStalls(a: QueuedIrp)
    requires QueueSize([a]) <= 0x8000_0000
    ensures exists steps :: var s := Run(INITIAL, steps);
              Stalled(s) && s.broker == Waiting && s.queue == [a] == s.pushed
  {
    hide QueueSize, Apply, Run, Inv;
    var reading := ReadOne(INITIAL, a, false);
    assert [] + [a] == [a];
    assert Stalled(Run(INITIAL, reading));
  }

  /** So does an IRP captured before the event is installed, without any reset. */
  lemma UnheardStalls(a: QueuedIrp)
    ensures var s := Run(INITIAL, [Push(a), InstallEvent]);
            Stalled(s) && s.installed && s.queue == [a] == s.pushed
  {
    RunTwo(INITIAL, Push(a), InstallEvent);
    assert [] + [a] == [a];
  }

  /** A read of one IRP that ends without anything pushed meanwhile. */
  lemma ReadToEnd(s: State, a: QueuedIrp)
    requires Inv(s) && s.broker == Copying(QueueSize([a]), 1, [], []) && s.queue == [a]
    ensures Run(s, [PopOne, FinishRead]) == s.(queue := [], signalled := false, broker := Dispatching([Export(a)]))
  {
    hide QueueSize, Parse, Serialise, ExportAll, OnePop, RecordBytes, Inv;
    OnTrack(s);
    PopSucceeds(s);
    assert [] + [a] == [a];
    OneRecord(a);
    RunTwo(s, PopOne, FinishRead);
  }

  /** An IRP read before the dispatcher is registered is lost, although nothing failed. */
  lemma LossReachable(a: QueuedIrp)
    requires QueueSize([a]) <= 0x8000_0000
    ensures exists steps :: var s := Run(INITIAL, steps);
              && s.pushed == [a] && s.handed == [Handed(Export(a), false)]
              && s.queue == [] && s.broker == Dispatching([]) && s.json == [] && s.delivered == []
              && !DispatchesConnected(INITIAL, steps)
  {
    hide QueueSize, Run, Inv, DispatchesConnected;
    var reading := ReadOne(INITIAL, a, true);
    Started();
    RunKeeps(INITIAL, reading);
    assert [] + [a] == [a];
    var read := reading + [PopOne, FinishRead];
    RunAppend(INITIAL, reading, [PopOne, FinishRead]);
    ReadToEnd(Run(INITIAL, reading), a);
    RunLast(INITIAL, read, Dispatch);
    assert Dropped([Export(a)]) == [Handed(Export(a), false)] && [] + Dropped([Export(a)]) == Dropped([Export(a)]);
    var s := Run(INITIAL, read + [Dispatch]);
    assert s.handed == [Handed(Export(a), false)];
    assert !s.handed[0].kept;
    LossExact(INITIAL, read + [Dispatch]);
  }

  lemma Started()
    ensures Inv(INITIAL)
  {
  }
}
