/** How the broker's four manager threads wait for each other while they start. */
module Startup {
  // ----- the global state -----

  const UNINITIALIZED: nat := 1
  const SERVICE_MANAGER_READY: nat := 2
  const IRP_MANAGER_READY: nat := 3
  const ALL_MANAGER_READY: nat := 4
  const RUNNING: nat := 5
  const IRP_MANAGER_DONE: nat := 7
  const ALL_MANAGER_DONE: nat := 8
  const FINISHED: nat := 9

  /** What is stored for a state that is asked for. */
  function Stored(asked: nat): nat {
    if asked == ALL_MANAGER_READY then RUNNING
    else if asked == ALL_MANAGER_DONE then FINISHED
    else asked
  }

  // ----- waiting -----

  /** How a wait of ten seconds on the two events ends. */
  datatype Wake = TimedOut | StateChanged | Terminated

  /** One turn of the loop: the state it reads, and how its wait would end. */
  datatype Turn = Turn(state: nat, wake: Wake)

  datatype Exit = Reached | Notified | Stopped | StillWaiting

  /** Where a sequence of turns leads; only a time-out goes round again. */
  function Waited(wanted: nat, turns: seq<Turn>): Exit {
    if turns == [] then StillWaiting
    else if turns[0].state >= wanted then Reached
    else match turns[0].wake
      case TimedOut => Waited(wanted, turns[1..])
      case StateChanged => Notified
      case Terminated => Stopped
  }

  /** The wait ends in the first turn that sees the state or any event: a change of state ends it
      whatever the new state is. */
  lemma {:induction false} WaitExact(wanted: nat, turns: seq<Turn>, k: nat)
    requires k < |turns| && (turns[k].state >= wanted || turns[k].wake != TimedOut)
    requires forall j | 0 <= j < k :: turns[j].state < wanted && turns[j].wake == TimedOut
    ensures Waited(wanted, turns) == Reached <==> turns[k].state >= wanted
    ensures Waited(wanted, turns) == Notified <==> turns[k].state < wanted && turns[k].wake == StateChanged
    ensures Waited(wanted, turns) == Stopped <==> turns[k].state < wanted && turns[k].wake == Terminated
  {
    if k > 0 {
      assert turns[0].state < wanted && turns[0].wake == TimedOut;
      forall j | 0 <= j < k - 1 ensures turns[1..][j].state < wanted && turns[1..][j].wake == TimedOut {
        assert turns[1..][j] == turns[j + 1];
      }
      WaitExact(wanted, turns[1..], k - 1);
    }
  }

  lemma {:induction false} WaitForever(wanted: nat, turns: seq<Turn>)
    ensures Waited(wanted, turns) == StillWaiting
            <==> forall k | 0 <= k < |turns| :: turns[k].state < wanted && turns[k].wake == TimedOut
  {
    if turns != [] {
      if turns[0].state < wanted && turns[0].wake == TimedOut {
        WaitForever(wanted, turns[1..]);
        assert forall k | 1 <= k < |turns| :: turns[k] == turns[1..][k - 1];
      }
    }
  }

  class ManagerBase {
    var changedState: bool
    var shuttingDown: bool

    constructor ()
      ensures !changedState && !shuttingDown
    {
      changedState, shuttingDown := false, false;
    }

    method NotifyStateChange() returns (res: bool)
      modifies this`changedState
      ensures changedState && res
    {
      changedState := true;
      return true;
    }

    /** The shut-down mark is set by a change of state, and not by the termination event. */
    method WaitForState(wanted: nat, turns: seq<Turn>) returns (exit: Exit)
      modifies this`shuttingDown
      ensures exit == Waited(wanted, turns)
      ensures shuttingDown == (old(shuttingDown) || exit == Notified)
    {
      var n := 0;
      while n < |turns|
        invariant n <= |turns| && shuttingDown == old(shuttingDown)
        invariant Waited(wanted, turns) == Waited(wanted, turns[n..])
      {
        if turns[n].state >= wanted {
          return Reached;
        }
        if turns[n].wake == TimedOut {
          n := n + 1;
          continue;
        }
        if turns[n].wake == Terminated {
          return Stopped;
        }
        shuttingDown := true;
        return Notified;
      }
      return StillWaiting;
    }
  }

  class GlobalContext {
    var state: nat
    const serviceManager: ManagerBase
    const connectorManager: ManagerBase
    const irpManager: ManagerBase
    const driverManager: ManagerBase

    constructor ()
      ensures state == UNINITIALIZED
    {
      state := UNINITIALIZED;
      serviceManager := new ManagerBase();
      connectorManager := new ManagerBase();
      irpManager := new ManagerBase();
      driverManager := new ManagerBase();
    }

    /** Stores even a smaller state, with a warning and a false result, and then tells everyone. */
    method SetState(asked: nat) returns (res: bool)
      modifies this`state, serviceManager`changedState, connectorManager`changedState,
               irpManager`changedState, driverManager`changedState
      ensures state == (if asked == 4 then 5 else if asked == 8 then 9 else asked) && res == (state >= old(state))
      ensures serviceManager.changedState && connectorManager.changedState
      ensures irpManager.changedState && driverManager.changedState
    {
      var newState := asked;
      if newState == ALL_MANAGER_READY {
        newState := RUNNING;
      }
      if newState == ALL_MANAGER_DONE {
        newState := FINISHED;
      }
      res := true;
      if newState < state {
        res := false;
      }
      state := newState;
      var told := serviceManager.NotifyStateChange();
      res := res && told;
      told := connectorManager.NotifyStateChange();
      res := res && told;
      told := irpManager.NotifyStateChange();
      res := res && told;
      told := driverManager.NotifyStateChange();
      res := res && told;
    }
  }

  // ----- the four threads -----

  datatype Manager = Service | Connector | Irp | Driver

  /** Where a thread is: before its first wait, after it, with its set-up work done, telling the
      managers of the state it stored, before and after the wait of its run, at the end, or failed. */
  datatype Pc = Start | Passed | Prepared | Notifying(told: nat) | Ready | Looping | Done | Failed
  {
    predicate Stored() {
      Notifying? || Ready? || Looping? || Done?
    }
  }

  const EVERYONE: set<Manager> := {Service, Connector, Irp, Driver}

  datatype Threads = Threads(service: Pc, connector: Pc, irp: Pc, driver: Pc)
  {
    function Of(m: Manager): Pc {
      match m
      case Service => service
      case Connector => connector
      case Irp => irp
      case Driver => driver
    }

    function With(m: Manager, pc: Pc): Threads {
      match m
      case Service => this.(service := pc)
      case Connector => this.(connector := pc)
      case Irp => this.(irp := pc)
      case Driver => this.(driver := pc)
    }
  }

  /** `history` lists the states stored; `signalled` the managers whose event is set. */
  datatype Broker = Broker(state: nat, history: seq<nat>, loaded: bool, registered: bool,
                           signalled: set<Manager>, pcs: Threads)

  const INITIAL := Broker(UNINITIALIZED, [UNINITIALIZED], false, false, {}, Threads(Start, Start, Start, Start))

  /** A notification event is never reset, so a wait ends as soon as either holds. */
  predicate WaitPasses(b: Broker, m: Manager, wanted: nat) {
    b.state >= wanted || m in b.signalled
  }

  function FirstWanted(m: Manager): nat {
    if m == Connector then IRP_MANAGER_READY else SERVICE_MANAGER_READY
  }

  function Asked(m: Manager): nat {
    match m
    case Service => SERVICE_MANAGER_READY
    case Connector => ALL_MANAGER_READY
    case Irp => IRP_MANAGER_READY
    case Driver => UNINITIALIZED
  }

  /** The order in which `SetState` tells the managers. */
  function Told(n: nat): Manager {
    if n == 0 then Service else if n == 1 then Connector else if n == 2 then Irp else Driver
  }

  datatype Step =
    | Load(ok: bool)
    | FirstWait(m: Manager)
    | Prepare(m: Manager, ok: bool)
    | Store(m: Manager)
    | Notify(m: Manager)
    | RunWait(m: Manager)
    | LastWait

  /** One atomic action of one thread; an action its thread is not at, or a wait that does not
      pass, changes nothing. */
  function Next(b: Broker, step: Step): Broker {
    match step
    case Load(ok) =>
      if b.pcs.service != Start then b
      else if ok then b.(loaded := true, pcs := b.pcs.With(Service, Prepared))
      else b.(pcs := b.pcs.With(Service, Failed))
    case FirstWait(m) =>
      if m != Service && b.pcs.Of(m) == Start && WaitPasses(b, m, FirstWanted(m))
      then b.(pcs := b.pcs.With(m, Passed)) else b
    case Prepare(m, ok) =>
      if b.pcs.Of(m) != Passed then b
      else if !ok then b.(pcs := b.pcs.With(m, Failed))
      else if m == Driver then b.(pcs := b.pcs.With(m, Ready))
      else b.(registered := b.registered || m == Connector, pcs := b.pcs.With(m, Prepared))
    case Store(m) =>
      if b.pcs.Of(m) != Prepared then b
      else b.(state := Stored(Asked(m)), history := b.history + [Stored(Asked(m))],
              pcs := b.pcs.With(m, Notifying(0)))
    case Notify(m) =>
      var pc := b.pcs.Of(m);
      if !pc.Notifying? then b
      else b.(signalled := b.signalled + {Told(pc.told)},
              pcs := b.pcs.With(m, if pc.told >= 3 then Ready else Notifying(pc.told + 1)))
    case RunWait(m) =>
      if b.pcs.Of(m) == Ready && WaitPasses(b, m, RUNNING) then b.(pcs := b.pcs.With(m, Looping)) else b
    case LastWait =>
      if b.pcs.service == Looping && WaitPasses(b, Service, IRP_MANAGER_DONE)
      then b.(pcs := b.pcs.With(Service, Done)) else b
  }

  function Run(b: Broker, steps: seq<Step>): Broker
    decreases |steps|
  {
    if steps == [] then b else Run(Next(b, steps[0]), steps[1..])
  }

  // ----- what the steps are, written out -----

  /** A first wait lets the connector manager through from 3 on and the others from 2 on, or anyone
      whose event is set. */
  lemma FirstWaitPasses(b: Broker, m: Manager)
    requires m != Service && b.pcs.Of(m) == Start
    ensures Next(b, FirstWait(m)).pcs.Of(m) == Passed
            <==> (if m == Connector then b.state >= 3 else b.state >= 2) || m in b.signalled
  {
  }

  /** The second waits want 5, the service manager's last one wants 7. */
  lemma RunWaitPasses(b: Broker, m: Manager)
    ensures b.pcs.Of(m) == Ready ==>
              (Next(b, RunWait(m)).pcs.Of(m) == Looping <==> b.state >= 5 || m in b.signalled)
    ensures b.pcs.service == Looping ==>
              (Next(b, LastWait).pcs.service == Done <==> b.state >= 7 || Service in b.signalled)
  {
  }

  /** What is stored, and who is told in which order. */
  lemma StoresAndTells(b: Broker, m: Manager)
    ensures b.pcs.Of(m) == Prepared ==>
              var n := Next(b, Store(m));
              n.pcs.Of(m) == Notifying(0) &&
              match m
              case Service => n.state == 2 && n.history == b.history + [2]
              case Connector => n.state == 5 && n.history == b.history + [5]
              case Irp => n.state == 3 && n.history == b.history + [3]
              case Driver => true
    ensures b.pcs.Of(m).Notifying? && b.pcs.Of(m).told < 4 ==>
              var n := Next(b, Notify(m));
              match b.pcs.Of(m).told
              case 0 => n.signalled == b.signalled + {Service} && n.pcs.Of(m) == Notifying(1)
              case 1 => n.signalled == b.signalled + {Connector} && n.pcs.Of(m) == Notifying(2)
              case 2 => n.signalled == b.signalled + {Irp} && n.pcs.Of(m) == Notifying(3)
              case _ => n.signalled == b.signalled + {Driver} && n.pcs.Of(m) == Ready
  {
  }

  /** Loading and set-up work, when they succeed and when they fail. */
  lemma SetUpSteps(b: Broker, m: Manager, ok: bool)
    ensures b.pcs.service == Start ==>
              Next(b, Load(ok)) == b.(loaded := ok || b.loaded,
                                      pcs := b.pcs.(service := if ok then Prepared else Failed))
    ensures b.pcs.Of(m) == Passed ==>
              var pc := if !ok then Failed else if m == Driver then Ready else Prepared;
              Next(b, Prepare(m, ok)) == b.(registered := b.registered || (ok && m == Connector),
                                            pcs := b.pcs.With(m, pc))
  {
  }

  // ----- what every run keeps -----

  /** The stored states are given by which of the three threads have stored theirs. */
  predicate HistoryOk(b: Broker) {
    var s, c, i := b.pcs.service.Stored(), b.pcs.connector.Stored(), b.pcs.irp.Stored();
    && (c || i ==> s)
    && (!s ==> b.history == [1])
    && (s && !c && !i ==> b.history == [1, 2])
    && (i && !c ==> b.history == [1, 2, 3])
    && (c && !i ==> b.history == [1, 2, 5])
    && (c && i ==> b.history == [1, 2, 3, 5] || b.history == [1, 2, 5, 3])
    && b.state == b.history[|b.history| - 1]
  }

  /** Nobody leaves the start before the service manager has stored its state. */
  predicate WaitsOk(b: Broker) {
    && (!b.pcs.service.Stored() ==>
         b.signalled == {} && b.pcs.connector == Start && b.pcs.irp == Start && b.pcs.driver == Start)
    && (b.loaded <==> b.pcs.service != Start && b.pcs.service != Failed)
    && !b.pcs.service.Passed? && !b.pcs.driver.Prepared? && !b.pcs.driver.Notifying?
    && !b.pcs.connector.Done? && !b.pcs.irp.Done? && !b.pcs.driver.Done?
  }

  /** A thread that has told n managers has set their events; past that it has set all four. */
  predicate SignalsOk(b: Broker, m: Manager) {
    && (b.pcs.Of(m).Notifying? ==>
         b.pcs.Of(m).told < 4 && forall k: nat | k < b.pcs.Of(m).told :: Told(k) in b.signalled)
    && (m != Driver && (b.pcs.Of(m).Ready? || b.pcs.Of(m).Looping? || b.pcs.Of(m).Done?) ==>
         b.signalled == EVERYONE)
  }

  predicate RegisteredOk(b: Broker) {
    b.pcs.connector.Prepared? || b.pcs.connector.Stored() ==> b.registered
  }

  ghost predicate Inv(b: Broker) {
    HistoryOk(b) && WaitsOk(b) && (forall m :: SignalsOk(b, m)) && RegisteredOk(b)
  }

  /** Only a store moves a thread past its store. */
  lemma StoredSame(b: Broker, step: Step, m: Manager)
    requires !step.Store? && WaitsOk(b)
    ensures m != Driver ==> Next(b, step).pcs.Of(m).Stored() == b.pcs.Of(m).Stored()
    ensures Next(b, step).history == b.history && Next(b, step).state == b.state
  {
  }

  lemma NextHistory(b: Broker, step: Step)
    requires HistoryOk(b) && WaitsOk(b)
    ensures HistoryOk(Next(b, step))
  {
    if step.Store? {
      StoreHistory(b, step.m);
    } else {
      hide Next;
      StoredSame(b, step, Service);
      StoredSame(b, step, Connector);
      StoredSame(b, step, Irp);
    }
  }

  lemma StoreHistory(b: Broker, m: Manager)
    requires HistoryOk(b) && WaitsOk(b)
    ensures HistoryOk(Next(b, Store(m)))
  {
  }

  lemma NextWaits(b: Broker, step: Step)
    requires HistoryOk(b) && WaitsOk(b)
    ensures WaitsOk(Next(b, step))
  {
    if step.FirstWait? {
      FirstWaitWaits(b, step.m);
    } else {
      hide HistoryOk, WaitPasses;
    }
  }

  lemma FirstWaitWaits(b: Broker, m: Manager)
    requires HistoryOk(b) && WaitsOk(b)
    ensures WaitsOk(Next(b, FirstWait(m)))
  {
  }

  lemma NextRegistered(b: Broker, step: Step)
    requires RegisteredOk(b)
    ensures RegisteredOk(Next(b, step))
  {
    hide WaitPasses;
  }

  lemma AllTold(signalled: set<Manager>)
    requires forall k: nat | k < 4 :: Told(k) in signalled
    ensures signalled == EVERYONE
  {
    assert Told(0) in signalled && Told(1) in signalled && Told(2) in signalled && Told(3) in signalled;
    forall m: Manager ensures m in EVERYONE {
      match m case Service => case Connector => case Irp => case Driver =>
    }
  }

  /** The events only grow, and a thread that is not notifying keeps its part. */
  lemma SignalsGrow(b: Broker, step: Step)
    ensures b.signalled <= Next(b, step).signalled
    ensures b.signalled == EVERYONE ==> Next(b, step).signalled == EVERYONE
  {
    hide WaitPasses;
  }

  lemma NextSignals(b: Broker, step: Step, m: Manager)
    requires SignalsOk(b, m)
    ensures SignalsOk(Next(b, step), m)
  {
    if step == Notify(m) {
      NotifySignals(b, m);
    } else {
      hide Next;
      SignalsGrow(b, step);
      OtherSteps(b, step, m);
    }
  }

  /** A thread begins and goes on notifying, and becomes ready, in its own steps. */
  lemma OtherSteps(b: Broker, step: Step, m: Manager)
    requires step != Notify(m)
    ensures var was, now := b.pcs.Of(m), Next(b, step).pcs.Of(m);
            && (now.Notifying? ==> now == was || now.told == 0)
            && (m != Driver && (now.Ready? || now.Looping? || now.Done?) ==> was.Ready? || was.Looping? || was.Done?)
  {
    hide WaitPasses;
  }

  lemma NotifySignals(b: Broker, m: Manager)
    requires SignalsOk(b, m)
    ensures SignalsOk(Next(b, Notify(m)), m)
  {
    var n := Next(b, Notify(m));
    if b.pcs.Of(m).Notifying? && b.pcs.Of(m).told == 3 {
      AllTold(n.signalled);
    }
  }

  lemma InvNext(b: Broker, step: Step)
    requires Inv(b)
    ensures Inv(Next(b, step)) && HistoryOk(b) && WaitsOk(b)
  {
    hide Next, HistoryOk, WaitsOk, SignalsOk, RegisteredOk;
    NextHistory(b, step);
    NextWaits(b, step);
    NextRegistered(b, step);
    forall m ensures SignalsOk(Next(b, step), m) {
      NextSignals(b, step, m);
    }
  }

  lemma {:induction false} RunKeeps(b: Broker, steps: seq<Step>)
    requires Inv(b)
    ensures Inv(Run(b, steps))
    decreases |steps|
  {
    hide Next, Inv;
    if steps != [] {
      InvNext(b, steps[0]);
      RunKeeps(Next(b, steps[0]), steps[1..]);
    }
  }

  lemma InitialOk()
    ensures Inv(INITIAL)
  {
  }

  /** In every interleaving: the stored states are a prefix of 1,2,3,5 or of 1,2,5,3, the last one
      is the global state, and no other thread gets past its first wait before the driver is loaded
      and 2 is stored. If the driver cannot be loaded, the other three wait for ever. */
  lemma StartupOrder(steps: seq<Step>)
    ensures var b := Run(INITIAL, steps);
            && (b.history <= [1, 2, 3, 5] || b.history <= [1, 2, 5, 3])
            && |b.history| > 0 && b.state == b.history[|b.history| - 1]
            && (forall m | m != Service && b.pcs.Of(m) != Start :: b.loaded && [1, 2] <= b.history)
            && (b.pcs.service == Failed ==> forall m | m != Service :: b.pcs.Of(m) == Start)
  {
    hide Run;
    InitialOk();
    RunKeeps(INITIAL, steps);
  }

  /** The connector manager has passed its first wait only for one of its two reasons. */
  ghost predicate ConnectorOk(b: Broker) {
    b.pcs.connector != Start ==> 3 in b.history || Connector in b.signalled
  }

  lemma NextConnector(b: Broker, step: Step)
    requires HistoryOk(b) && ConnectorOk(b)
    ensures ConnectorOk(Next(b, step))
  {
    hide Next, HistoryOk;
    if step == FirstWait(Connector) {
      ConnectorPasses(b);
    } else {
      StillThere(b, step);
    }
  }

  /** What was stored and who was told stays, and only its own wait lets a thread leave its start. */
  lemma StillThere(b: Broker, step: Step)
    requires step != FirstWait(Connector)
    ensures var n := Next(b, step);
            && b.history <= n.history && b.signalled <= n.signalled
            && (b.pcs.connector == Start ==> n.pcs.connector == Start)
  {
    hide WaitPasses;
  }

  lemma ConnectorPasses(b: Broker)
    requires HistoryOk(b) && ConnectorOk(b)
    ensures ConnectorOk(Next(b, FirstWait(Connector)))
  {
    assert b.history[|b.history| - 1] in b.history;
  }

  lemma {:induction false} ConnectorFrom(b: Broker, steps: seq<Step>)
    requires Inv(b) && ConnectorOk(b)
    ensures ConnectorOk(Run(b, steps))
    decreases |steps|
  {
    hide Inv, Next, ConnectorOk;
    if steps != [] {
      InvNext(b, steps[0]);
      NextConnector(b, steps[0]);
      ConnectorFrom(Next(b, steps[0]), steps[1..]);
    }
  }

  /** In every run the connector manager is past its first wait only if 3 was stored or its own event
      was set. */
  lemma ConnectorWaits(steps: seq<Step>)
    ensures var b := Run(INITIAL, steps); b.pcs.connector != Start ==> 3 in b.history || Connector in b.signalled
  {
    hide Run;
    InitialOk();
    ConnectorFrom(INITIAL, steps);
  }

  /** Once the service manager has told everyone of its state, no wait for any state blocks any
      thread again: the waits for Running do not wait. */
  lemma WaitsOpen(steps: seq<Step>, m: Manager, wanted: nat)
    requires Run(INITIAL, steps).pcs.service in {Ready, Looping, Done}
    ensures WaitPasses(Run(INITIAL, steps), m, wanted)
  {
    hide Run, HistoryOk, WaitsOk;
    InitialOk();
    RunKeeps(INITIAL, steps);
    assert SignalsOk(Run(INITIAL, steps), Service);
    assert m in EVERYONE by {
      match m case Service => case Connector => case Irp => case Driver =>
    }
  }

  /** `SetState` as its five steps: one store, then the four events. */
  function SetStateSteps(m: Manager): seq<Step> {
    [Store(m), Notify(m), Notify(m), Notify(m), Notify(m)]
  }

  /** Without other threads between them they have the effect of the method. */
  lemma SetStateAtOnce(b: Broker, m: Manager, more: seq<Step>)
    requires b.pcs.Of(m) == Prepared
    ensures Run(b, SetStateSteps(m) + more)
         == Run(b.(state := Stored(Asked(m)), history := b.history + [Stored(Asked(m))],
                   signalled := EVERYONE, pcs := b.pcs.With(m, Ready)), more)
  {
    var b1 := Next(b, Store(m));
    var b2 := Next(b1, Notify(m));
    var b3 := Next(b2, Notify(m));
    var b4 := Next(b3, Notify(m));
    var b5 := Next(b4, Notify(m));
    FourTold(b, m);
    FiveSteps(b, Store(m), Notify(m), Notify(m), Notify(m), Notify(m), more);
  }

  lemma FourTold(b: Broker, m: Manager)
    requires b.pcs.Of(m) == Prepared
    ensures Next(Next(Next(Next(Next(b, Store(m)), Notify(m)), Notify(m)), Notify(m)), Notify(m))
         == b.(state := Stored(Asked(m)), history := b.history + [Stored(Asked(m))],
               signalled := EVERYONE, pcs := b.pcs.With(m, Ready))
  {
    hide Stored;
    var signalled := b.signalled + {Told(0)} + {Told(1)} + {Told(2)} + {Told(3)};
    AllTold(signalled);
  }

  lemma OneStep(b: Broker, step: Step, more: seq<Step>)
    ensures Run(b, [step] + more) == Run(Next(b, step), more)
  {
    assert ([step] + more)[1..] == more;
  }

  lemma FiveSteps(b: Broker, s1: Step, s2: Step, s3: Step, s4: Step, s5: Step, more: seq<Step>)
    ensures Run(b, [s1, s2, s3, s4, s5] + more) == Run(Next(Next(Next(Next(Next(b, s1), s2), s3), s4), s5), more)
  {
    hide Next, Run;
    assert [s1, s2, s3, s4, s5] + more == [s1] + ([s2] + ([s3] + ([s4] + ([s5] + more))));
    OneStep(b, s1, [s2] + ([s3] + ([s4] + ([s5] + more))));
    OneStep(Next(b, s1), s2, [s3] + ([s4] + ([s5] + more)));
    OneStep(Next(Next(b, s1), s2), s3, [s4] + ([s5] + more));
    OneStep(Next(Next(Next(b, s1), s2), s3), s4, [s5] + more);
    OneStep(Next(Next(Next(Next(b, s1), s2), s3), s4), s5, more);
  }

  const SERVICE_READY := Broker(2, [1, 2], true, false, EVERYONE, Threads(Ready, Start, Start, Start))

  /** The service manager alone. */
  lemma ServiceFirst(more: seq<Step>)
    ensures Run(INITIAL, [Load(true)] + (SetStateSteps(Service) + more)) == Run(SERVICE_READY, more)
  {
    hide Run;
    OneStep(INITIAL, Load(true), SetStateSteps(Service) + more);
    var b := Next(INITIAL, Load(true));
    SetStateAtOnce(b, Service, more);
    assert b.history + [2] == [1, 2] && b.pcs.With(Service, Ready) == SERVICE_READY.pcs;
    assert b.(state := 2, history := b.history + [2], signalled := EVERYONE, pcs := b.pcs.With(Service, Ready))
        == SERVICE_READY;
  }

  /** One manager's set-up work, up to its store. */
  lemma SetUp(b: Broker, m: Manager, more: seq<Step>)
    requires m == Connector || m == Irp
    requires b.pcs.Of(m) == Start && m in b.signalled
    ensures Run(b, [FirstWait(m)] + ([Prepare(m, true)] + (SetStateSteps(m) + more)))
         == Run(b.(state := Stored(Asked(m)), history := b.history + [Stored(Asked(m))], signalled := EVERYONE,
                   registered := b.registered || m == Connector, pcs := b.pcs.With(m, Ready)), more)
  {
    hide Run, SetStateSteps;
    OneStep(b, FirstWait(m), [Prepare(m, true)] + (SetStateSteps(m) + more));
    OneStep(Next(b, FirstWait(m)), Prepare(m, true), SetStateSteps(m) + more);
    SetStateAtOnce(Next(Next(b, FirstWait(m)), Prepare(m, true)), m, more);
  }

  // ----- when the state goes back, and when the loop starts too early -----

  /** The IRP manager stores its state after the connector manager has. */
  ghost predicate GoesBack(b: Broker, step: Step) {
    step == Store(Irp) && b.pcs.irp == Prepared && b.pcs.connector.Stored()
  }

  /** The IRP manager's thread goes from its set-up to its loop before a dispatcher is registered. */
  ghost predicate StartsEarly(b: Broker, step: Step) {
    step == RunWait(Irp) && b.pcs.irp == Ready && !b.registered
  }

  ghost predicate Early(b: Broker) {
    b.pcs.irp == Looping && !b.registered
  }

  /** The state never falls in any other step. */
  lemma GoesBackStep(b: Broker, step: Step)
    requires HistoryOk(b) && WaitsOk(b)
    ensures Next(b, step).state < b.state <==> GoesBack(b, step)
    ensures Next(b, step).history == [1, 2, 5, 3] <==> b.history == [1, 2, 5, 3] || GoesBack(b, step)
  {
    if step.Store? {
      StoreGoesBack(b, step.m);
    } else {
      hide Next;
      StoredSame(b, step, Service);
    }
  }

  lemma StoreGoesBack(b: Broker, m: Manager)
    requires HistoryOk(b) && WaitsOk(b)
    ensures Next(b, Store(m)).state < b.state <==> GoesBack(b, Store(m))
    ensures Next(b, Store(m)).history == [1, 2, 5, 3] <==> b.history == [1, 2, 5, 3] || GoesBack(b, Store(m))
  {
    var n := Next(b, Store(m)).history;
    if m == Connector && b.pcs.connector == Prepared && b.pcs.irp.Stored() {
      assert n[2] == 3;
    }
  }

  /** Nothing holds the loop back: its wait for Running passes as soon as the thread is there. */
  lemma StartsEarlyStep(b: Broker, step: Step)
    requires Inv(b)
    ensures Early(Next(b, step)) && !Early(b) <==> StartsEarly(b, step)
  {
    hide HistoryOk, WaitsOk;
    assert SignalsOk(b, Irp);
    if step == RunWait(Irp) {
    } else {
      hide Next;
      StaysPut(b, step);
    }
  }

  lemma StaysPut(b: Broker, step: Step)
    requires step != RunWait(Irp)
    ensures Next(b, step).pcs.irp == Looping <==> b.pcs.irp == Looping
    ensures b.registered ==> Next(b, step).registered
  {
    hide WaitPasses;
  }

  ghost predicate SomewhereBack(b: Broker, steps: seq<Step>)
    decreases |steps|
  {
    steps != [] && (GoesBack(b, steps[0]) || SomewhereBack(Next(b, steps[0]), steps[1..]))
  }

  ghost predicate SomewhereEarly(b: Broker, steps: seq<Step>)
    decreases |steps|
  {
    steps != [] && (StartsEarly(b, steps[0]) || SomewhereEarly(Next(b, steps[0]), steps[1..]))
  }

  lemma {:induction false} BackFrom(b: Broker, steps: seq<Step>)
    requires Inv(b)
    ensures Run(b, steps).history == [1, 2, 5, 3] <==> b.history == [1, 2, 5, 3] || SomewhereBack(b, steps)
    decreases |steps|
  {
    hide Inv, Next, GoesBack;
    if steps != [] {
      InvNext(b, steps[0]);
      GoesBackStep(b, steps[0]);
      BackFrom(Next(b, steps[0]), steps[1..]);
    }
  }

  /** The state ends at 3 after having been Running exactly in the interleavings in which the IRP
      manager stores its state after the connector manager has stored its own. */
  lemma BackExact(steps: seq<Step>)
    ensures Run(INITIAL, steps).history == [1, 2, 5, 3] <==> SomewhereBack(INITIAL, steps)
  {
    hide Run, SomewhereBack;
    InitialOk();
    BackFrom(INITIAL, steps);
  }

  /** At some point of the run the loop is running without a dispatcher. */
  ghost predicate EverEarly(b: Broker, steps: seq<Step>)
    decreases |steps|
  {
    Early(b) || (steps != [] && EverEarly(Next(b, steps[0]), steps[1..]))
  }

  lemma {:induction false} EarlyFrom(b: Broker, steps: seq<Step>)
    requires Inv(b)
    ensures EverEarly(b, steps) <==> Early(b) || SomewhereEarly(b, steps)
    decreases |steps|
  {
    hide Inv, Next, StartsEarly, Early;
    if steps != [] {
      InvNext(b, steps[0]);
      StartsEarlyStep(b, steps[0]);
      EarlyFrom(Next(b, steps[0]), steps[1..]);
    }
  }

  /** The loop runs without a dispatcher exactly in the interleavings in which the IRP manager's
      thread, once its set-up is done, goes on before the connector manager has registered it. */
  lemma EarlyExact(steps: seq<Step>)
    ensures EverEarly(INITIAL, steps) <==> SomewhereEarly(INITIAL, steps)
  {
    hide SomewhereEarly, EverEarly;
    InitialOk();
    EarlyFrom(INITIAL, steps);
  }

  /** There are such interleavings, with the state below Running. */
  lemma EarlyDispatch()
    ensures exists steps :: Early(Run(INITIAL, steps)) && Run(INITIAL, steps).state < RUNNING
  {
    hide Run, SetStateSteps;
    var setUp := [FirstWait(Irp)] + ([Prepare(Irp, true)] + (SetStateSteps(Irp) + [RunWait(Irp)]));
    ServiceFirst(setUp);
    SetUp(SERVICE_READY, Irp, [RunWait(Irp)]);
    var b := SERVICE_READY.(state := 3, history := [1, 2] + [3], pcs := SERVICE_READY.pcs.With(Irp, Ready));
    OneStep(b, RunWait(Irp), []);
    NoSteps(Next(b, RunWait(Irp)));
    assert [RunWait(Irp)] + [] == [RunWait(Irp)];
    assert Run(INITIAL, [Load(true)] + (SetStateSteps(Service) + setUp)) == Next(b, RunWait(Irp));
  }

  lemma NoSteps(b: Broker)
    ensures Run(b, []) == b
  {
  }

  /** There are interleavings in which the connector manager is first. */
  lemma RunningForgotten()
    ensures exists steps :: Run(INITIAL, steps).history == [1, 2, 5, 3]
  {
    hide Run, SetStateSteps;
    var irp := [FirstWait(Irp)] + ([Prepare(Irp, true)] + (SetStateSteps(Irp) + []));
    var both := [FirstWait(Connector)] + ([Prepare(Connector, true)] + (SetStateSteps(Connector) + irp));
    ServiceFirst(both);
    SetUp(SERVICE_READY, Connector, irp);
    var b := SERVICE_READY.(state := 5, history := [1, 2] + [5], registered := true,
                            pcs := SERVICE_READY.pcs.With(Connector, Ready));
    SetUp(b, Irp, []);
    var last := b.(state := 3, history := [1, 2] + [5] + [3], pcs := b.pcs.With(Irp, Ready));
    NoSteps(last);
    assert Run(INITIAL, [Load(true)] + (SetStateSteps(Service) + both)).history == [1, 2, 5, 3];
  }

  /** Clients may have their requests served while the IRP manager has not begun its set-up, so that
      drivers are hooked before the driver has an event to signal. */
  lemma ServedBeforeEvent()
    ensures exists steps :: var b := Run(INITIAL, steps);
              b.pcs.driver == Looping && b.state > SERVICE_MANAGER_READY && b.pcs.irp == Start
  {
    hide Run, SetStateSteps;
    var clients := [FirstWait(Driver)] + ([Prepare(Driver, true)] + ([RunWait(Driver)] + []));
    var both := [FirstWait(Connector)] + ([Prepare(Connector, true)] + (SetStateSteps(Connector) + clients));
    ServiceFirst(both);
    SetUp(SERVICE_READY, Connector, clients);
    var b := SERVICE_READY.(state := 5, history := [1, 2] + [5], registered := true,
                            pcs := SERVICE_READY.pcs.With(Connector, Ready));
    OneStep(b, FirstWait(Driver), [Prepare(Driver, true)] + ([RunWait(Driver)] + []));
    var b1 := Next(b, FirstWait(Driver));
    OneStep(b1, Prepare(Driver, true), [RunWait(Driver)] + []);
    var b2 := Next(b1, Prepare(Driver, true));
    OneStep(b2, RunWait(Driver), []);
    NoSteps(Next(b2, RunWait(Driver)));
    assert Run(INITIAL, [Load(true)] + (SetStateSteps(Service) + both)) == Next(b2, RunWait(Driver));
  }

  // ----- progress -----

  ghost predicate Started(b: Broker) {
    b.pcs.service == Done && forall m | m != Service :: b.pcs.Of(m) == Looping
  }

  function Rank(pc: Pc): nat {
    match pc
    case Start => 0
    case Passed => 1
    case Prepared => 2
    case Notifying(told) => 3 + (if told < 4 then told else 4)
    case Ready => 8
    case Looping => 9
    case Done => 10
    case Failed => 10
  }

  function Ranks(b: Broker): nat {
    Rank(b.pcs.service) + Rank(b.pcs.connector) + Rank(b.pcs.irp) + Rank(b.pcs.driver)
  }

  /** The thread that takes a step. */
  function Mover(step: Step): Manager {
    match step
    case Load(_) => Service
    case LastWait => Service
    case FirstWait(m) => m
    case Prepare(m, _) => m
    case Store(m) => m
    case Notify(m) => m
    case RunWait(m) => m
  }

  lemma MoverGrows(b: Broker, step: Step)
    requires Next(b, step) != b
    ensures Rank(b.pcs.Of(Mover(step))) < Rank(Next(b, step).pcs.Of(Mover(step)))
  {
    hide WaitPasses;
  }

  lemma OthersStay(b: Broker, step: Step)
    ensures Next(b, step).pcs == b.pcs.With(Mover(step), Next(b, step).pcs.Of(Mover(step)))
  {
    hide WaitPasses;
  }

  /** No run has more than forty steps that do something. */
  lemma RankGrows(b: Broker, step: Step)
    requires Next(b, step) != b
    ensures Ranks(b) < Ranks(Next(b, step)) <= 40
  {
    hide Next, Rank, Mover;
    MoverGrows(b, step);
    OthersStay(b, step);
    RankBounds(Next(b, step));
  }

  lemma RankBounds(b: Broker)
    ensures Ranks(b) <= 40
  {
  }

  /** As long as no set-up fails, no run gets stuck before all four threads are up. */
  lemma Progress(steps: seq<Step>)
    requires var b := Run(INITIAL, steps); !Started(b) && forall m :: b.pcs.Of(m) != Failed
    ensures exists step :: Next(Run(INITIAL, steps), step) != Run(INITIAL, steps)
  {
    hide Run, HistoryOk;
    var b := Run(INITIAL, steps);
    InitialOk();
    RunKeeps(INITIAL, steps);
    if b.pcs.service != Done {
      ServiceMoves(b);
    } else {
      assert SignalsOk(b, Service);
      var m :| m != Service && b.pcs.Of(m) != Looping;
      OtherMoves(b, m);
    }
  }

  lemma ServiceMoves(b: Broker)
    requires WaitsOk(b) && SignalsOk(b, Service) && b.pcs.service != Done && b.pcs.service != Failed
    ensures exists step :: Next(b, step) != b
  {
    var step := match b.pcs.service
      case Start => Load(true)
      case Prepared => Store(Service)
      case Notifying(_) => Notify(Service)
      case Ready => RunWait(Service)
      case _ => LastWait;
    assert Next(b, step).pcs.service != b.pcs.service;
  }

  lemma OtherMoves(b: Broker, m: Manager)
    requires b.signalled == EVERYONE && m != Service && b.pcs.Of(m) !in {Looping, Failed, Done}
    ensures exists step :: Next(b, step) != b
  {
    assert m in EVERYONE by {
      match m case Service => case Connector => case Irp => case Driver =>
    }
    var step := match b.pcs.Of(m)
      case Start => FirstWait(m)
      case Passed => Prepare(m, true)
      case Prepared => Store(m)
      case Notifying(_) => Notify(m)
      case _ => RunWait(m);
    assert Next(b, step).pcs.Of(m) != b.pcs.Of(m);
  }
}
