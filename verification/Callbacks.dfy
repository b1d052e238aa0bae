/** The interception routine, and dispatch through it.

    What a driver's own routine does with an IRP is the parameter `behaviour`; what reaches it is
    logged in `World.calls`. While it runs, capture of the driver may be switched any number of
    times (`toggles`). The captured IRP is taken to be validly initialised. */
module Callbacks {
  import opened Util
  import opened Wire
  import opened LinkedLists
  import opened CapturedIrps
  import opened HookedDrivers
  import opened HookedDriverManagers

  /** A returned NTSTATUS, or the code of an exception. */
  datatype Outcome = Returned(status: int) | Raised(code: int)

  const STATUS_SUCCESS: int := 0
  const STATUS_UNSUCCESSFUL: int := -0x3FFF_FFFF

  predicate NtSuccess(status: int) {
    status >= 0
  }

  datatype Call = Call(routine: nat, device: DeviceObject)

  class World {
    /** The calls of drivers' own routines. */
    var calls: seq<Call>

    constructor ()
      ensures calls == []
    {
      calls := [];
    }
  }

  /** An exception that counts as one: its code is an error. */
  predicate Errs(outcome: Outcome) {
    outcome.Raised? && !NtSuccess(outcome.code)
  }

  // ----- the driver's hook state over one interception -----

  function Toggles(toggles: seq<bool>): (ops: seq<HookOp>)
    ensures |ops| == |toggles|
  {
    if toggles == [] then [] else [if toggles[0] then Enable else Disable] + Toggles(toggles[1..])
  }

  datatype Interception = Interception(preOk: bool, toggles: seq<bool>, outcome: Outcome, postOk: bool)

  function AfterPre(h: Hook, x: Interception): Hook {
    if Captures(h) && !x.preOk then ApplyHook(h, Disable) else h
  }

  function AfterCall(h: Hook, x: Interception): Hook {
    var after := RunHook(AfterPre(h, x), Toggles(x.toggles));
    if Errs(x.outcome) then RunHook(after, [Disable, FlagInvalid]) else after
  }

  /** Whether the IRP is captured. */
  predicate Pushes(h: Hook, x: Interception) {
    Captures(AfterCall(h, x)) && x.postOk
  }

  function AfterInterception(h: Hook, x: Interception): Hook {
    var after := AfterCall(h, x);
    if !Captures(after) then after else ApplyHook(after, if x.postOk then CountIrp else Disable)
  }

  lemma {:induction false} TogglesKeep(h: Hook, toggles: seq<bool>)
    ensures RunHook(h, Toggles(toggles)).state == h.state && RunHook(h, Toggles(toggles)).irpCount == h.irpCount
    decreases |toggles|
  {
    if toggles != [] {
      assert Toggles(toggles)[1..] == Toggles(toggles[1..]);
      TogglesKeep(ApplyHook(h, Toggles(toggles)[0]), toggles[1..]);
    }
  }

  /** What counts as an error exception, and the status that stands for one. */
  lemma ErrorsAre(outcome: Outcome)
    ensures Errs(outcome) <==> outcome.Raised? && outcome.code < 0
    ensures STATUS_SUCCESS == 0 && STATUS_UNSUCCESSFUL == 0xC000_0001 - 0x1_0000_0000
  {
  }

  lemma {:induction false} TogglesOf(h: Hook, toggles: seq<bool>)
    requires toggles != []
    ensures h.state == Hooked ==> RunHook(h, Toggles(toggles)).capturing == toggles[|toggles| - 1]
    ensures h.state != Hooked ==> RunHook(h, Toggles(toggles)).capturing == (h.capturing && false !in toggles)
    decreases |toggles|
  {
    assert Toggles(toggles)[1..] == Toggles(toggles[1..]);
    var after := ApplyHook(h, Toggles(toggles)[0]);
    if |toggles| == 1 {
      assert Toggles(toggles[1..]) == [];
    } else {
      TogglesOf(after, toggles[1..]);
      assert false in toggles <==> !toggles[0] || false in toggles[1..];
    }
  }

  /** The whole effect of an interception on its driver. Of a hooked one the IRP is captured exactly if
      capture is on when the routine is over, by the last request meanwhile or, without one, from
      before a successful first capture; if the routine raises no error exception; and if the second
      capture succeeds. Whatever fails switches capture off. */
  lemma InterceptionExact(h: Hook, x: Interception)
    ensures var after := AfterInterception(h, x);
            var error := x.outcome.Raised? && x.outcome.code < 0;
            if h.state == Hooked then
              var on := if x.toggles == [] then h.capturing && x.preOk else x.toggles[|x.toggles| - 1];
              && AfterCall(h, x) == Hook(if error then Invalid else Hooked, on && !error, h.irpCount)
              && (Pushes(h, x) <==> on && !error && x.postOk)
              && after == Hook(if error then Invalid else Hooked, on && !error && x.postOk,
                               if on && !error && x.postOk then h.irpCount + 1 else h.irpCount)
            else
              && !Pushes(h, x) && after == AfterCall(h, x)
              && after == Hook(if error then Invalid else h.state, h.capturing && false !in x.toggles && !error,
                               h.irpCount)
  {
    hide RunHook, Toggles;
    ErrorsAre(x.outcome);
    var pre := AfterPre(h, x);
    TogglesKeep(pre, x.toggles);
    if x.toggles != [] {
      TogglesOf(pre, x.toggles);
    } else {
      NoToggles(pre);
    }
    FlaggedIs(RunHook(pre, Toggles(x.toggles)));
  }

  lemma NoToggles(h: Hook)
    ensures RunHook(h, Toggles([])) == h
  {
  }

  lemma FlaggedIs(h: Hook)
    ensures RunHook(h, [Disable, FlagInvalid]) == Hook(Invalid, false, h.irpCount)
  {
    assert [Disable, FlagInvalid][1..] == [FlagInvalid] && [FlagInvalid][1..] == [];
    assert RunHook(ApplyHook(h, Disable), [FlagInvalid]) == ApplyHook(ApplyHook(h, Disable), FlagInvalid);
  }

  /** The counter rises exactly when the IRP is pushed. A driver flagged invalid captures nothing,
      and one whose routine raised an error is flagged invalid and captures nothing either. */
  lemma InterceptionFate(h: Hook, x: Interception)
    ensures AfterInterception(h, x).irpCount == h.irpCount + (if Pushes(h, x) then 1 else 0)
    ensures h.state == Invalid ==> !Pushes(h, x)
    ensures Errs(x.outcome) ==>
              !Pushes(h, x) && AfterInterception(h, x).state == Invalid
    ensures !Errs(x.outcome) ==> AfterInterception(h, x).state == h.state
  {
    TogglesKeep(AfterPre(h, x), x.toggles);
    var after := RunHook(AfterPre(h, x), Toggles(x.toggles));
    assert [Disable, FlagInvalid][1..] == [FlagInvalid];
    assert RunHook(after, [Disable, FlagInvalid]) == RunHook(ApplyHook(after, Disable), [FlagInvalid]);
    assert RunHook(ApplyHook(after, Disable), [FlagInvalid]) == ApplyHook(ApplyHook(after, Disable), FlagInvalid);
  }

  // ----- a run over several drivers -----

  datatype CaptureEvent =
    | Intercepted(driver: nat, x: Interception)
    | Monitored(driver: nat, enable: bool)

  ghost function AfterEvent(hooks: seq<Hook>, e: CaptureEvent): seq<Hook> {
    if e.driver >= |hooks| then hooks
    else hooks[e.driver := match e
                           case Intercepted(i, x) => AfterInterception(hooks[i], x)
                           case Monitored(i, enable) => ApplyHook(hooks[i], if enable then Enable else Disable)]
  }

  ghost function AfterEvents(hooks: seq<Hook>, events: seq<CaptureEvent>): seq<Hook>
    decreases |events|
  {
    if events == [] then hooks else AfterEvents(AfterEvent(hooks, events[0]), events[1..])
  }

  /** How many IRPs the run pushes. */
  ghost function PushCount(hooks: seq<Hook>, events: seq<CaptureEvent>): nat
    decreases |events|
  {
    if events == [] then 0
    else
      var e := events[0];
      (if e.Intercepted? && e.driver < |hooks| && Pushes(hooks[e.driver], e.x) then 1 else 0)
      + PushCount(AfterEvent(hooks, e), events[1..])
  }

  /** One event changes one driver, and an interception that captures is one push. */
  lemma EventIs(hooks: seq<Hook>, e: CaptureEvent)
    requires e.driver < |hooks|
    ensures var h := hooks[e.driver];
            AfterEvent(hooks, e) == hooks[e.driver :=
              if e.Intercepted? then AfterInterception(h, e.x)
              else h.(capturing := e.enable && (h.capturing || h.state == Hooked))]
    ensures PushCount(hooks, [e]) == if e.Intercepted? && Pushes(hooks[e.driver], e.x) then 1 else 0
  {
    hide AfterInterception, Pushes;
    assert [e][1..] == [];
  }

  function CountOf(h: Hook): nat {
    h.irpCount
  }

  /** Over any run, the drivers' counters together rise by the number of pushed IRPs. */
  lemma {:induction false} CountersSumToPushes(hooks: seq<Hook>, events: seq<CaptureEvent>)
    ensures Sum(CountOf, AfterEvents(hooks, events)) == Sum(CountOf, hooks) + PushCount(hooks, events)
    decreases |events|
  {
    hide Pushes, AfterInterception;
    if events != [] {
      var e := events[0];
      if e.driver < |hooks| {
        SumUpdate(CountOf, hooks, e.driver, AfterEvent(hooks, e)[e.driver]);
        if e.Intercepted? {
          InterceptionFate(hooks[e.driver], e.x);
        }
      }
      CountersSumToPushes(AfterEvent(hooks, e), events[1..]);
    }
  }

  // ----- the routine -----

  /** The device-to-driver search of the `CapturedIrp` constructor. */
  method AssociatedDriver(mgr: HookedDriverManager, device: DeviceObject) returns (found: ListEntry?<HookedDriver>)
    requires mgr.Valid()
    ensures mgr.Valid()
    ensures found == null ==> forall i | 0 <= i < |mgr.hooked| :: device !in mgr.hooked[i].original.devices
    ensures found != null ==> found.record.Some? && found.record.value in mgr.hooked
                              && device in found.record.value.original.devices
  {
    forall i | 0 <= i < |mgr.hooked| ensures mgr.hooked[i].original.WellFormed() {
      assert mgr.EntryOk(mgr.hooked[i]);
    }
    found := mgr.entries.Find(
      (h: HookedDriver) requires h.original.WellFormed() =>
        OnChain(h.original.deviceObject, device, h.original.devices));
    if found != null {
      ghost var k :| 0 <= k < |mgr.entries.nodes| && mgr.entries.nodes[k] == found
                     && OnChain(found.record.value.original.deviceObject, device, found.record.value.original.devices);
      assert mgr.hooked[k] == found.record.value;
    }
  }

  /** The routine's status, or the code of the exception it raised. */
  method ExecuteOriginalCallback(driver: DriverObject, device: DeviceObject, major: nat,
                                 behaviour: nat -> Outcome, world: World)
    returns (status: int, ioctlStatus: int)
    requires major < |driver.majorFunction| && driver.majorFunction[major].Native?
    modifies world
    ensures var routine := driver.majorFunction[major].id;
            && world.calls == old(world.calls) + [Call(routine, device)]
            && (match behaviour(routine)
                case Returned(s) => status == STATUS_SUCCESS && ioctlStatus == s
                case Raised(c) => status == c && ioctlStatus == STATUS_UNSUCCESSFUL)
  {
    ioctlStatus := STATUS_UNSUCCESSFUL;
    var routine := driver.majorFunction[major].id;
    world.calls := world.calls + [Call(routine, device)];
    match behaviour(routine)
    case Returned(s) => status, ioctlStatus := STATUS_SUCCESS, s;
    case Raised(c) => status := c;
  }

  /** Requests that switch capture of a driver. */
  method SwitchCapture(h: HookedDriver, toggles: seq<bool>)
    modifies h`capturing
    ensures h.Value() == RunHook(old(h.Value()), Toggles(toggles))
    decreases |toggles|
  {
    if toggles != [] {
      if toggles[0] {
        var enabled := h.EnableCapturing();
      } else {
        var disabled := h.DisableCapturing();
      }
      SwitchCapture(h, toggles[1..]);
      assert Toggles(toggles)[1..] == Toggles(toggles[1..]);
    }
  }

  /** Everything up to the collection of the output: the driver's own routine runs exactly once. */
  method RunOriginal(h: HookedDriver, device: DeviceObject, major: nat, behaviour: nat -> Outcome, world: World,
                     preOk: bool, toggles: seq<bool>)
    returns (ioctlStatus: int)
    requires major < |h.original.majorFunction| && h.original.majorFunction[major].Native?
    modifies world, h`capturing, h`state
    ensures var routine := h.original.majorFunction[major].id;
            && world.calls == old(world.calls) + [Call(routine, device)]
            && ioctlStatus == (match behaviour(routine) case Returned(s) => s case Raised(_) => STATUS_UNSUCCESSFUL)
            && forall postOk ::
                 h.Value() == AfterCall(old(h.Value()), Interception(preOk, toggles, behaviour(routine), postOk))
  {
    var can := h.CanCapture();
    if can && !preOk {
      var disabled := h.DisableCapturing();
    }
    var status;
    status, ioctlStatus := ExecuteOriginalCallback(h.original, device, major, behaviour, world);
    SwitchCapture(h, toggles);
    if !NtSuccess(status) {
      var disabled := h.DisableCapturing();
      h.FlagAsInvalid();
      assert [Disable, FlagInvalid][1..] == [FlagInvalid];
    }
  }

  /** Collecting the output: the captured IRP ends either pushed or deleted. */
  method Collect(h: HookedDriver, irps: CapturedIrpManager, item: QueuedIrp, postOk: bool)
    returns (pushed: bool, deleted: bool)
    requires irps.Valid() && h !in irps.Repr
    modifies h`capturing, h`irpCount, irps.Repr
    ensures irps.Valid() && fresh(irps.Repr - old(irps.Repr))
    ensures pushed <==> Captures(old(h.Value())) && postOk
    ensures deleted <==> !pushed
    ensures irps.State() == if pushed then AfterPush(old(irps.State()), item) else old(irps.State())
    ensures h.Value() == if !Captures(old(h.Value())) then old(h.Value())
                         else ApplyHook(old(h.Value()), if postOk then CountIrp else Disable)
  {
    pushed, deleted := false, false;
    var can := h.CanCapture();
    if can {
      if postOk {
        pushed := irps.Push(item);
        if pushed {
          h.IncrementIrpCount();
          return;
        }
      }
      var disabled := h.DisableCapturing();
    }
    deleted := true;
  }

  /** The part after the search: run the driver's own routine, then collect. */
  method Intercept(h: HookedDriver, irps: CapturedIrpManager, device: DeviceObject, major: nat,
                   behaviour: nat -> Outcome, world: World,
                   preOk: bool, toggles: seq<bool>, postOk: bool, item: QueuedIrp)
    returns (ioctlStatus: int, pushed: bool, deleted: bool)
    requires irps.Valid() && h !in irps.Repr && world !in irps.Repr
    requires major < |h.original.majorFunction| && h.original.majorFunction[major].Native? && h.original !in irps.Repr
    modifies world, h`capturing, h`state, h`irpCount, irps.Repr
    ensures irps.Valid() && fresh(irps.Repr - old(irps.Repr))
    ensures var routine := h.original.majorFunction[major].id;
            var x := Interception(preOk, toggles, behaviour(routine), postOk);
            && world.calls == old(world.calls) + [Call(routine, device)]
            && ioctlStatus == (match behaviour(routine) case Returned(s) => s case Raised(_) => STATUS_UNSUCCESSFUL)
            && pushed == Pushes(old(h.Value()), x) && deleted == !pushed
            && irps.State() == (if pushed then AfterPush(old(irps.State()), item) else old(irps.State()))
            && h.Value() == AfterInterception(old(h.Value()), x)
            && (old(h.state) != Unhooked ==> h.state != Unhooked)
  {
    hide Captures, ApplyHook, RunHook, AfterCall;
    ghost var x := Interception(preOk, toggles, behaviour(h.original.majorFunction[major].id), postOk);
    StateKept(h.Value(), x);
    ioctlStatus := RunOriginal(h, device, major, behaviour, world, preOk, toggles);
    pushed, deleted := Collect(h, irps, item, postOk);
  }

  lemma StateKept(h: Hook, x: Interception)
    ensures AfterInterception(h, x).state in {h.state, Invalid}
  {
    InterceptionFate(h, x);
    TogglesKeep(AfterPre(h, x), x.toggles);
  }

  /** The queue of captured IRPs shares no object with the hooking engine. */
  ghost predicate Apart(mgr: HookedDriverManager, irps: CapturedIrpManager, world: World)
    reads mgr, irps, mgr.entries
  {
    && mgr !in irps.Repr && mgr.entries !in irps.Repr && world !in irps.Repr
    && (forall e | e in mgr.entries.Repr :: e !in irps.Repr)
    && (forall i | 0 <= i < |mgr.hooked| :: mgr.hooked[i] !in irps.Repr && mgr.hooked[i].copy !in irps.Repr)
    && (forall D | D in mgr.natives :: D !in irps.Repr)
    && (forall d | d in mgr.devices :: d !in irps.Repr)
  }

  ghost predicate OwnedBy(linked: seq<HookedDriver>, device: DeviceObject, h: HookedDriver) {
    h in linked && device in h.original.devices
  }

  /** `InterceptGenericRoutine` for a device of a hooked driver: the driver's own routine runs exactly
      once and its status is returned, whatever happens to capture meanwhile; the captured IRP is
      pushed or deleted, never both; only that driver's hook state changes. */
  method InterceptGenericRoutine(mgr: HookedDriverManager, irps: CapturedIrpManager, device: DeviceObject, major: nat,
                                 behaviour: nat -> Outcome, world: World,
                                 preOk: bool, toggles: seq<bool>, postOk: bool, item: QueuedIrp)
    returns (ioctlStatus: int, pushed: bool, deleted: bool, ghost h: HookedDriver)
    requires mgr.Valid() && irps.Valid() && Apart(mgr, irps, world) && major < MAJOR_FUNCTIONS
    requires exists i :: 0 <= i < |mgr.hooked| && device in mgr.hooked[i].original.devices
    modifies world, mgr.hooked, irps.Repr
    ensures mgr.Valid() && irps.Valid() && fresh(irps.Repr - old(irps.Repr))
    ensures OwnedBy(mgr.hooked, device, h) && h.original.majorFunction[major].Native?
    ensures var routine := h.original.majorFunction[major].id;
            var x := Interception(preOk, toggles, behaviour(routine), postOk);
            && world.calls == old(world.calls) + [Call(routine, device)]
            && ioctlStatus == (match behaviour(routine) case Returned(s) => s case Raised(_) => STATUS_UNSUCCESSFUL)
            && pushed == Pushes(old(h.Value()), x) && deleted == !pushed
            && irps.State() == (if pushed then AfterPush(old(irps.State()), item) else old(irps.State()))
            && h.Value() == AfterInterception(old(h.Value()), x)
    ensures forall g | g in mgr.hooked && g != h :: g.Value() == old(g.Value())
  {
    hide Captures, ApplyHook, RunHook, AfterCall, AfterInterception, Pushes, HookedDriverManager.Valid;
    var entry := AssociatedDriver(mgr, device);
    var driver := entry.record.value;
    h := driver;
    OwnTable(mgr, driver, major);
    ioctlStatus, pushed, deleted :=
      Intercept(driver, irps, device, major, behaviour, world, preOk, toggles, postOk, item);
    mgr.StaysValid();
  }

  lemma OwnTable(mgr: HookedDriverManager, h: HookedDriver, major: nat)
    requires mgr.Valid() && h in mgr.hooked && major < MAJOR_FUNCTIONS
    ensures |h.original.majorFunction| == MAJOR_FUNCTIONS && h.original.majorFunction[major].Native?
    ensures h.original in mgr.natives
    ensures forall i | 0 <= i < |mgr.hooked| :: mgr.hooked[i].state != Unhooked
  {
    assert forall i | 0 <= i < |mgr.hooked| :: mgr.EntryOk(mgr.hooked[i]);
    var i :| 0 <= i < |mgr.hooked| && mgr.hooked[i] == h;
    assert h.original in mgr.natives;
  }

  /** What the caller of a driver sees: a completed request, or an exception no one caught. */
  datatype DispatchResult = Completed(status: int) | Faulted(code: int)

  /** The I/O manager's dispatch of a request to a device, through whatever driver object the device
      points to. Hooked or not, with capture on, off or toggled meanwhile, the owning driver's own
      routine for that major function runs exactly once, and its status comes back. */
  method CallDriver(mgr: HookedDriverManager, irps: CapturedIrpManager, device: DeviceObject, major: nat,
                    behaviour: nat -> Outcome, world: World,
                    preOk: bool, toggles: seq<bool>, postOk: bool, item: QueuedIrp, ghost owner: DriverObject)
    returns (result: DispatchResult)
    requires mgr.Valid() && irps.Valid() && Apart(mgr, irps, world) && major < MAJOR_FUNCTIONS
    requires owner in mgr.natives && device in owner.devices && owner !in mgr.stale
    modifies world, mgr.hooked, irps.Repr
    ensures mgr.Valid() && irps.Valid() && fresh(irps.Repr - old(irps.Repr)) && Apart(mgr, irps, world)
    ensures |owner.majorFunction| == MAJOR_FUNCTIONS && owner.majorFunction[major].Native?
    ensures var routine := owner.majorFunction[major].id;
            && world.calls == old(world.calls) + [Call(routine, device)]
            && match behaviour(routine)
               case Returned(s) => result == Completed(s)
               case Raised(c) => result == if mgr.IsHooked(owner) then Completed(STATUS_UNSUCCESSFUL) else Faulted(c)
    ensures !mgr.IsHooked(owner) ==> irps.State() == old(irps.State())
    ensures var x := Interception(preOk, toggles, behaviour(owner.majorFunction[major].id), postOk);
            forall h | h in mgr.hooked ::
              if h.original == owner then
                && h.Value() == AfterInterception(old(h.Value()), x)
                && irps.State() == if Pushes(old(h.Value()), x) then AfterPush(old(irps.State()), item)
                                   else old(irps.State())
              else h.Value() == old(h.Value())
    ensures var outcome := behaviour(owner.majorFunction[major].id);
            forall h | h in mgr.hooked ::
              h.state == if h.original == owner && Errs(outcome) then Invalid else old(h.state)
  {
    hide Captures, ApplyHook, RunHook, AfterCall, AfterInterception, Pushes, HookedDriverManager.Valid;
    Dispatches(mgr, owner, device, major);
    var entry := device.driverObject.majorFunction[major];
    match entry
    case Intercept =>
      var ioctlStatus, pushed, deleted;
      ghost var h;
      ioctlStatus, pushed, deleted, h :=
        InterceptGenericRoutine(mgr, irps, device, major, behaviour, world, preOk, toggles, postOk, item);
      OwnerUnique(mgr, owner, device, h);
      var outcome := behaviour(owner.majorFunction[major].id);
      InterceptionFate(old(h.Value()), Interception(preOk, toggles, outcome, postOk));
      OnlyEntry(mgr, h);
      result := Completed(ioctlStatus);
    case Native(routine) =>
      world.calls := world.calls + [Call(routine, device)];
      mgr.StaysValid();
      assert forall i | 0 <= i < |mgr.hooked| :: mgr.hooked[i].original != owner;
      match behaviour(routine)
      case Returned(s) => result := Completed(s);
      case Raised(c) => result := Faulted(c);
  }

  /** The table a device dispatches through: the interception routine everywhere if its driver is
      hooked, the driver's own table otherwise. */
  lemma Dispatches(mgr: HookedDriverManager, owner: DriverObject, device: DeviceObject, major: nat)
    requires mgr.Valid() && major < MAJOR_FUNCTIONS
    requires owner in mgr.natives && device in owner.devices && owner !in mgr.stale
    ensures |owner.majorFunction| == MAJOR_FUNCTIONS && owner.majorFunction[major].Native?
    ensures |device.driverObject.majorFunction| == MAJOR_FUNCTIONS
    ensures device.driverObject.majorFunction[major]
         == if mgr.IsHooked(owner) then Routine.Intercept else owner.majorFunction[major]
    ensures mgr.IsHooked(owner) ==> exists i :: 0 <= i < |mgr.hooked| && device in mgr.hooked[i].original.devices
    ensures forall i | 0 <= i < |mgr.hooked| :: mgr.hooked[i].state != Unhooked
  {
    assert forall i | 0 <= i < |mgr.hooked| :: mgr.EntryOk(mgr.hooked[i]);
    mgr.WhereDevicesPoint(owner, device);
  }

  lemma OnlyEntry(mgr: HookedDriverManager, h: HookedDriver)
    requires mgr.Valid() && h in mgr.hooked
    ensures forall g | g in mgr.hooked && g != h :: g.original != h.original
  {
    mgr.LinkedDrivers();
  }

  lemma OwnerUnique(mgr: HookedDriverManager, owner: DriverObject, device: DeviceObject, h: HookedDriver)
    requires mgr.Valid() && owner in mgr.natives && device in owner.devices && OwnedBy(mgr.hooked, device, h)
    ensures h.original == owner
  {
    OwnTable(mgr, h, 0);
  }
}
