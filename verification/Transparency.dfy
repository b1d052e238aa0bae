/** Hooking over whole runs: any sequence of requests to hook, unhook and monitor drivers, with
    dispatches to their devices in between.

    The value of the hooking engine is the list with its counter, the linked drivers flagged invalid,
    and the stale drivers. */
module Transparency {
  import opened Util
  import opened Wire
  import opened LinkedLists
  import opened CapturedIrps
  import opened HookedDrivers
  import opened HookedDriverManagers
  import opened Callbacks
  import Capacity

  datatype Request =
    | Manage(request: Capacity.Request)
    | Monitor(path: seq<char>, enable: bool)
    /** A request to a device of the owner; the rest is what `CallDriver` leaves open. */
    | Dispatch(owner: DriverObject, device: DeviceObject, major: nat,
               preOk: bool, toggles: seq<bool>, postOk: bool, item: QueuedIrp)

  ghost predicate Proper(mgr: HookedDriverManager, r: Request) {
    r.Dispatch? ==> r.owner in mgr.natives && r.device in r.owner.devices && r.major < MAJOR_FUNCTIONS
  }

  ghost predicate AllProper(mgr: HookedDriverManager, requests: seq<Request>) {
    forall i | 0 <= i < |requests| :: Proper(mgr, requests[i])
  }

  /** The drivers' own dispatch tables, as routine numbers. */
  type Tables = map<DriverObject, seq<nat>>

  ghost predicate TablesAre(mgr: HookedDriverManager, tables: Tables)
    reads mgr.natives
  {
    forall D | D in mgr.natives ::
      && D in tables && |tables[D]| == |D.majorFunction| == MAJOR_FUNCTIONS
      && forall m | 0 <= m < MAJOR_FUNCTIONS :: D.majorFunction[m] == Native(tables[D][m])
  }

  ghost predicate Ready(mgr: HookedDriverManager, irps: CapturedIrpManager, world: World, tables: Tables)
    reads mgr, mgr.entries, mgr.entries.Repr, mgr.natives, mgr.devices, mgr.hooked, mgr.CopiesOf(mgr.hooked)
    reads irps, irps.Repr
  {
    mgr.Valid() && irps.Valid() && Apart(mgr, irps, world) && TablesAre(mgr, tables)
  }

  /** The routine a driver's own table has for a major function. */
  ghost function OwnRoutine(tables: Tables, D: DriverObject, major: nat): nat {
    if D in tables && major < |tables[D]| then tables[D][major] else 0
  }

  /** The calls drivers receive if nothing is ever hooked. */
  ghost function OwnCalls(tables: Tables, requests: seq<Request>): seq<Call> {
    if requests == [] then [] else OwnCall(tables, requests[0]) + OwnCalls(tables, requests[1..])
  }

  ghost function OwnCall(tables: Tables, r: Request): seq<Call> {
    if r.Dispatch? then [Call(OwnRoutine(tables, r.owner, r.major), r.device)] else []
  }

  /** What a driver's own routine does, given all calls of drivers' routines before: it may depend on
      the device and on everything that happened. */
  type Outcomes = (seq<Call>, Call) -> Outcome

  ghost function OutcomeOf(tables: Tables, outcomes: Outcomes, calls: seq<Call>, r: Request): Outcome
    requires r.Dispatch?
  {
    outcomes(calls, Call(OwnRoutine(tables, r.owner, r.major), r.device))
  }

  /** What the callers get back if nothing is ever hooked; `calls` are the calls so far. */
  ghost function OwnResults(tables: Tables, outcomes: Outcomes, calls: seq<Call>, requests: seq<Request>)
    : seq<DispatchResult>
    decreases |requests|
  {
    if requests == [] then []
    else
      OwnResult(tables, outcomes, calls, requests[0])
      + OwnResults(tables, outcomes, calls + OwnCall(tables, requests[0]), requests[1..])
  }

  ghost function OwnResult(tables: Tables, outcomes: Outcomes, calls: seq<Call>, r: Request)
    : (results: seq<DispatchResult>)
    ensures |results| == if r.Dispatch? then 1 else 0
  {
    if !r.Dispatch? then []
    else match OutcomeOf(tables, outcomes, calls, r)
      case Returned(status) => [Completed(status)]
      case Raised(code) => [Faulted(code)]
  }

  // ----- the engine as a value -----

  datatype Engine = Engine(listed: Capacity.Listed, invalid: set<DriverObject>, stale: set<DriverObject>)

  const NATIVE := Engine(Capacity.NOTHING, {}, {})

  ghost predicate Bound(mgr: HookedDriverManager, e: Engine) {
    Capacity.Bound(mgr, e.listed)
  }

  ghost function Linked(mgr: HookedDriverManager, s: Capacity.Listed): set<DriverObject>
    requires Capacity.Bound(mgr, s)
  {
    set i | 0 <= i < |s.paths| :: mgr.namespace[s.paths[i]]
  }

  /** Deleting the entry of a driver flagged invalid leaves the driver stale, deleting a hooked one
      heals it. */
  ghost function AfterManage(mgr: HookedDriverManager, e: Engine, r: Capacity.Request): (t: Engine)
    requires Bound(mgr, e)
    ensures Bound(mgr, t)
  {
    var listed := Capacity.After(mgr, e.listed, r);
    match r
    case Insert(_) => e.(listed := listed)
    case Remove(path) =>
      if mgr.Upper(path) !in e.listed.paths then e
      else
        var D := mgr.namespace[mgr.Upper(path)];
        Engine(listed, e.invalid - {D}, if D in e.invalid then e.stale + {D} else e.stale - {D})
    case RemoveAll => Engine(listed, {}, e.stale - Linked(mgr, e.listed) + e.invalid)
  }

  /** An error exception in the routine of a hooked driver flags it invalid. */
  ghost function AfterRequest(mgr: HookedDriverManager, tables: Tables, outcomes: Outcomes, calls: seq<Call>, e: Engine,
                              r: Request): (t: Engine)
    requires Bound(mgr, e)
    ensures Bound(mgr, t)
  {
    match r
    case Manage(request) => AfterManage(mgr, e, request)
    case Monitor(_, _) => e
    case Dispatch(owner, _, _, _, _, _, _) =>
      if Capacity.Hooks(mgr, e.listed, owner) && Errs(OutcomeOf(tables, outcomes, calls, r))
      then e.(invalid := e.invalid + {owner}) else e
  }

  ghost function AfterRun(mgr: HookedDriverManager, tables: Tables, outcomes: Outcomes, calls: seq<Call>, e: Engine,
                          requests: seq<Request>): (t: Engine)
    requires Bound(mgr, e)
    ensures Bound(mgr, t)
    decreases |requests|
  {
    if requests == [] then e
    else
      AfterRun(mgr, tables, outcomes, calls + OwnCall(tables, requests[0]),
               AfterRequest(mgr, tables, outcomes, calls, e, requests[0]), requests[1..])
  }

  /** A request to a hooked driver always completes; an exception becomes an unsuccessful status. */
  ghost function Result(mgr: HookedDriverManager, tables: Tables, outcomes: Outcomes, calls: seq<Call>, e: Engine,
                        r: Request): (results: seq<DispatchResult>)
    requires Bound(mgr, e)
    ensures |results| == if r.Dispatch? then 1 else 0
  {
    if !r.Dispatch? then []
    else match OutcomeOf(tables, outcomes, calls, r)
      case Returned(status) => [Completed(status)]
      case Raised(code) =>
        [if Capacity.Hooks(mgr, e.listed, r.owner) then Completed(STATUS_UNSUCCESSFUL) else Faulted(code)]
  }

  ghost function Results(mgr: HookedDriverManager, tables: Tables, outcomes: Outcomes, calls: seq<Call>, e: Engine,
                         requests: seq<Request>): seq<DispatchResult>
    requires Bound(mgr, e)
    decreases |requests|
  {
    if requests == [] then []
    else
      Result(mgr, tables, outcomes, calls, e, requests[0])
      + Results(mgr, tables, outcomes, calls + OwnCall(tables, requests[0]),
                AfterRequest(mgr, tables, outcomes, calls, e, requests[0]), requests[1..])
  }

  /** No request of the run goes to a device of a driver that is stale by then. */
  ghost predicate NeverStale(mgr: HookedDriverManager, tables: Tables, outcomes: Outcomes, calls: seq<Call>, e: Engine,
                             requests: seq<Request>)
    requires Bound(mgr, e)
    decreases |requests|
  {
    requests == [] ||
    ((requests[0].Dispatch? ==> requests[0].owner !in e.stale)
     && NeverStale(mgr, tables, outcomes, calls + OwnCall(tables, requests[0]),
                   AfterRequest(mgr, tables, outcomes, calls, e, requests[0]), requests[1..]))
  }

  /** Some routine of a driver that is hooked by then raises an exception. */
  ghost predicate HookedFault(mgr: HookedDriverManager, tables: Tables, outcomes: Outcomes, calls: seq<Call>, e: Engine,
                              requests: seq<Request>)
    requires Bound(mgr, e)
    decreases |requests|
  {
    requests != [] &&
    ((requests[0].Dispatch? && Capacity.Hooks(mgr, e.listed, requests[0].owner)
      && OutcomeOf(tables, outcomes, calls, requests[0]).Raised?)
     || HookedFault(mgr, tables, outcomes, calls + OwnCall(tables, requests[0]),
                    AfterRequest(mgr, tables, outcomes, calls, e, requests[0]), requests[1..]))
  }

  lemma SplitEqual<T>(a: seq<T>, b: seq<T>, c: seq<T>, d: seq<T>)
    requires |a| == |c|
    ensures a + b == c + d <==> a == c && b == d
  {
    if a + b == c + d {
      assert a == (a + b)[..|a|] && c == (c + d)[..|c|];
      assert b == (a + b)[|a|..] && d == (c + d)[|c|..];
    }
  }

  /** Callers get back what they would with nothing hooked exactly if no routine of a hooked driver
      raises an exception. */
  lemma {:induction false} TransparentExact(mgr: HookedDriverManager, tables: Tables, outcomes: Outcomes,
                                            calls: seq<Call>, e: Engine, requests: seq<Request>)
    requires Bound(mgr, e)
    ensures Results(mgr, tables, outcomes, calls, e, requests) == OwnResults(tables, outcomes, calls, requests)
            <==> !HookedFault(mgr, tables, outcomes, calls, e, requests)
    decreases |requests|
  {
    hide AfterRequest, OwnCall, OutcomeOf, Bound;
    if requests != [] {
      var r := requests[0];
      var later, t := calls + OwnCall(tables, r), AfterRequest(mgr, tables, outcomes, calls, e, r);
      TransparentExact(mgr, tables, outcomes, later, t, requests[1..]);
      SplitEqual(Result(mgr, tables, outcomes, calls, e, r), Results(mgr, tables, outcomes, later, t, requests[1..]),
                 OwnResult(tables, outcomes, calls, r), OwnResults(tables, outcomes, later, requests[1..]));
    }
  }

  /** As long as nothing is hooked, callers get exactly what the drivers' own routines give: their
      statuses, and their exceptions. */
  lemma {:induction false} NothingHooked(mgr: HookedDriverManager, tables: Tables, outcomes: Outcomes,
                                         calls: seq<Call>, e: Engine, requests: seq<Request>)
    requires Bound(mgr, e) && e.listed.paths == []
    requires forall i | 0 <= i < |requests| :: !requests[i].Manage?
    ensures Results(mgr, tables, outcomes, calls, e, requests) == OwnResults(tables, outcomes, calls, requests)
    ensures AfterRun(mgr, tables, outcomes, calls, e, requests) == e
    decreases |requests|
  {
    hide OwnCall, OutcomeOf;
    if requests != [] {
      NothingHooked(mgr, tables, outcomes, calls + OwnCall(tables, requests[0]), e, requests[1..]);
    }
  }

  /** Without such an exception no driver becomes invalid or stale. */
  lemma {:induction false} QuietRun(mgr: HookedDriverManager, tables: Tables, outcomes: Outcomes, calls: seq<Call>,
                                    e: Engine, requests: seq<Request>)
    requires Bound(mgr, e) && e.invalid == {} && e.stale == {}
    requires !HookedFault(mgr, tables, outcomes, calls, e, requests)
    ensures NeverStale(mgr, tables, outcomes, calls, e, requests)
    ensures var t := AfterRun(mgr, tables, outcomes, calls, e, requests); t.invalid == {} && t.stale == {}
    decreases |requests|
  {
    hide OwnCall, OutcomeOf, Capacity.After, Capacity.Hooks;
    if requests != [] {
      var r := requests[0];
      QuietRun(mgr, tables, outcomes, calls + OwnCall(tables, r), AfterRequest(mgr, tables, outcomes, calls, e, r),
               requests[1..]);
    }
  }

  // ----- the engine in the heap -----

  /** The drivers of the entries that are flagged invalid. */
  ghost function InvalidIn(linked: seq<HookedDriver>, states: seq<HookState>): set<DriverObject>
    requires |linked| == |states|
  {
    set i | 0 <= i < |linked| && states[i] == Invalid :: linked[i].original
  }

  ghost function EngineFrom(mgr: HookedDriverManager, s: Capacity.Listed, linked: seq<HookedDriver>,
                            states: seq<HookState>, stale: set<DriverObject>): Engine
    requires |linked| == |states|
  {
    Engine(s, InvalidIn(linked, states), stale * mgr.natives)
  }

  ghost function EngineOf(mgr: HookedDriverManager): (e: Engine)
    requires mgr.Valid()
    reads mgr, mgr.entries, mgr.entries.Repr, mgr.natives, mgr.devices, mgr.hooked, mgr.CopiesOf(mgr.hooked)
    ensures Bound(mgr, e)
  {
    EngineFrom(mgr, Capacity.ValueOf(mgr), mgr.hooked, StatesOf(mgr.hooked), mgr.stale)
  }

  lemma InvalidAppend(linked: seq<HookedDriver>, states: seq<HookState>, h: HookedDriver)
    requires |linked| == |states|
    ensures InvalidIn(linked + [h], states + [Hooked]) == InvalidIn(linked, states)
  {
    var all := states + [Hooked];
    forall D ensures D in InvalidIn(linked + [h], all) <==> D in InvalidIn(linked, states) {
      if D in InvalidIn(linked, states) {
        var i :| 0 <= i < |linked| && states[i] == Invalid && linked[i].original == D;
        assert all[i] == Invalid && (linked + [h])[i].original == D;
      }
    }
  }

  lemma InvalidWithout(linked: seq<HookedDriver>, states: seq<HookState>, k: nat)
    requires |linked| == |states| && k < |linked| && DistinctOriginals(linked)
    ensures InvalidIn(Without(linked, k), Without(states, k)) == InvalidIn(linked, states) - {linked[k].original}
    ensures linked[k].original in InvalidIn(linked, states) <==> states[k] == Invalid
  {
    WithoutAt(linked, k);
    WithoutAt(states, k);
    var rest, less := Without(linked, k), Without(states, k);
    forall D ensures D in InvalidIn(rest, less) <==> D in InvalidIn(linked, states) - {linked[k].original} {
      if D in InvalidIn(rest, less) {
        var i :| 0 <= i < |rest| && less[i] == Invalid && rest[i].original == D;
        var j := if i < k then i else i + 1;
        assert states[j] == Invalid && linked[j].original == D;
      }
      if D in InvalidIn(linked, states) && D != linked[k].original {
        var j :| 0 <= j < |linked| && states[j] == Invalid && linked[j].original == D;
        var i := if j < k then j else j - 1;
        assert less[i] == Invalid && rest[i].original == D;
      }
    }
  }

  /** The entries of a list with their states. */
  ghost predicate Fits(mgr: HookedDriverManager, s: Capacity.Listed, linked: seq<HookedDriver>,
                       states: seq<HookState>)
  {
    && Capacity.Bound(mgr, s)
    && |linked| == |states| == |s.paths| && DistinctOriginals(linked)
    && forall i | 0 <= i < |linked| ::
         states[i] != Unhooked && mgr.namespace[s.paths[i]] == linked[i].original && linked[i].original in mgr.natives
  }

  lemma FitsNow(mgr: HookedDriverManager)
    requires mgr.Valid()
    ensures Fits(mgr, Capacity.ValueOf(mgr), mgr.hooked, StatesOf(mgr.hooked))
  {
    mgr.NeverUnhooked();
    Capacity.InNamespace(mgr);
  }

  lemma RefusedEngine(mgr: HookedDriverManager, e: Engine, r: Capacity.Request)
    requires Bound(mgr, e) && Capacity.Status(mgr, e.listed, r) != Success
    ensures AfterManage(mgr, e, r) == e
  {
  }

  lemma HookedEngine(mgr: HookedDriverManager, s: Capacity.Listed, linked: seq<HookedDriver>, states: seq<HookState>,
                     stale: set<DriverObject>, path: seq<char>, h: HookedDriver)
    requires Fits(mgr, s, linked, states)
    ensures EngineFrom(mgr, Capacity.After(mgr, s, Capacity.Insert(path)), linked + [h], states + [Hooked], stale)
         == AfterManage(mgr, EngineFrom(mgr, s, linked, states, stale), Capacity.Insert(path))
  {
    hide Capacity.After, InvalidIn;
    InvalidAppend(linked, states, h);
  }

  lemma UnhookedEngine(mgr: HookedDriverManager, s: Capacity.Listed, linked: seq<HookedDriver>, states: seq<HookState>,
                       stale: set<DriverObject>, path: seq<char>, k: nat)
    requires Fits(mgr, s, linked, states)
    requires mgr.Upper(path) in s.paths && k == Capacity.IndexOf(s.paths, mgr.Upper(path))
    ensures |Without(linked, k)| == |Without(states, k)|
    ensures EngineFrom(mgr, Capacity.After(mgr, s, Capacity.Request.Remove(path)),
                       Without(linked, k), Without(states, k), mgr.StaleAfter(stale, linked[k].original, states[k]))
         == AfterManage(mgr, EngineFrom(mgr, s, linked, states, stale), Capacity.Request.Remove(path))
  {
    hide Capacity.After, InvalidIn, Without, DistinctOriginals;
    WithoutAt(linked, k);
    WithoutAt(states, k);
    InvalidWithout(linked, states, k);
  }

  lemma EmptiedEngine(mgr: HookedDriverManager, s: Capacity.Listed, linked: seq<HookedDriver>, states: seq<HookState>,
                      was: set<DriverObject>, stale: set<DriverObject>)
    requires Fits(mgr, s, linked, states)
    requires forall D | D in mgr.natives :: D in stale <==> LeftStale(was, linked, states, 0, D)
    ensures EngineFrom(mgr, Capacity.After(mgr, s, Capacity.Request.RemoveAll), [], [], stale)
         == AfterManage(mgr, EngineFrom(mgr, s, linked, states, was), Capacity.Request.RemoveAll)
  {
    hide Capacity.After;
    var e := AfterManage(mgr, EngineFrom(mgr, s, linked, states, was), Capacity.Request.RemoveAll);
    forall D ensures D in stale * mgr.natives <==> D in e.stale {
      if D in mgr.natives {
        LinkedIs(mgr, s, linked, states, D);
      }
    }
    assert InvalidIn([], []) == {};
  }

  lemma LinkedIs(mgr: HookedDriverManager, s: Capacity.Listed, linked: seq<HookedDriver>, states: seq<HookState>,
                 D: DriverObject)
    requires Fits(mgr, s, linked, states)
    ensures D in Linked(mgr, s) <==> exists i :: 0 <= i < |linked| && linked[i].original == D
  {
    if D in Linked(mgr, s) {
      var i :| 0 <= i < |s.paths| && mgr.namespace[s.paths[i]] == D;
      assert linked[i].original == D;
    }
  }

  method Hook(mgr: HookedDriverManager, path: seq<char>)
    requires mgr.Valid()
    modifies mgr`hooked, mgr.entries, mgr.entries.Repr, mgr.devices`driverObject
    ensures mgr.Valid() && Capacity.LinkedOldOrNew(mgr) && fresh(mgr.entries.Repr - old(mgr.entries.Repr))
    ensures EngineOf(mgr) == AfterManage(mgr, old(EngineOf(mgr)), Capacity.Insert(path))
  {
    hide HookedDriverManager.Valid, HookedDriverManager.Upper, Capacity.ValueOf, Capacity.After, Capacity.Status;
    hide EngineFrom, AfterManage, Fits, Capacity.LinkedOldOrNew;
    ghost var was, states, value := mgr.hooked, StatesOf(mgr.hooked), Capacity.ValueOf(mgr);
    FitsNow(mgr);
    var status := Capacity.ServeInsert(mgr, path);
    if status == Success {
      HookedEngine(mgr, value, was, states, mgr.stale, path, mgr.hooked[|was|]);
      StatesAppend(was, mgr.hooked[|was|]);
    } else {
      NotServed(mgr, value, was, states, mgr.stale, Capacity.Insert(path));
    }
  }

  lemma NotServed(mgr: HookedDriverManager, s: Capacity.Listed, linked: seq<HookedDriver>, states: seq<HookState>,
                  stale: set<DriverObject>, r: Capacity.Request)
    requires Capacity.Bound(mgr, s) && Capacity.Status(mgr, s, r) != Success && |linked| == |states|
    ensures Capacity.After(mgr, s, r) == s
    ensures AfterManage(mgr, EngineFrom(mgr, s, linked, states, stale), r) == EngineFrom(mgr, s, linked, states, stale)
  {
    RefusedEngine(mgr, EngineFrom(mgr, s, linked, states, stale), r);
  }

  method Unhook(mgr: HookedDriverManager, path: seq<char>)
    requires mgr.Valid()
    modifies mgr`hooked, mgr`stale, mgr`retired, mgr.entries, mgr.entries.Repr, mgr.hooked, mgr.devices`driverObject
    ensures mgr.Valid() && Capacity.LinkedOldOrNew(mgr) && mgr.entries.Repr == old(mgr.entries.Repr)
    ensures EngineOf(mgr) == AfterManage(mgr, old(EngineOf(mgr)), Capacity.Request.Remove(path))
  {
    hide HookedDriverManager.Valid, HookedDriverManager.Upper, Capacity.ValueOf, Capacity.After, Capacity.IndexOf;
    hide EngineFrom, AfterManage, Fits, Without, Capacity.LinkedOldOrNew;
    ghost var was, states, value, stale := mgr.hooked, StatesOf(mgr.hooked), Capacity.ValueOf(mgr), mgr.stale;
    FitsNow(mgr);
    var status := Capacity.ServeRemove(mgr, path);
    if status == Success {
      ghost var k := Capacity.IndexOf(value.paths, mgr.Upper(path));
      UnhookedEngine(mgr, value, was, states, stale, path, k);
      StatesWithout(was, k);
      WithoutSame(StatesOf(was), states, k);
    } else {
      NotServed(mgr, value, was, states, stale, Capacity.Request.Remove(path));
      assert StatesOf(mgr.hooked) == states;
    }
  }

  lemma WithoutSame<T>(a: seq<T>, b: seq<T>, k: nat)
    requires |a| == |b| && k < |a| && forall i | 0 <= i < |a| && i != k :: a[i] == b[i]
    ensures Without(a, k) == Without(b, k)
  {
  }

  method UnhookAll(mgr: HookedDriverManager)
    requires mgr.Valid()
    modifies mgr`hooked, mgr`stale, mgr`retired, mgr.entries, mgr.entries.Repr, mgr.hooked, mgr.devices`driverObject
    ensures mgr.Valid() && Capacity.LinkedOldOrNew(mgr) && mgr.entries.Repr == old(mgr.entries.Repr)
    ensures EngineOf(mgr) == AfterManage(mgr, old(EngineOf(mgr)), Capacity.Request.RemoveAll)
  {
    hide HookedDriverManager.Valid, Capacity.ValueOf, Capacity.After, EngineFrom, AfterManage, Fits, LeftStale;
    ghost var was, states, value, stale := mgr.hooked, StatesOf(mgr.hooked), Capacity.ValueOf(mgr), mgr.stale;
    FitsNow(mgr);
    Capacity.ServeRemoveAll(mgr);
    EmptiedEngine(mgr, value, was, states, stale, mgr.stale);
    assert StatesOf(mgr.hooked) == [];
  }

  /** Only the first entry with that path is switched: off at once, on if it is hooked. */
  twostate predicate Switched(mgr: HookedDriverManager, path: seq<char>, enable: bool)
    reads mgr, mgr.hooked
  {
    mgr.hooked == old(mgr.hooked) && forall k: nat | k < |mgr.hooked| ::
      mgr.hooked[k].capturing
      == if mgr.FirstMatch(path, mgr.hooked, k)
         then enable && (mgr.hooked[k].state == Hooked || old(mgr.hooked[k].capturing))
         else old(mgr.hooked[k].capturing)
  }

  method Switch(mgr: HookedDriverManager, path: seq<char>, enable: bool)
    requires mgr.Valid()
    modifies mgr.hooked`capturing
    ensures mgr.Valid() && EngineOf(mgr) == old(EngineOf(mgr))
    ensures Switched(mgr, path, enable)
  {
    hide HookedDriverManager.Valid, HookedDriverManager.Upper, Capacity.PathsOf;
    ghost var states := StatesOf(mgr.hooked);
    var status, k := mgr.SetMonitoringState(path, enable);
    assert StatesOf(mgr.hooked) == states;
  }

  // ----- runs -----

  /** What is linked, and the entries and the queue are made of, is old or new. */
  twostate predicate Grows(mgr: HookedDriverManager, irps: CapturedIrpManager)
    reads mgr, mgr.entries, irps
  {
    && fresh(irps.Repr - old(irps.Repr)) && fresh(mgr.entries.Repr - old(mgr.entries.Repr))
    && forall i | 0 <= i < |mgr.hooked| :: mgr.hooked[i] in old(mgr.hooked) || fresh(mgr.hooked[i])
  }

  method ServeManage(mgr: HookedDriverManager, irps: CapturedIrpManager, world: World, r: Capacity.Request,
                     ghost tables: Tables)
    requires Ready(mgr, irps, world, tables)
    modifies mgr`hooked, mgr`stale, mgr`retired, mgr.entries, mgr.entries.Repr, mgr.hooked, mgr.devices`driverObject
    ensures Ready(mgr, irps, world, tables) && Grows(mgr, irps)
    ensures EngineOf(mgr) == AfterManage(mgr, old(EngineOf(mgr)), r)
  {
    hide HookedDriverManager.Valid, CapturedIrpManager.Valid, EngineOf, AfterManage;
    match r
    case Insert(path) => Hook(mgr, path);
    case Remove(path) => Unhook(mgr, path);
    case RemoveAll => UnhookAll(mgr);
  }

  method ServeMonitor(mgr: HookedDriverManager, irps: CapturedIrpManager, world: World, path: seq<char>, enable: bool,
                      ghost tables: Tables)
    requires Ready(mgr, irps, world, tables)
    modifies mgr.hooked`capturing
    ensures Ready(mgr, irps, world, tables) && Grows(mgr, irps)
    ensures EngineOf(mgr) == old(EngineOf(mgr)) && Switched(mgr, path, enable)
  {
    hide HookedDriverManager.Valid, CapturedIrpManager.Valid, EngineOf, Switched;
    Switch(mgr, path, enable);
  }

  /** One driver's entry becomes invalid. */
  lemma FaultedEngine(mgr: HookedDriverManager, s: Capacity.Listed, linked: seq<HookedDriver>, states: seq<HookState>,
                      stale: set<DriverObject>, now: seq<HookState>, owner: DriverObject, fault: bool)
    requires Fits(mgr, s, linked, states) && |now| == |states|
    requires forall i | 0 <= i < |linked| ::
               now[i] == if linked[i].original == owner && fault then Invalid else states[i]
    ensures var e, hooked := EngineFrom(mgr, s, linked, states, stale), Capacity.Hooks(mgr, s, owner);
            EngineFrom(mgr, s, linked, now, stale)
            == if hooked && fault then e.(invalid := e.invalid + {owner}) else e
  {
    var e := EngineFrom(mgr, s, linked, states, stale);
    if Capacity.Hooks(mgr, s, owner) && fault {
      forall D ensures D in InvalidIn(linked, now) <==> D in e.invalid + {owner} {
        if D in e.invalid {
          var i :| 0 <= i < |linked| && states[i] == Invalid && linked[i].original == D;
          assert now[i] == Invalid;
        }
        if D == owner {
          var i :| 0 <= i < |s.paths| && mgr.namespace[s.paths[i]] == D;
          assert now[i] == Invalid && linked[i].original == D;
        }
      }
    } else {
      forall i | 0 <= i < |linked| ensures now[i] == states[i] {
        assert mgr.namespace[s.paths[i]] == linked[i].original;
      }
      assert now == states;
    }
  }

  lemma ManagerApart(mgr: HookedDriverManager, irps: CapturedIrpManager, world: World)
    requires Apart(mgr, irps, world)
    ensures mgr !in irps.Repr && mgr.entries !in irps.Repr && forall D | D in mgr.natives :: D !in irps.Repr
  {
  }

  /** A dispatch to a driver that is not stale, with its effect on the entries. */
  method DispatchOnce(mgr: HookedDriverManager, irps: CapturedIrpManager, world: World, outcomes: Outcomes,
                      r: Request, ghost tables: Tables)
    returns (result: DispatchResult)
    requires Ready(mgr, irps, world, tables) && r.Dispatch? && Proper(mgr, r) && r.owner !in mgr.stale
    modifies world, mgr.hooked, irps.Repr
    ensures Ready(mgr, irps, world, tables) && fresh(irps.Repr - old(irps.Repr))
    ensures mgr.hooked == old(mgr.hooked) && mgr.stale == old(mgr.stale)
    ensures mgr.entries.Repr == old(mgr.entries.Repr) && mgr.entries.totalEntry == old(mgr.entries.totalEntry)
    ensures world.calls == old(world.calls) + OwnCall(tables, r)
    ensures var outcome := OutcomeOf(tables, outcomes, old(world.calls), r);
            && (forall i | 0 <= i < |mgr.hooked| ::
                  mgr.hooked[i].state
                  == if mgr.hooked[i].original == r.owner && Errs(outcome) then Invalid else old(mgr.hooked[i].state))
            && result == match outcome
                         case Returned(status) => Completed(status)
                         case Raised(code) =>
                           if old(mgr.IsHooked(r.owner)) then Completed(STATUS_UNSUCCESSFUL) else Faulted(code)
  {
    hide HookedDriverManager.Valid, CapturedIrpManager.Valid, Apart, HookedDriverManager.IsHooked;
    ManagerApart(mgr, irps, world);
    var calls := world.calls;
    var behaviour := (routine: nat) => outcomes(calls, Call(routine, r.device));
    result := CallDriver(mgr, irps, r.device, r.major, behaviour, world,
                         r.preOk, r.toggles, r.postOk, r.item, r.owner);
  }

  method ServeDispatch(mgr: HookedDriverManager, irps: CapturedIrpManager, world: World, outcomes: Outcomes,
                       r: Request, ghost tables: Tables)
    returns (results: seq<DispatchResult>)
    requires Ready(mgr, irps, world, tables) && r.Dispatch? && Proper(mgr, r) && r.owner !in EngineOf(mgr).stale
    modifies world, mgr.hooked, irps.Repr
    ensures Ready(mgr, irps, world, tables) && Grows(mgr, irps)
    ensures world.calls == old(world.calls) + OwnCall(tables, r)
    ensures results == Result(mgr, tables, outcomes, old(world.calls), old(EngineOf(mgr)), r)
    ensures EngineOf(mgr) == AfterRequest(mgr, tables, outcomes, old(world.calls), old(EngineOf(mgr)), r)
  {
    hide HookedDriverManager.Valid, CapturedIrpManager.Valid, Apart, TablesAre, HookedDriverManager.IsHooked;
    hide Capacity.PathsOf, Capacity.Hooks, Fits, InvalidIn, OwnCall, OutcomeOf;
    ghost var states, value, calls := StatesOf(mgr.hooked), Capacity.ValueOf(mgr), world.calls;
    FitsNow(mgr);
    Capacity.HooksIs(mgr, r.owner);
    var result := DispatchOnce(mgr, irps, world, outcomes, r, tables);
    FaultedEngine(mgr, value, mgr.hooked, states, mgr.stale, StatesOf(mgr.hooked), r.owner,
                  Errs(OutcomeOf(tables, outcomes, calls, r)));
    results := [result];
  }

  method ServeOne(mgr: HookedDriverManager, irps: CapturedIrpManager, world: World, outcomes: Outcomes,
                  r: Request, ghost tables: Tables)
    returns (results: seq<DispatchResult>)
    requires Ready(mgr, irps, world, tables) && Proper(mgr, r) && (r.Dispatch? ==> r.owner !in EngineOf(mgr).stale)
    modifies world, mgr`hooked, mgr`stale, mgr`retired, mgr.entries, mgr.entries.Repr, mgr.hooked,
             mgr.devices`driverObject, irps.Repr
    ensures Ready(mgr, irps, world, tables) && Grows(mgr, irps)
    ensures world.calls == old(world.calls) + OwnCall(tables, r)
    ensures results == Result(mgr, tables, outcomes, old(world.calls), old(EngineOf(mgr)), r)
    ensures EngineOf(mgr) == AfterRequest(mgr, tables, outcomes, old(world.calls), old(EngineOf(mgr)), r)
    ensures r.Monitor? ==> Switched(mgr, r.path, r.enable)
  {
    hide Ready, Grows, OwnRoutine, EngineOf, AfterManage, Switched, HookedDriverManager.Valid, CapturedIrpManager.Valid;
    ghost var calls := world.calls;
    assert calls + [] == calls;
    WorldApart(mgr, irps, world, tables);
    results := [];
    match r
    case Manage(request) => ServeManage(mgr, irps, world, request, tables);
    case Monitor(path, enable) => ServeMonitor(mgr, irps, world, path, enable, tables);
    case Dispatch(_, _, _, _, _, _, _) => results := ServeDispatch(mgr, irps, world, outcomes, r, tables);
  }

  lemma WorldApart(mgr: HookedDriverManager, irps: CapturedIrpManager, world: World, tables: Tables)
    requires Ready(mgr, irps, world, tables)
    ensures mgr.Valid() && world !in irps.Repr
  {
  }

  /** A run of requests in which no dispatch goes to a driver that is stale by then: every dispatch
      calls the owner's own routine once, whatever was hooked, unhooked or captured before, so that
      drivers receive the calls of the run in which nothing is ever hooked. What callers get back, and
      which drivers are then linked, invalid and stale, is what the run on the engine's value says. */
  method Serve(mgr: HookedDriverManager, irps: CapturedIrpManager, world: World, outcomes: Outcomes,
               requests: seq<Request>, ghost tables: Tables)
    returns (results: seq<DispatchResult>)
    requires Ready(mgr, irps, world, tables) && AllProper(mgr, requests)
    requires NeverStale(mgr, tables, outcomes, world.calls, EngineOf(mgr), requests)
    modifies world, mgr`hooked, mgr`stale, mgr`retired, mgr.entries, mgr.entries.Repr, mgr.hooked,
             mgr.devices`driverObject, irps.Repr
    ensures Ready(mgr, irps, world, tables)
    ensures world.calls == old(world.calls) + OwnCalls(tables, requests)
    ensures results == Results(mgr, tables, outcomes, old(world.calls), old(EngineOf(mgr)), requests)
    ensures EngineOf(mgr) == AfterRun(mgr, tables, outcomes, old(world.calls), old(EngineOf(mgr)), requests)
    decreases |requests|
  {
    hide Ready, Proper, OwnCall, Result, EngineOf, AfterRequest;
    WorldApart(mgr, irps, world, tables);
    if requests == [] {
      results := [];
      assert world.calls + [] == world.calls;
    } else {
      ghost var calls := world.calls;
      var first := ServeOne(mgr, irps, world, outcomes, requests[0], tables);
      var rest := Serve(mgr, irps, world, outcomes, requests[1..], tables);
      Assoc(calls, OwnCall(tables, requests[0]), OwnCalls(tables, requests[1..]));
      results := first + rest;
    }
  }

  /** At start, with every device pointing to its own driver, everything is ready. */
  method Start(namespace: map<seq<char>, DriverObject>, upcase: char -> char, monitor: DriverObject,
               ghost tables: Tables)
    returns (mgr: HookedDriverManager, irps: CapturedIrpManager, world: World)
    requires forall D | D in namespace.Values ::
               && D.WellFormed()
               && D in tables && |tables[D]| == |D.majorFunction| == MAJOR_FUNCTIONS
               && (forall m | 0 <= m < MAJOR_FUNCTIONS :: D.majorFunction[m] == Native(tables[D][m]))
               && (forall d | d in D.devices :: d.driverObject == D)
    requires forall D, E, d | D in namespace.Values && E in namespace.Values && d in D.devices && d in E.devices ::
               D == E
    ensures Ready(mgr, irps, world, tables)
    ensures mgr.namespace == namespace && irps.queue == [] && world.calls == []
    ensures EngineOf(mgr) == NATIVE
  {
    mgr := new HookedDriverManager(namespace, upcase, monitor);
    irps := new CapturedIrpManager();
    world := new World();
    Capacity.StartsWithNothing(mgr);
    assert mgr.stale * mgr.natives == {};
  }

  // ----- a stale driver -----

  /** A driver is hooked, its routine raises an error exception, and it is unhooked. */
  function FaultyRun(path: seq<char>, r: Request): seq<Request> {
    [Manage(Capacity.Insert(path)), r, Manage(Capacity.Request.Remove(path))]
  }

  lemma HookedFirst(mgr: HookedDriverManager, path: seq<char>)
    requires Capacity.Hookable(mgr, path)
    ensures Bound(mgr, NATIVE)
    ensures AfterManage(mgr, NATIVE, Capacity.Insert(path)) == Engine(Capacity.Listed([mgr.Upper(path)], 1), {}, {})
  {
    assert [] + [mgr.Upper(path)] == [mgr.Upper(path)];
  }

  lemma ThenFaulty(mgr: HookedDriverManager, tables: Tables, outcomes: Outcomes, path: seq<char>, r: Request, e: Engine,
                   calls: seq<Call>)
    requires Capacity.Hookable(mgr, path) && r.Dispatch? && r.owner == mgr.namespace[mgr.Upper(path)]
    requires forall before, call :: Errs(outcomes(before, call))
    requires e == Engine(Capacity.Listed([mgr.Upper(path)], 1), {}, {})
    ensures Bound(mgr, e) && AfterRequest(mgr, tables, outcomes, calls, e, r) == e.(invalid := {r.owner})
  {
    assert Bound(mgr, e) && mgr.namespace[e.listed.paths[0]] == r.owner;
    assert {} + {r.owner} == {r.owner};
  }

  lemma ThenUnhooked(mgr: HookedDriverManager, path: seq<char>, D: DriverObject, e: Engine)
    requires Capacity.Hookable(mgr, path) && D == mgr.namespace[mgr.Upper(path)]
    requires e == Engine(Capacity.Listed([mgr.Upper(path)], 1), {D}, {})
    ensures Bound(mgr, e)
    ensures AfterManage(mgr, e, Capacity.Request.Remove(path)) == Engine(Capacity.NOTHING, {}, {D})
  {
    hide HookedDriverManager.Upper;
    var upper := mgr.Upper(path);
    assert e.listed.paths[0] == upper && Capacity.IndexOf([upper], upper) == 0 && Without([upper], 0) == [];
    assert {D} - {D} == {} && {} + {D} == {D};
  }

  /** Its devices are left pointing to the copy that was deleted. */
  method LeavesStale(mgr: HookedDriverManager, irps: CapturedIrpManager, world: World, outcomes: Outcomes,
                     path: seq<char>, r: Request, ghost tables: Tables)
    requires Ready(mgr, irps, world, tables) && EngineOf(mgr) == NATIVE && Proper(mgr, r) && r.Dispatch?
    requires Capacity.Hookable(mgr, path) && r.owner == mgr.namespace[mgr.Upper(path)]
    requires forall before, call :: Errs(outcomes(before, call))
    modifies world, mgr`hooked, mgr`stale, mgr`retired, mgr.entries, mgr.entries.Repr, mgr.hooked,
             mgr.devices`driverObject, irps.Repr
    ensures mgr.Valid() && mgr.hooked == []
    ensures r.device.driverObject in mgr.retired && r.device.driverObject !in mgr.natives
  {
    hide Ready, EngineOf, AfterManage, AfterRequest, HookedDriverManager.Upper;
    ghost var e1 := Engine(Capacity.Listed([mgr.Upper(path)], 1), {}, {});
    ghost var e2 := e1.(invalid := {r.owner});
    var requests := FaultyRun(path, r);
    ghost var calls := world.calls;
    HookedFirst(mgr, path);
    ThenFaulty(mgr, tables, outcomes, path, r, e1, calls + OwnCall(tables, requests[0]));
    ThenUnhooked(mgr, path, r.owner, e2);
    FaultyEnd(mgr, tables, outcomes, requests, calls, e1, e2, r.owner);
    var results := Serve(mgr, irps, world, outcomes, requests, tables);
    StaleNow(mgr, irps, world, tables, r);
  }

  lemma FirstRequest(mgr: HookedDriverManager, tables: Tables, outcomes: Outcomes, calls: seq<Call>, e: Engine,
                     r: Request, more: seq<Request>)
    requires Bound(mgr, e)
    ensures var later, t := calls + OwnCall(tables, r), AfterRequest(mgr, tables, outcomes, calls, e, r);
            && AfterRun(mgr, tables, outcomes, calls, e, [r] + more) == AfterRun(mgr, tables, outcomes, later, t, more)
            && (NeverStale(mgr, tables, outcomes, calls, e, [r] + more)
                <==> (r.Dispatch? ==> r.owner !in e.stale) && NeverStale(mgr, tables, outcomes, later, t, more))
  {
    hide AfterRequest, OwnCall, Bound;
    assert ([r] + more)[0] == r && ([r] + more)[1..] == more;
  }

  lemma NoRequest(mgr: HookedDriverManager, tables: Tables, outcomes: Outcomes, calls: seq<Call>, e: Engine)
    requires Bound(mgr, e)
    ensures NeverStale(mgr, tables, outcomes, calls, e, []) && AfterRun(mgr, tables, outcomes, calls, e, []) == e
  {
  }

  lemma FaultyEnd(mgr: HookedDriverManager, tables: Tables, outcomes: Outcomes, requests: seq<Request>,
                  calls: seq<Call>, e1: Engine, e2: Engine, owner: DriverObject)
    requires |requests| == 3 && requests[0].Manage? && requests[1].Dispatch? && requests[2].Manage?
    requires requests[1].owner == owner && Bound(mgr, NATIVE) && Bound(mgr, e1) && Bound(mgr, e2) && e1.stale == {}
    requires AfterManage(mgr, NATIVE, requests[0].request) == e1
    requires AfterRequest(mgr, tables, outcomes, calls + OwnCall(tables, requests[0]), e1, requests[1]) == e2
    requires AfterManage(mgr, e2, requests[2].request) == Engine(Capacity.NOTHING, {}, {owner})
    ensures NeverStale(mgr, tables, outcomes, calls, NATIVE, requests)
    ensures AfterRun(mgr, tables, outcomes, calls, NATIVE, requests) == Engine(Capacity.NOTHING, {}, {owner})
  {
    hide AfterManage, OwnCall, OutcomeOf, Bound, Capacity.Hooks, AfterRun, NeverStale;
    var r0, r1, r2 := requests[0], requests[1], requests[2];
    var c1 := calls + OwnCall(tables, r0);
    var c2 := c1 + OwnCall(tables, r1);
    assert requests == [r0] + ([r1] + ([r2] + []));
    FirstRequest(mgr, tables, outcomes, calls, NATIVE, r0, [r1] + ([r2] + []));
    FirstRequest(mgr, tables, outcomes, c1, e1, r1, [r2] + []);
    FirstRequest(mgr, tables, outcomes, c2, e2, r2, []);
    NoRequest(mgr, tables, outcomes, c2 + OwnCall(tables, r2), Engine(Capacity.NOTHING, {}, {owner}));
  }

  lemma StaleNow(mgr: HookedDriverManager, irps: CapturedIrpManager, world: World, tables: Tables, r: Request)
    requires Ready(mgr, irps, world, tables) && r.Dispatch? && Proper(mgr, r)
    requires EngineOf(mgr) == Engine(Capacity.NOTHING, {}, {r.owner})
    ensures mgr.Valid() && mgr.hooked == []
    ensures r.device.driverObject in mgr.retired && r.device.driverObject !in mgr.natives
  {
    assert r.owner in mgr.stale * mgr.natives;
    mgr.WhereStaleDevicesPoint(r.owner, r.device);
    assert |Capacity.PathsOf(mgr, mgr.hooked)| == 0;
  }
}
