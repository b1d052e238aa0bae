/** Room in the list of hooked drivers, over runs of requests to hook, unhook and unhook all.

    The value of a manager is its linked paths, in upper case and in order, with the entry counter. */
module Capacity {
  import opened Util
  import opened LinkedLists
  import opened HookedDrivers
  import opened HookedDriverManagers

  datatype Request = Insert(path: seq<char>) | Remove(path: seq<char>) | RemoveAll

  datatype Listed = Listed(paths: seq<seq<char>>, counter: nat)

  const NOTHING := Listed([], 0)

  // ----- requests on values -----

  ghost predicate Bound(mgr: HookedDriverManager, s: Listed) {
    && |s.paths| <= s.counter <= CFB_MAX_HOOKED_DRIVERS
    && forall i | 0 <= i < |s.paths| :: s.paths[i] in mgr.namespace
  }

  ghost predicate Hooks(mgr: HookedDriverManager, s: Listed, D: DriverObject)
    requires Bound(mgr, s)
  {
    exists i :: 0 <= i < |s.paths| && mgr.namespace[s.paths[i]] == D
  }

  /** The first place of a path. */
  ghost function IndexOf(paths: seq<seq<char>>, path: seq<char>): (k: nat)
    requires path in paths
    ensures k < |paths| && paths[k] == path && forall j | 0 <= j < k :: paths[j] != path
  {
    if paths[0] == path then 0 else IndexOf(paths[1..], path) + 1
  }

  ghost function Status(mgr: HookedDriverManager, s: Listed, r: Request): NtStatus
    requires Bound(mgr, s)
  {
    match r
    case Insert(path) =>
      if mgr.Upper(path) !in mgr.namespace then ObjectNameNotFound
      else if mgr.namespace[mgr.Upper(path)] == mgr.monitor then AccessDenied
      else if Hooks(mgr, s, mgr.namespace[mgr.Upper(path)]) then AlreadyRegistered
      else if s.counter >= CFB_MAX_HOOKED_DRIVERS then InsufficientResources
      else Success
    case Remove(path) => if mgr.Upper(path) in s.paths then Success else NotFound
    case RemoveAll => Success
  }

  ghost function After(mgr: HookedDriverManager, s: Listed, r: Request): (t: Listed)
    requires Bound(mgr, s)
    ensures Bound(mgr, t)
  {
    if Status(mgr, s, r) != Success then s
    else match r
      case Insert(path) => Listed(s.paths + [mgr.Upper(path)], s.counter + 1)
      case Remove(path) =>
        Listed(Without(s.paths, IndexOf(s.paths, mgr.Upper(path))), if |s.paths| == 1 then s.counter - 1 else s.counter)
      case RemoveAll => Listed([], s.counter - |s.paths|)
  }

  ghost function AfterAll(mgr: HookedDriverManager, s: Listed, requests: seq<Request>): (t: Listed)
    requires Bound(mgr, s)
    ensures Bound(mgr, t)
    decreases |requests|
  {
    if requests == [] then s else AfterAll(mgr, After(mgr, s, requests[0]), requests[1..])
  }

  ghost function Statuses(mgr: HookedDriverManager, s: Listed, requests: seq<Request>): seq<NtStatus>
    requires Bound(mgr, s)
    decreases |requests|
  {
    if requests == [] then []
    else [Status(mgr, s, requests[0])] + Statuses(mgr, After(mgr, s, requests[0]), requests[1..])
  }

  /** An unhooking that leaves another driver hooked. */
  ghost predicate LeavesSome(mgr: HookedDriverManager, s: Listed, r: Request) {
    r.Remove? && mgr.Upper(r.path) in s.paths && |s.paths| >= 2
  }

  /** How many requests of the run are such unhookings. */
  ghost function Uncounted(mgr: HookedDriverManager, s: Listed, requests: seq<Request>): nat
    requires Bound(mgr, s)
    decreases |requests|
  {
    if requests == [] then 0
    else
      (if LeavesSome(mgr, s, requests[0]) then 1 else 0)
      + Uncounted(mgr, After(mgr, s, requests[0]), requests[1..])
  }

  /** The counter exceeds the linked drivers by the unhookings that left another driver hooked;
      unhooking all keeps the excess. */
  lemma {:induction false} Excess(mgr: HookedDriverManager, s: Listed, requests: seq<Request>)
    requires Bound(mgr, s)
    ensures var t := AfterAll(mgr, s, requests);
            t.counter - |t.paths| == s.counter - |s.paths| + Uncounted(mgr, s, requests)
    decreases |requests|
  {
    if requests != [] {
      Excess(mgr, After(mgr, s, requests[0]), requests[1..]);
    }
  }

  /** The path of a driver other than IrpMonitor. */
  ghost predicate Hookable(mgr: HookedDriverManager, path: seq<char>) {
    mgr.Upper(path) in mgr.namespace && mgr.namespace[mgr.Upper(path)] != mgr.monitor
  }

  ghost predicate TwoDrivers(mgr: HookedDriverManager, a: seq<char>, b: seq<char>) {
    Hookable(mgr, a) && Hookable(mgr, b) && mgr.namespace[mgr.Upper(a)] != mgr.namespace[mgr.Upper(b)]
  }

  /** After any run from the start, a driver that exists, is not IrpMonitor and is not hooked is
      refused exactly if the hooked drivers and the unhookings that left another one hooked number
      at least 32 together; otherwise it is hooked. */
  lemma RefusedExactly(mgr: HookedDriverManager, requests: seq<Request>, path: seq<char>)
    requires Hookable(mgr, path)
    requires !Hooks(mgr, AfterAll(mgr, NOTHING, requests), mgr.namespace[mgr.Upper(path)])
    ensures var s := AfterAll(mgr, NOTHING, requests);
            && Status(mgr, s, Insert(path)) in {Success, InsufficientResources}
            && (Status(mgr, s, Insert(path)) == InsufficientResources
                <==> |s.paths| + Uncounted(mgr, NOTHING, requests) >= 32)
  {
    hide AfterAll, Uncounted, Hooks;
    Excess(mgr, NOTHING, requests);
  }

  // ----- rounds -----

  /** n rounds of hooking and unhooking. */
  function Rounds(path: seq<char>, n: nat): seq<Request> {
    if n == 0 then [] else [Insert(path), Request.Remove(path)] + Rounds(path, n - 1)
  }

  lemma OneRound(mgr: HookedDriverManager, s: Listed, resident: seq<char>, path: seq<char>)
    requires Bound(mgr, s) && s.paths == [mgr.Upper(resident)] && s.counter < CFB_MAX_HOOKED_DRIVERS
    requires TwoDrivers(mgr, resident, path)
    ensures After(mgr, After(mgr, s, Insert(path)), Request.Remove(path)) == Listed(s.paths, s.counter + 1)
  {
    var a, b := mgr.Upper(resident), mgr.Upper(path);
    assert [a] + [b] == [a, b] && [a, b][1] == b;
    assert IndexOf([a, b], b) == 1;
    assert Without([a, b], 1) == [a];
  }

  lemma {:induction false} RoundsLeak(mgr: HookedDriverManager, s: Listed, resident: seq<char>, path: seq<char>, n: nat)
    requires Bound(mgr, s) && s.paths == [mgr.Upper(resident)] && s.counter + n <= CFB_MAX_HOOKED_DRIVERS
    requires TwoDrivers(mgr, resident, path)
    ensures AfterAll(mgr, s, Rounds(path, n)) == Listed(s.paths, s.counter + n)
    decreases n
  {
    hide After;
    if n > 0 {
      OneRound(mgr, s, resident, path);
      var rounds := Rounds(path, n);
      assert rounds[1..][0] == Request.Remove(path) && rounds[1..][1..] == Rounds(path, n - 1);
      RoundsLeak(mgr, Listed(s.paths, s.counter + 1), resident, path, n - 1);
    }
  }

  /** Beside one hooked driver, n rounds of hooking and unhooking another leave room for 31 - n
      drivers: after 31 rounds the next one is refused. */
  lemma CapacityLeak(mgr: HookedDriverManager, resident: seq<char>, path: seq<char>, n: nat)
    requires n < 32
    requires TwoDrivers(mgr, resident, path)
    ensures var s := AfterAll(mgr, NOTHING, [Insert(resident)] + Rounds(path, n));
            && s == Listed([mgr.Upper(resident)], n + 1)
            && (Status(mgr, s, Insert(path)) == InsufficientResources <==> n == 31)
            && After(mgr, s, RemoveAll) == Listed([], n)
  {
    var first := After(mgr, NOTHING, Insert(resident));
    assert first == Listed([mgr.Upper(resident)], 1);
    RoundsLeak(mgr, first, resident, path, n);
    assert ([Insert(resident)] + Rounds(path, n))[1..] == Rounds(path, n);
  }

  // ----- the manager -----

  ghost function PathsOf(mgr: HookedDriverManager, linked: seq<HookedDriver>): (paths: seq<seq<char>>)
    ensures |paths| == |linked|
    ensures forall i | 0 <= i < |linked| :: paths[i] == mgr.Upper(linked[i].path)
  {
    if linked == [] then [] else [mgr.Upper(linked[0].path)] + PathsOf(mgr, linked[1..])
  }

  ghost function ValueOf(mgr: HookedDriverManager): (s: Listed)
    requires mgr.Valid()
    reads mgr, mgr.entries, mgr.entries.Repr, mgr.natives, mgr.devices, mgr.hooked, mgr.CopiesOf(mgr.hooked)
    ensures Bound(mgr, s)
  {
    mgr.LinkedDrivers();
    InNamespace(mgr);
    Listed(PathsOf(mgr, mgr.hooked), mgr.entries.totalEntry)
  }

  lemma InNamespace(mgr: HookedDriverManager)
    requires mgr.Valid()
    ensures forall i | 0 <= i < |mgr.hooked| ::
              mgr.Upper(mgr.hooked[i].path) in mgr.namespace
              && mgr.namespace[mgr.Upper(mgr.hooked[i].path)] == mgr.hooked[i].original
  {
    assert forall i | 0 <= i < |mgr.hooked| :: mgr.EntryOk(mgr.hooked[i]);
  }

  /** The value has the drivers that are linked. */
  lemma HooksIs(mgr: HookedDriverManager, D: DriverObject)
    requires mgr.Valid()
    ensures Hooks(mgr, ValueOf(mgr), D) <==> mgr.IsHooked(D)
  {
    hide HookedDriverManager.Valid;
    InNamespace(mgr);
    var paths := ValueOf(mgr).paths;
    assert forall i | 0 <= i < |paths| :: mgr.namespace[paths[i]] == mgr.hooked[i].original;
  }

  lemma PathsAppend(mgr: HookedDriverManager, linked: seq<HookedDriver>, h: HookedDriver)
    ensures PathsOf(mgr, linked + [h]) == PathsOf(mgr, linked) + [mgr.Upper(h.path)]
  {
  }

  lemma PathsWithout(mgr: HookedDriverManager, linked: seq<HookedDriver>, k: nat)
    requires k < |linked|
    ensures PathsOf(mgr, Without(linked, k)) == Without(PathsOf(mgr, linked), k)
  {
  }

  lemma FirstMatchIs(mgr: HookedDriverManager, linked: seq<HookedDriver>, path: seq<char>, k: nat)
    ensures (exists i :: mgr.FirstMatch(path, linked, i)) <==> mgr.Upper(path) in PathsOf(mgr, linked)
    ensures mgr.FirstMatch(path, linked, k) ==> k == IndexOf(PathsOf(mgr, linked), mgr.Upper(path))
  {
    var paths := PathsOf(mgr, linked);
    if mgr.Upper(path) in paths {
      assert mgr.FirstMatch(path, linked, IndexOf(paths, mgr.Upper(path)));
    }
  }

  /** What is linked is old or new, and so are the copies. */
  twostate predicate LinkedOldOrNew(mgr: HookedDriverManager)
    reads mgr
  {
    forall i | 0 <= i < |mgr.hooked| ::
      mgr.hooked[i] in old(mgr.hooked) || (fresh(mgr.hooked[i]) && fresh(mgr.hooked[i].copy))
  }

  /** The last entry is new, for the driver with that path, and hooked. */
  twostate predicate NewEntry(mgr: HookedDriverManager, path: seq<char>, before: seq<HookedDriver>)
    requires |mgr.hooked| > 0
    reads mgr, mgr.hooked
  {
    var h := mgr.hooked[|mgr.hooked| - 1];
    && mgr.hooked == before + [h] && fresh(h) && fresh(h.copy) && h.state == Hooked
    && mgr.Upper(path) in mgr.namespace && h.original == mgr.namespace[mgr.Upper(path)]
  }

  /** Entry k is gone, the others are as they were, and its driver is stale if it was flagged invalid. */
  twostate predicate Gone(mgr: HookedDriverManager, before: seq<HookedDriver>, k: nat)
    requires before == old(mgr.hooked) && k < |before|
    reads mgr, before
  {
    && mgr.hooked == Without(before, k)
    && mgr.stale == mgr.StaleAfter(old(mgr.stale), before[k].original, old(before[k].state))
    && forall i | 0 <= i < |before| && i != k :: before[i].state == old(before[i].state)
  }

  /** The insertion with the states and the counter. */
  method InsertLast(mgr: HookedDriverManager, path: seq<char>) returns (status: NtStatus)
    requires mgr.Valid()
    modifies mgr`hooked, mgr.entries, mgr.entries.Repr, mgr.devices`driverObject
    ensures mgr.Valid() && fresh(mgr.entries.Repr - old(mgr.entries.Repr))
    ensures status == old(mgr.InsertStatus(path))
    ensures mgr.stale == old(mgr.stale) && StatesOf(old(mgr.hooked)) == old(StatesOf(mgr.hooked))
    ensures if status == Success then
              && |mgr.hooked| == |old(mgr.hooked)| + 1 && NewEntry(mgr, path, old(mgr.hooked))
              && mgr.Upper(mgr.hooked[|mgr.hooked| - 1].path) == mgr.Upper(path)
              && mgr.entries.totalEntry == old(mgr.entries.totalEntry) + 1
            else mgr.hooked == old(mgr.hooked) && mgr.entries.totalEntry == old(mgr.entries.totalEntry)
  {
    hide HookedDriverManager.Valid, HookedDriverManager.Upper, HookedDriverManager.Redirection;
    hide HookedDriverManager.InsertStatus;
    status := mgr.InsertDriver(path);
  }

  lemma StatusIs(mgr: HookedDriverManager, path: seq<char>)
    requires mgr.Valid()
    ensures mgr.InsertStatus(path) == Status(mgr, ValueOf(mgr), Insert(path))
  {
    hide HookedDriverManager.Valid, HookedDriverManager.Upper, Hooks, PathsOf;
    if mgr.Upper(path) in mgr.namespace {
      HooksIs(mgr, mgr.namespace[mgr.Upper(path)]);
    }
  }

  method ServeInsert(mgr: HookedDriverManager, path: seq<char>) returns (status: NtStatus)
    requires mgr.Valid()
    modifies mgr`hooked, mgr.entries, mgr.entries.Repr, mgr.devices`driverObject
    ensures mgr.Valid() && fresh(mgr.entries.Repr - old(mgr.entries.Repr))
    ensures LinkedOldOrNew(mgr)
    ensures status == Status(mgr, old(ValueOf(mgr)), Insert(path))
    ensures ValueOf(mgr) == After(mgr, old(ValueOf(mgr)), Insert(path))
    ensures mgr.stale == old(mgr.stale) && StatesOf(old(mgr.hooked)) == old(StatesOf(mgr.hooked))
    ensures if status == Success then |mgr.hooked| == |old(mgr.hooked)| + 1 && NewEntry(mgr, path, old(mgr.hooked))
            else mgr.hooked == old(mgr.hooked)
  {
    hide HookedDriverManager.Valid, HookedDriverManager.Upper, HookedDriverManager.InsertStatus;
    hide Status, PathsOf, StatesOf;
    ghost var was := mgr.hooked;
    StatusIs(mgr, path);
    status := InsertLast(mgr, path);
    if status == Success {
      PathsAppend(mgr, was, mgr.hooked[|was|]);
      AppendedIn(was, mgr.hooked[|was|]);
    }
  }

  lemma AppendedIn<T>(s: seq<T>, x: T)
    ensures forall i | 0 <= i < |s| :: (s + [x])[i] == s[i] && (s + [x])[i] in s
    ensures (s + [x])[|s|] == x
  {
  }

  lemma ItemsAre(mgr: HookedDriverManager)
    requires mgr.Valid()
    ensures mgr.entries.Valid() && mgr.entries.Items() == mgr.hooked
  {
  }

  /** The removal with its place and the counter. */
  method RemoveAt(mgr: HookedDriverManager, path: seq<char>) returns (status: NtStatus, ghost k: nat)
    requires mgr.Valid()
    modifies mgr`hooked, mgr`stale, mgr`retired, mgr.entries, mgr.entries.Repr, mgr.hooked, mgr.devices`driverObject
    ensures mgr.Valid() && mgr.entries.Repr == old(mgr.entries.Repr)
    ensures if exists i :: mgr.FirstMatch(path, old(mgr.hooked), i) then
              && status == Success && mgr.FirstMatch(path, old(mgr.hooked), k) && k < |old(mgr.hooked)|
              && Gone(mgr, old(mgr.hooked), k)
              && mgr.entries.totalEntry
                 == if |old(mgr.hooked)| == 1 then old(mgr.entries.totalEntry) - 1 else old(mgr.entries.totalEntry)
            else
              && status == NotFound && mgr.hooked == old(mgr.hooked) && mgr.stale == old(mgr.stale)
              && mgr.entries.totalEntry == old(mgr.entries.totalEntry)
              && forall i | 0 <= i < |mgr.hooked| :: mgr.hooked[i].state == old(mgr.hooked[i].state)
  {
    hide HookedDriverManager.Valid, HookedDriverManager.Upper, HookedDriverManager.Deleted, Without;
    ItemsAre(mgr);
    status, k := mgr.RemoveDriver(path);
  }

  method ServeRemove(mgr: HookedDriverManager, path: seq<char>) returns (status: NtStatus)
    requires mgr.Valid()
    modifies mgr`hooked, mgr`stale, mgr`retired, mgr.entries, mgr.entries.Repr, mgr.hooked, mgr.devices`driverObject
    ensures mgr.Valid() && mgr.entries.Repr == old(mgr.entries.Repr)
    ensures LinkedOldOrNew(mgr)
    ensures status == Status(mgr, old(ValueOf(mgr)), Request.Remove(path))
    ensures ValueOf(mgr) == After(mgr, old(ValueOf(mgr)), Request.Remove(path))
    ensures if status == Success then
              var k := IndexOf(old(ValueOf(mgr)).paths, mgr.Upper(path));
              k < |old(mgr.hooked)| && Gone(mgr, old(mgr.hooked), k)
            else
              && mgr.hooked == old(mgr.hooked) && mgr.stale == old(mgr.stale)
              && forall i | 0 <= i < |mgr.hooked| :: mgr.hooked[i].state == old(mgr.hooked[i].state)
  {
    hide HookedDriverManager.Valid, HookedDriverManager.Upper, HookedDriverManager.FirstMatch;
    hide Hooks, PathsOf, IndexOf, Without;
    ghost var was := mgr.hooked;
    ghost var k;
    status, k := RemoveAt(mgr, path);
    FirstMatchIs(mgr, was, path, k);
    if status == Success {
      PathsWithout(mgr, was, k);
      WithoutAt(was, k);
    }
  }

  method ServeRemoveAll(mgr: HookedDriverManager)
    requires mgr.Valid()
    modifies mgr`hooked, mgr`stale, mgr`retired, mgr.entries, mgr.entries.Repr, mgr.hooked, mgr.devices`driverObject
    ensures mgr.Valid() && mgr.entries.Repr == old(mgr.entries.Repr) && mgr.hooked == []
    ensures ValueOf(mgr) == After(mgr, old(ValueOf(mgr)), Request.RemoveAll)
    ensures forall D | D in mgr.natives ::
              D in mgr.stale <==> LeftStale(old(mgr.stale), old(mgr.hooked), old(StatesOf(mgr.hooked)), 0, D)
  {
    hide HookedDriverManager.Valid, LeftStale;
    mgr.RemoveAllDrivers();
  }

  method ServeOne(mgr: HookedDriverManager, r: Request) returns (status: NtStatus)
    requires mgr.Valid()
    modifies mgr`hooked, mgr`stale, mgr`retired, mgr.entries, mgr.entries.Repr, mgr.hooked, mgr.devices`driverObject
    ensures mgr.Valid() && fresh(mgr.entries.Repr - old(mgr.entries.Repr))
    ensures forall i | 0 <= i < |mgr.hooked| :: mgr.hooked[i] in old(mgr.hooked) || fresh(mgr.hooked[i])
    ensures status == Status(mgr, old(ValueOf(mgr)), r)
    ensures ValueOf(mgr) == After(mgr, old(ValueOf(mgr)), r)
  {
    hide HookedDriverManager.Valid, ValueOf, After;
    match r
    case Insert(path) => status := ServeInsert(mgr, path);
    case Remove(path) => status := ServeRemove(mgr, path);
    case RemoveAll =>
      ServeRemoveAll(mgr);
      status := Success;
  }

  /** A run of requests on the manager answers and leaves what the run on its value says; so
      `RefusedExactly` and `CapacityLeak` are about what the manager answers. */
  method Serve(mgr: HookedDriverManager, requests: seq<Request>) returns (statuses: seq<NtStatus>)
    requires mgr.Valid()
    modifies mgr`hooked, mgr`stale, mgr`retired, mgr.entries, mgr.entries.Repr, mgr.hooked, mgr.devices`driverObject
    ensures mgr.Valid() && fresh(mgr.entries.Repr - old(mgr.entries.Repr))
    ensures statuses == Statuses(mgr, old(ValueOf(mgr)), requests)
    ensures ValueOf(mgr) == AfterAll(mgr, old(ValueOf(mgr)), requests)
    decreases |requests|
  {
    hide HookedDriverManager.Valid, ValueOf, After, Status;
    if requests == [] {
      statuses := [];
    } else {
      var first := ServeOne(mgr, requests[0]);
      var rest := Serve(mgr, requests[1..]);
      statuses := [first] + rest;
    }
  }

  lemma StartsWithNothing(mgr: HookedDriverManager)
    requires mgr.Valid() && mgr.hooked == [] && mgr.entries.totalEntry == 0
    ensures ValueOf(mgr) == NOTHING
  {
  }

  /** What a new manager answers to one more request to hook, after any run. */
  method ServeThenInsert(mgr: HookedDriverManager, requests: seq<Request>, path: seq<char>)
    returns (statuses: seq<NtStatus>, status: NtStatus)
    requires mgr.Valid() && mgr.hooked == [] && mgr.entries.totalEntry == 0 && Hookable(mgr, path)
    modifies mgr`hooked, mgr`stale, mgr`retired, mgr.entries, mgr.entries.Repr, mgr.hooked, mgr.devices`driverObject
    ensures mgr.Valid() && statuses == Statuses(mgr, NOTHING, requests)
    ensures var s := AfterAll(mgr, NOTHING, requests);
            if Hooks(mgr, s, mgr.namespace[mgr.Upper(path)]) then status == AlreadyRegistered
            else status == if |s.paths| + Uncounted(mgr, NOTHING, requests) >= 32
                           then InsufficientResources else Success
  {
    hide HookedDriverManager.Valid, HookedDriverManager.Upper, ValueOf, AfterAll, Statuses, Uncounted, Hooks;
    StartsWithNothing(mgr);
    statuses := Serve(mgr, requests);
    if !Hooks(mgr, AfterAll(mgr, NOTHING, requests), mgr.namespace[mgr.Upper(path)]) {
      RefusedExactly(mgr, requests, path);
    }
    status := ServeInsert(mgr, path);
  }
}
