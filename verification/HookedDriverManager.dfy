/** The list of hooked drivers, and where every device of every driver points.

    The object namespace is fixed: names resolve, ignoring case, to native driver objects whose
    device chains are disjoint. `stale` holds the drivers whose last entry was deleted while it
    was flagged invalid: their devices were not restored. */
module HookedDriverManagers {
  import opened Util
  import opened LinkedLists
  import opened HookedDrivers

  const CFB_MAX_HOOKED_DRIVERS: nat := 32

  /** The driver object the devices of D point to, given the linked entries. */
  ghost function TargetOf(hooked: seq<HookedDriver>, D: DriverObject): DriverObject {
    if hooked == [] then D
    else if hooked[0].original == D then hooked[0].copy
    else TargetOf(hooked[1..], D)
  }

  ghost predicate DistinctOriginals(hooked: seq<HookedDriver>) {
    forall i, j | 0 <= i < j < |hooked| :: hooked[i].original != hooked[j].original
  }

  lemma {:induction false} TargetIs(hooked: seq<HookedDriver>, i: nat)
    requires DistinctOriginals(hooked) && i < |hooked|
    ensures TargetOf(hooked, hooked[i].original) == hooked[i].copy
    decreases |hooked|
  {
    if i > 0 {
      assert hooked[0].original != hooked[i].original;
      TargetIs(hooked[1..], i - 1);
    }
  }

  lemma {:induction false} TargetUnhooked(hooked: seq<HookedDriver>, D: DriverObject)
    requires forall i | 0 <= i < |hooked| :: hooked[i].original != D
    ensures TargetOf(hooked, D) == D
    decreases |hooked|
  {
    if hooked != [] {
      TargetUnhooked(hooked[1..], D);
    }
  }

  lemma {:induction false} TargetOfAppended(hooked: seq<HookedDriver>, h: HookedDriver, D: DriverObject)
    requires D != h.original
    ensures TargetOf(hooked + [h], D) == TargetOf(hooked, D)
    decreases |hooked|
  {
    if hooked != [] {
      assert (hooked + [h])[0] == hooked[0] && (hooked + [h])[1..] == hooked[1..] + [h];
      TargetOfAppended(hooked[1..], h, D);
    }
  }

  lemma {:induction false} TargetOfOthers(hooked: seq<HookedDriver>, k: nat, D: DriverObject)
    requires k < |hooked| && D != hooked[k].original
    ensures TargetOf(Without(hooked, k), D) == TargetOf(hooked, D)
    decreases |hooked|
  {
    var rest := Without(hooked, k);
    if k == 0 {
      assert rest == hooked[1..];
    } else {
      assert rest[0] == hooked[0] && rest[1..] == Without(hooked[1..], k - 1);
      TargetOfOthers(hooked[1..], k - 1, D);
    }
  }

  class HookedDriverManager {
    /** The object namespace, by upper-cased path. */
    const namespace: map<seq<char>, DriverObject>
    const upcase: char -> char
    /** IrpMonitor's own driver object. */
    const monitor: DriverObject
    /** The driver objects of the namespace, and their devices. */
    ghost const natives: set<DriverObject>
    ghost const devices: set<DeviceObject>
    const entries: LinkedList<HookedDriver>
    /** The linked entries, in order. */
    ghost var hooked: seq<HookedDriver>
    ghost var stale: set<DriverObject>
    /** The copies of deleted entries. */
    ghost var retired: set<DriverObject>

    function Upper(path: seq<char>): seq<char> {
      if path == [] then [] else [upcase(path[0])] + Upper(path[1..])
    }

    /** Chains are well formed and no device is on two of them. */
    ghost predicate World() {
      && natives == namespace.Values
      && (forall d | d in devices :: exists D :: D in natives && d in D.devices)
      && (forall D, d | D in natives && d in D.devices :: d in devices)
      && (forall D | D in natives :: D.WellFormed())
      && (forall D, E, d | D in natives && E in natives && d in D.devices && d in E.devices :: D == E)
    }

    /** Drivers in the namespace have dispatch tables of their own. */
    ghost predicate TablesOk()
      reads natives
    {
      forall D | D in natives ::
        |D.majorFunction| == MAJOR_FUNCTIONS && forall i | 0 <= i < MAJOR_FUNCTIONS :: D.majorFunction[i].Native?
    }

    ghost predicate ListOk()
      reads this, entries, entries.Repr
    {
      entries.Valid() && hooked == entries.Items() && entries.totalEntry <= CFB_MAX_HOOKED_DRIVERS
    }

    ghost predicate EntryOk(h: HookedDriver)
      reads h, h.copy
    {
      && Upper(h.path) in namespace && namespace[Upper(h.path)] == h.original
      && h.original != monitor && h.copy !in natives
      && h.state != Unhooked
      && h.copy.majorFunction == seq(MAJOR_FUNCTIONS, i => Intercept)
    }

    ghost function CopiesOf(linked: seq<HookedDriver>): set<DriverObject> {
      set i | 0 <= i < |linked| :: linked[i].copy
    }

    ghost predicate EntriesOk(linked: seq<HookedDriver>)
      reads linked, CopiesOf(linked)
    {
      && (forall i | 0 <= i < |linked| :: EntryOk(linked[i]))
      && DistinctOriginals(linked)
    }

    /** Unless its driver is stale, a device points to the copy of its driver's entry, or to the
        driver itself if it has none. */
    ghost predicate PointersOk(linked: seq<HookedDriver>)
      reads this`stale, this`retired, devices
    {
      && retired !! natives
      && (forall D, d | d in devices && D in natives && d in D.devices ::
            if D in stale then d.driverObject in retired else d.driverObject == TargetOf(linked, D))
    }

    ghost predicate Valid()
      reads this, entries, entries.Repr, natives, devices, hooked, CopiesOf(hooked)
    {
      World() && TablesOk() && ListOk() && EntriesOk(hooked) && PointersOk(hooked)
    }

    /** At start every device points to its own driver. */
    constructor (namespace: map<seq<char>, DriverObject>, upcase: char -> char, monitor: DriverObject)
      requires forall D | D in namespace.Values ::
                 && D.WellFormed() && |D.majorFunction| == MAJOR_FUNCTIONS
                 && (forall i | 0 <= i < MAJOR_FUNCTIONS :: D.majorFunction[i].Native?)
                 && (forall d | d in D.devices :: d.driverObject == D)
      requires forall D, E, d | D in namespace.Values && E in namespace.Values && d in D.devices && d in E.devices ::
                 D == E
      ensures this.namespace == namespace && this.upcase == upcase && this.monitor == monitor
      ensures Valid() && fresh(entries) && fresh(entries.Repr) && hooked == [] && stale == {} && entries.totalEntry == 0
    {
      this.namespace, this.upcase, this.monitor := namespace, upcase, monitor;
      entries := new LinkedList<HookedDriver>();
      natives := namespace.Values;
      devices := set D, d | D in namespace.Values && d in D.devices :: d;
      hooked, stale, retired := [], {}, {};
    }

    ghost predicate IsHooked(D: DriverObject)
      reads this
    {
      exists i :: 0 <= i < |hooked| && hooked[i].original == D
    }

    /** What an insertion answers, by the first check that applies. */
    ghost function InsertStatus(path: seq<char>): NtStatus
      reads this, entries
    {
      if Upper(path) !in namespace then ObjectNameNotFound
      else if namespace[Upper(path)] == monitor then AccessDenied
      else if IsHooked(namespace[Upper(path)]) then AlreadyRegistered
      else if entries.totalEntry >= CFB_MAX_HOOKED_DRIVERS then InsufficientResources
      else Success
    }

    /** The checks in order, written out. */
    lemma InsertStatusIs(path: seq<char>)
      ensures InsertStatus(path) ==
              if Upper(path) !in namespace then ObjectNameNotFound
              else if namespace[Upper(path)] == monitor then AccessDenied
              else if exists i :: 0 <= i < |hooked| && hooked[i].original == namespace[Upper(path)]
              then AlreadyRegistered
              else if entries.totalEntry >= 32 then InsufficientResources
              else Success
    {
    }

    lemma UpperIs(path: seq<char>)
      ensures |Upper(path)| == |path| && forall i | 0 <= i < |path| :: Upper(path)[i] == upcase(path[i])
    {
    }

    /** Links a driver that was just hooked. */
    method Link(h: HookedDriver)
      requires ListOk() && EntriesOk(hooked + [h]) && entries.totalEntry < CFB_MAX_HOOKED_DRIVERS
      modifies entries, entries.Repr, this`hooked
      ensures ListOk() && EntriesOk(hooked)
      ensures hooked == old(hooked) + [h] && fresh(entries.Repr - old(entries.Repr))
      ensures entries.State() == PushedBack(old(entries.State()), h)
    {
      hide Linked, Distinct, Records, EntryOk, DistinctOriginals;
      ghost var linked := hooked + [h];
      var e := new ListEntry(Some(h));
      entries.PushBack(e);
      hooked := linked;
      assert forall i | 0 <= i < |linked| :: EntryOk(linked[i]);
    }

    /** The pointers after a driver was redirected to its new copy. */
    twostate lemma PointersAfterHook(new h: HookedDriver)
      requires World() && old(PointersOk(hooked))
      requires retired == old(retired) && stale == old(stale) && hooked == old(hooked)
      requires h.original in natives && !IsHooked(h.original) && Redirection(h)
      ensures PointersOk(hooked + [h])
    {
      TargetUnhooked(hooked, h.original);
      TargetOfLast(hooked, h);
      forall D, d | D in natives && d in D.devices && D != h.original
        ensures if D in stale then d.driverObject in retired else d.driverObject == TargetOf(hooked + [h], D)
      {
        TargetOfAppended(hooked, h, D);
        assert d in devices && d !in h.original.devices;
      }
    }

    lemma OriginalsAfterInsert(linked: seq<HookedDriver>, h: HookedDriver)
      requires DistinctOriginals(linked) && forall i | 0 <= i < |linked| :: linked[i].original != h.original
      ensures DistinctOriginals(linked + [h])
    {
    }

    lemma TargetOfLast(linked: seq<HookedDriver>, h: HookedDriver)
      requires forall i | 0 <= i < |linked| :: linked[i].original != h.original
      ensures TargetOf(linked + [h], h.original) == h.copy
      decreases |linked|
    {
      if linked != [] {
        assert (linked + [h])[0] == linked[0] && (linked + [h])[1..] == linked[1..] + [h];
        TargetOfLast(linked[1..], h);
      }
    }

    method FindOriginal(driver: DriverObject) returns (found: bool)
      requires ListOk()
      ensures found <==> IsHooked(driver)
    {
      var entry := entries.Find((h: HookedDriver) => h.original == driver);
      found := entry != null;
    }

    /** Hooks a driver; its entry is not linked yet. */
    method HookOnly(path: seq<char>, driver: DriverObject) returns (h: HookedDriver)
      requires Valid() && !IsHooked(driver)
      requires Upper(path) in namespace && driver == namespace[Upper(path)] != monitor
      modifies devices`driverObject
      ensures TablesOk() && ListOk() && EntriesOk(hooked + [h]) && PointersOk(hooked + [h])
      ensures fresh(h) && fresh(h.copy) && h.original == driver && h.path == path && h.Value() == Hook(Hooked, false, 0)
      ensures Redirection(h)
    {
      hide IsChain, Distinct, Linked, Records, DistinctOriginals, PointersOk;
      assert driver in natives;
      h := new HookedDriver(path, driver);
      OriginalsAfterInsert(hooked, h);
      PointersAfterHook(h);
    }

    /** The driver's devices that pointed to the driver point to the copy; no other device changed. */
    twostate predicate Redirection(new h: HookedDriver)
      reads devices
    {
      forall d | d in devices ::
        d.driverObject ==
        if d in h.original.devices then Redirected(old(d.driverObject), h.original, h.copy) else old(d.driverObject)
    }

    /** Hooks a driver that is not hooked and links its entry. */
    method HookAndLink(path: seq<char>, driver: DriverObject)
      requires Valid() && InsertStatus(path) == Success && driver == namespace[Upper(path)]
      modifies this`hooked, entries, entries.Repr, devices`driverObject
      ensures Valid() && fresh(entries.Repr - old(entries.Repr)) && stale == old(stale) && retired == old(retired)
      ensures |hooked| == |old(hooked)| + 1 && Inserted(path, old(hooked), hooked[|old(hooked)|])
      ensures fresh(hooked[|old(hooked)|]) && fresh(hooked[|old(hooked)|].copy)
      ensures entries.State() == PushedBack(old(entries.State()), hooked[|old(hooked)|])
    {
      hide PointersOk, ListOk, EntriesOk, TablesOk, World, Redirection, Upper, Records, Linked, Distinct;
      var h := HookOnly(path, driver);
      Link(h);
    }

    /** The last entry is new, hooked and not capturing. */
    twostate predicate Inserted(path: seq<char>, before: seq<HookedDriver>, new h: HookedDriver)
      reads this, h, devices
    {
      && Upper(path) in namespace
      && h !in before && hooked == before + [h]
      && h.original == namespace[Upper(path)] && h.path == path && h.Value() == Hook(Hooked, false, 0)
      && Redirection(h)
    }

    /** A new entry is linked exactly if the checks pass; otherwise nothing changes. */
    method InsertDriver(path: seq<char>) returns (status: NtStatus)
      requires Valid()
      modifies this`hooked, entries, entries.Repr, devices`driverObject
      ensures Valid() && fresh(entries.Repr - old(entries.Repr)) && stale == old(stale) && retired == old(retired)
      ensures status == old(InsertStatus(path))
      ensures status != Success ==>
                && hooked == old(hooked) && entries.State() == old(entries.State())
                && forall d | d in devices :: d.driverObject == old(d.driverObject)
      ensures status == Success ==>
                && |hooked| == |old(hooked)| + 1 && Inserted(path, old(hooked), hooked[|old(hooked)|])
                && fresh(hooked[|old(hooked)|]) && fresh(hooked[|old(hooked)|].copy)
                && entries.State() == PushedBack(old(entries.State()), hooked[|old(hooked)|])
    {
      hide PointersOk, TablesOk, Linked, Distinct, Records, TargetOf, EntryOk, DistinctOriginals;
      if Upper(path) !in namespace {
        return ObjectNameNotFound;
      }
      var driver := namespace[Upper(path)];
      if driver == monitor {
        return AccessDenied;
      }
      var found := FindOriginal(driver);
      if found {
        return AlreadyRegistered;
      }
      if entries.totalEntry >= CFB_MAX_HOOKED_DRIVERS {
        return InsufficientResources;
      }
      HookAndLink(path, driver);
      return Success;
    }

    // ----- removal -----

    /** The stale drivers after an entry in that state was deleted. */
    ghost function StaleAfter(was: set<DriverObject>, D: DriverObject, state: HookState): set<DriverObject> {
      if state == Hooked then was - {D} else was + {D}
    }

    /** Deleting an entry restores all devices of its driver if it was hooked, and none if it was
        flagged invalid; no other device changes. */
    twostate predicate Deleted(h: HookedDriver)
      reads this`stale, this`retired, devices
    {
      && stale == StaleAfter(old(stale), h.original, old(h.state))
      && retired == old(retired) + {h.copy}
      && forall d | d in devices ::
           d.driverObject ==
           if d in h.original.devices && old(h.state) == Hooked then h.original else old(d.driverObject)
    }

    twostate lemma PointersAfterDelete(k: nat)
      requires World() && k < |hooked| && hooked == old(hooked) && DistinctOriginals(hooked)
      requires hooked[k].original in natives && hooked[k].copy !in natives
      requires old(PointersOk(hooked)) && Deleted(hooked[k])
      ensures PointersOk(Without(hooked, k))
    {
      var h := hooked[k];
      TargetIs(hooked, k);
      TargetUnhooked(Without(hooked, k), h.original);
      forall D, d | D in natives && d in D.devices
        ensures if D in stale then d.driverObject in retired else d.driverObject == TargetOf(Without(hooked, k), D)
      {
        assert d in devices;
        if D != h.original {
          TargetOfOthers(hooked, k, D);
          assert d !in h.original.devices;
        }
      }
    }

    lemma EntriesWithoutOk(linked: seq<HookedDriver>, k: nat)
      requires k < |linked| && EntriesOk(linked)
      ensures EntriesOk(Without(linked, k)) && linked[k] !in Without(linked, k)
    {
      var rest := Without(linked, k);
      assert forall i | 0 <= i < |rest| :: rest[i] == linked[if i < k then i else i + 1];
      assert forall i | 0 <= i < |linked| && i != k :: linked[i].original != linked[k].original;
    }

    method Discard(h: HookedDriver)
      requires World() && h.original in natives
      modifies h, this`stale, this`retired, devices`driverObject
      ensures Deleted(h) && hooked == old(hooked)
    {
      hide IsChain, Distinct;
      h.Destroy();
      stale, retired := StaleAfter(stale, h.original, old(h.state)), retired + {h.copy};
    }

    /** Deletes an entry that was just taken off the list. */
    method Delete(h: HookedDriver, ghost k: nat)
      requires k < |hooked| && hooked[k] == h
      requires World() && TablesOk() && EntriesOk(hooked) && PointersOk(hooked)
      requires entries.Valid() && entries.Items() == Without(hooked, k) && entries.totalEntry <= CFB_MAX_HOOKED_DRIVERS
      modifies h, this`hooked, this`stale, this`retired, devices`driverObject
      ensures Valid() && hooked == Without(old(hooked), k)
      ensures Deleted(h)
    {
      hide Linked, Records, PointersOk, TargetOf, Deleted, World;
      EntriesWithoutOk(hooked, k);
      InNatives(h);
      Discard(h);
      PointersAfterDelete(k);
      hooked := Without(hooked, k);
      assert forall i | 0 <= i < |hooked| :: EntryOk(hooked[i]);
    }

    lemma InNatives(h: HookedDriver)
      requires World() && EntryOk(h)
      ensures h.original in natives
    {
    }

    /** Changing hook states keeps the manager valid, as long as no linked driver becomes unhooked. */
    twostate lemma StaysValid()
      requires old(Valid()) && unchanged(this, entries) && unchanged(old(entries.Repr))
      requires forall D | D in natives :: unchanged(D)
      requires forall d | d in devices :: unchanged(d)
      requires forall i | 0 <= i < |hooked| :: unchanged(hooked[i].copy) && hooked[i].state != Unhooked
      ensures Valid()
    {
      hide Linked, Distinct, Records, TargetOf, DistinctOriginals;
      assert forall i | 0 <= i < |hooked| :: old(EntryOk(hooked[i]));
    }

    // ----- requests -----

    /** Entry k is the first, and by `OneMatch` the only one, with that path. */
    ghost predicate FirstMatch(path: seq<char>, linked: seq<HookedDriver>, k: nat) {
      k < |linked| && Upper(linked[k].path) == Upper(path)
      && forall j | 0 <= j < k :: Upper(linked[j].path) != Upper(path)
    }

    /** An entry matches if its path has the same characters, ignoring case. */
    lemma FirstMatchIs(path: seq<char>, linked: seq<HookedDriver>, k: nat)
      ensures FirstMatch(path, linked, k) <==>
              && k < |linked|
              && |linked[k].path| == |path|
              && (forall i | 0 <= i < |path| :: upcase(linked[k].path[i]) == upcase(path[i]))
              && forall j | 0 <= j < k ::
                   |linked[j].path| == |path| ==>
                     exists i :: 0 <= i < |path| && upcase(linked[j].path[i]) != upcase(path[i])
    {
      if k < |linked| {
        SameUpper(linked[k].path, path);
        forall j | 0 <= j < k
          ensures Upper(linked[j].path) != Upper(path) <==>
                  (|linked[j].path| == |path| ==>
                     exists i :: 0 <= i < |path| && upcase(linked[j].path[i]) != upcase(path[i]))
        {
          SameUpper(linked[j].path, path);
        }
      }
    }

    lemma SameUpper(a: seq<char>, b: seq<char>)
      ensures Upper(a) == Upper(b) <==> |a| == |b| && forall i | 0 <= i < |b| :: upcase(a[i]) == upcase(b[i])
    {
      UpperIs(a);
      UpperIs(b);
      if Upper(a) == Upper(b) {
        forall i | 0 <= i < |b| ensures upcase(a[i]) == upcase(b[i]) {
          assert Upper(a)[i] == Upper(b)[i];
        }
      }
    }

    /** At most one linked entry matches a path. */
    lemma OneMatch(path: seq<char>, i: nat, j: nat)
      requires Valid() && i < |hooked| && j < |hooked|
      requires Upper(hooked[i].path) == Upper(path) && Upper(hooked[j].path) == Upper(path)
      ensures i == j
    {
      assert EntryOk(hooked[i]) && EntryOk(hooked[j]);
    }

    method FindPath(path: seq<char>) returns (entry: ListEntry?<HookedDriver>, ghost k: nat)
      requires ListOk()
      ensures entry == null ==> forall i :: !FirstMatch(path, hooked, i)
      ensures entry != null ==> k < |entries.nodes| && entries.nodes[k] == entry && entry.record == Some(hooked[k])
      ensures entry != null ==> FirstMatch(path, hooked, k)
    {
      k := 0;
      entry := entries.Find((h: HookedDriver) => Upper(h.path) == Upper(path));
      if entry != null {
        k :| 0 <= k < |entries.nodes| && entries.nodes[k] == entry && Upper(entry.record.value.path) == Upper(path)
             && forall i | 0 <= i < k :: Upper(entries.nodes[i].record.value.path) != Upper(path);
      }
    }

    /** The entry with that path is unlinked and deleted; without one nothing changes. */
    method RemoveDriver(path: seq<char>) returns (status: NtStatus, ghost k: nat)
      requires Valid()
      modifies this`hooked, this`stale, this`retired, entries, entries.Repr, hooked, devices`driverObject
      ensures Valid() && entries.Repr == old(entries.Repr)
      ensures if exists i :: FirstMatch(path, old(hooked), i) then
                && status == Success && FirstMatch(path, old(hooked), k)
                && hooked == Without(old(hooked), k) && entries.State() == Removed(old(entries.State()), k)
                && Deleted(old(hooked)[k])
                && stale == StaleAfter(old(stale), old(hooked)[k].original, old(hooked[k].state))
                && forall i | 0 <= i < |old(hooked)| && i != k :: old(hooked)[i].Value() == old(hooked[i].Value())
              else
                && status == NotFound && hooked == old(hooked) && entries.State() == old(entries.State())
                && stale == old(stale) && retired == old(retired)
                && (forall d | d in devices :: d.driverObject == old(d.driverObject))
                && forall i | 0 <= i < |hooked| :: hooked[i].Value() == old(hooked[i].Value())
    {
      hide PointersOk, TablesOk, World, Linked, Distinct, Records, TargetOf, FirstMatch, EntryOk;
      var entry;
      entry, k := FindPath(path);
      if entry == null {
        return NotFound, 0;
      }
      var success := Unlink(entry, k);
      Delete(entry.record.value, k);
      return Success, k;
    }

    method Unlink(entry: ListEntry<HookedDriver>, ghost k: nat) returns (success: bool)
      requires ListOk() && EntriesOk(hooked) && k < |entries.nodes| && entries.nodes[k] == entry
      modifies entries, entries.Repr
      ensures EntriesOk(hooked)
      ensures entries.Valid() && entries.Repr == old(entries.Repr)
      ensures entries.Items() == Without(hooked, k) && entries.State() == Removed(old(entries.State()), k)
    {
      hide Linked, Records, Distinct, EntryOk, DistinctOriginals;
      success := entries.Remove(entry, k);
      assert forall i | 0 <= i < |hooked| :: EntryOk(hooked[i]);
    }

    method PopLast() returns (entry: ListEntry?<HookedDriver>)
      requires ListOk() && EntriesOk(hooked)
      modifies entries, entries.Repr
      ensures EntriesOk(hooked) && entries.Valid() && entries.Repr == old(entries.Repr)
      ensures entry == null <==> hooked == []
      ensures entry == null ==> entries.State() == old(entries.State())
      ensures entry != null ==>
                && entry.record == Some(hooked[|hooked| - 1])
                && entries.Items() == Without(hooked, |hooked| - 1)
                && entries.totalEntry == old(entries.totalEntry) - 1
    {
      hide Linked, Distinct, EntryOk, DistinctOriginals;
      entry := entries.PopBack();
      assert forall i | 0 <= i < |hooked| :: EntryOk(hooked[i]);
    }

    /** One turn of the loop that empties the list. */
    method DeleteLast() returns (done: bool)
      requires Valid()
      modifies this`hooked, this`stale, this`retired, entries, entries.Repr, hooked, devices`driverObject
      ensures Valid() && entries.Repr == old(entries.Repr)
      ensures done <==> old(hooked) == []
      ensures done ==> hooked == [] && stale == old(stale) && entries.totalEntry == old(entries.totalEntry)
      ensures !done ==>
                var last := |old(hooked)| - 1;
                && hooked == old(hooked)[..last] && entries.totalEntry == old(entries.totalEntry) - 1
                && stale == StaleAfter(old(stale), old(hooked)[last].original, old(hooked[last].state))
                && forall i | 0 <= i < last :: hooked[i].state == old(hooked[i].state)
    {
      hide PointersOk, TablesOk, World, Linked, Distinct, Records, TargetOf, EntryOk;
      var entry := PopLast();
      if entry == null {
        return true;
      }
      Delete(entry.record.value, |hooked| - 1);
      return false;
    }

    /** The loop that empties the list. */
    method DeleteAll(ghost states: seq<HookState>)
      requires Valid() && states == StatesOf(hooked)
      modifies this`hooked, this`stale, this`retired, entries, entries.Repr, hooked, devices`driverObject
      ensures Valid() && hooked == [] && entries.totalEntry == old(entries.totalEntry) - |old(hooked)|
      ensures entries.Repr == old(entries.Repr)
      ensures stale == StaleAll(old(stale), old(hooked), states, 0)
    {
      hide PointersOk, TablesOk, World, Linked, Distinct, Records, TargetOf, EntryOk, EntriesOk, ListOk;
      hide DistinctOriginals;
      ghost var all := hooked;
      while true
        invariant Valid() && entries.Repr == old(entries.Repr)
        invariant hooked <= all && entries.totalEntry - |hooked| == old(entries.totalEntry) - |all|
        invariant forall i | 0 <= i < |hooked| :: hooked[i].state == states[i]
        invariant stale == StaleAll(old(stale), all, states, |hooked|)
        decreases |hooked|
      {
        var done := DeleteLast();
        if done {
          break;
        }
      }
    }

    /** Afterwards nothing is linked, and exactly the drivers left stale by an earlier deletion, or
        whose entry was flagged invalid, have devices that are not their own; the counter keeps
        whatever excess it had. */
    method RemoveAllDrivers()
      requires Valid()
      modifies this`hooked, this`stale, this`retired, entries, entries.Repr, hooked, devices`driverObject
      ensures Valid() && hooked == [] && entries.totalEntry == old(entries.totalEntry) - |old(hooked)|
      ensures entries.Repr == old(entries.Repr)
      ensures forall D | D in natives ::
                D in stale <==> LeftStale(old(stale), old(hooked), old(StatesOf(hooked)), 0, D)
      ensures forall D, d | D in natives && D !in stale && d in D.devices :: d.driverObject == D
    {
      hide Valid, LeftStale, StaleAll, DistinctOriginals;
      ghost var was, all, states := stale, hooked, StatesOf(hooked);
      NeverUnhooked();
      DeleteAll(states);
      forall D | D in natives ensures D in stale <==> LeftStale(was, all, states, 0, D) {
        StaleAllIs(was, all, states, 0, D);
      }
      AllNative();
    }

    /** Turns capture of the matching driver on or off; turning it on has no effect on a driver
        flagged invalid. */
    method SetMonitoringState(path: seq<char>, enable: bool) returns (status: NtStatus, ghost k: nat)
      requires Valid()
      modifies hooked`capturing
      ensures Valid()
      ensures if exists i :: FirstMatch(path, hooked, i) then
                && status == Success && FirstMatch(path, hooked, k)
                && hooked[k].Value() == ApplyHook(old(hooked[k].Value()), if enable then Enable else Disable)
                && hooked[k].capturing == (enable && (hooked[k].state == Hooked || old(hooked[k].capturing)))
                && (Captures(hooked[k].Value()) <==> enable && hooked[k].state == Hooked)
                && forall i | 0 <= i < |hooked| && i != k :: hooked[i].Value() == old(hooked[i].Value())
              else
                && status == NotFound
                && forall i | 0 <= i < |hooked| :: hooked[i].Value() == old(hooked[i].Value())
    {
      hide PointersOk, TablesOk, World, Linked, Distinct, Records, TargetOf, FirstMatch;
      var entry;
      entry, k := FindPath(path);
      if entry == null {
        return NotFound, 0;
      }
      var h := entry.record.value;
      if enable {
        var enabled := h.EnableCapturing();
      } else {
        var disabled := h.DisableCapturing();
      }
      return Success, k;
    }

    /** Where a device of a driver that is not stale points, in every reachable state. */
    lemma WhereDevicesPoint(D: DriverObject, d: DeviceObject)
      requires Valid() && D in natives && d in D.devices && D !in stale
      ensures if IsHooked(D)
              then exists i :: 0 <= i < |hooked| && hooked[i].original == D && d.driverObject == hooked[i].copy
                     && d.driverObject.majorFunction == seq(MAJOR_FUNCTIONS, i => Intercept)
              else d.driverObject == D
    {
      assert d in devices;
      if IsHooked(D) {
        var i :| 0 <= i < |hooked| && hooked[i].original == D;
        TargetIs(hooked, i);
        assert EntryOk(hooked[i]);
      } else {
        TargetUnhooked(hooked, D);
      }
    }

    /** The devices of a stale driver point to the copy of an entry that was deleted. */
    lemma WhereStaleDevicesPoint(D: DriverObject, d: DeviceObject)
      requires Valid() && D in natives && d in D.devices && D in stale
      ensures d.driverObject in retired && d.driverObject !in natives
    {
      assert d in devices;
    }

    /** The linked drivers number at most the counter, which is at most 32; none of them is
        IrpMonitor, and no driver is linked twice. */
    lemma LinkedDrivers()
      requires Valid()
      ensures |hooked| <= entries.totalEntry <= 32
      ensures forall i | 0 <= i < |hooked| :: hooked[i].original != monitor
      ensures forall i, j | 0 <= i < j < |hooked| :: hooked[i].original != hooked[j].original
    {
      assert forall i | 0 <= i < |hooked| :: EntryOk(hooked[i]);
    }

    lemma NeverUnhooked()
      requires Valid()
      ensures DistinctOriginals(hooked)
      ensures forall i | 0 <= i < |hooked| :: StatesOf(hooked)[i] != Unhooked
    {
      assert forall i | 0 <= i < |hooked| :: EntryOk(hooked[i]);
    }

    lemma AllNative()
      requires Valid() && hooked == []
      ensures forall D, d | D in natives && D !in stale && d in D.devices :: d.driverObject == D
    {
      forall D, d | D in natives && D !in stale && d in D.devices ensures d.driverObject == D {
        assert d in devices;
      }
    }
  }

  /** The deletion of its entry, or an earlier one if it had none, left the driver stale. */
  ghost predicate LeftStale(was: set<DriverObject>, all: seq<HookedDriver>, states: seq<HookState>, n: nat,
                            D: DriverObject)
    requires |all| == |states|
  {
    if exists i :: n <= i < |all| && all[i].original == D
    then exists i :: n <= i < |all| && all[i].original == D && states[i] == Invalid
    else D in was
  }

  lemma {:induction false} StaleAllIs(was: set<DriverObject>, all: seq<HookedDriver>, states: seq<HookState>, n: nat,
                                      D: DriverObject)
    requires n <= |all| == |states| && DistinctOriginals(all)
    requires forall i | 0 <= i < |states| :: states[i] != Unhooked
    ensures D in StaleAll(was, all, states, n) <==> LeftStale(was, all, states, n, D)
    decreases |all| - n
  {
    if n < |all| {
      StaleAllIs(was, all, states, n + 1, D);
    }
  }

  ghost function StatesOf(linked: seq<HookedDriver>): (states: seq<HookState>)
    reads linked
    ensures |states| == |linked|
    ensures forall i | 0 <= i < |linked| :: states[i] == linked[i].state
  {
    if linked == [] then [] else [linked[0].state] + StatesOf(linked[1..])
  }

  lemma StatesAppend(linked: seq<HookedDriver>, h: HookedDriver)
    ensures StatesOf(linked + [h]) == StatesOf(linked) + [h.state]
  {
  }

  lemma StatesWithout(linked: seq<HookedDriver>, k: nat)
    requires k < |linked|
    ensures |Without(linked, k)| == |linked| - 1 && StatesOf(Without(linked, k)) == Without(StatesOf(linked), k)
  {
  }

  /** The stale drivers after the entries from n on were deleted, last first. */
  ghost function StaleAll(was: set<DriverObject>, all: seq<HookedDriver>, states: seq<HookState>, n: nat)
    : set<DriverObject>
    requires n <= |all| == |states|
    decreases |all| - n
  {
    if n == |all| then was
    else
      var rest := StaleAll(was, all, states, n + 1);
      if states[n] == Hooked then rest - {all[n].original} else rest + {all[n].original}
  }
}
