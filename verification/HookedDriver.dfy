/** One hooked driver: the copied driver object its devices are redirected to, and its capture state. */
module HookedDrivers {
  import opened LinkedLists

  // ----- the kernel's objects -----

  /** A dispatch routine: the interception routine, or one of a driver's own. */
  datatype Routine = Intercept | Native(id: nat)

  /** IRP_MJ_MAXIMUM_FUNCTION + 1 dispatch entries. */
  const MAJOR_FUNCTIONS: nat := 0x1c

  /** The device chain of a driver does not change while it is hooked. */
  class DeviceObject {
    const nextDevice: DeviceObject?
    var driverObject: DriverObject

    constructor (driverObject: DriverObject, nextDevice: DeviceObject?)
      ensures this.driverObject == driverObject && this.nextDevice == nextDevice
    {
      this.driverObject, this.nextDevice := driverObject, nextDevice;
    }
  }

  class DriverObject {
    const deviceObject: DeviceObject?
    /** The device chain, from `deviceObject` on. */
    ghost const devices: seq<DeviceObject>
    var majorFunction: seq<Routine>

    /** A byte copy of a driver object. */
    constructor Copy(other: DriverObject)
      ensures deviceObject == other.deviceObject && devices == other.devices
      ensures majorFunction == other.majorFunction
    {
      deviceObject, devices, majorFunction := other.deviceObject, other.devices, other.majorFunction;
    }

    ghost predicate WellFormed()
    {
      IsChain(deviceObject, devices) && Distinct(devices)
    }

    ghost function DeviceSet(): set<DeviceObject> {
      set d | d in devices
    }
  }

  ghost predicate IsChain(first: DeviceObject?, devices: seq<DeviceObject>) {
    if devices == [] then first == null
    else first == devices[0] && IsChain(devices[0].nextDevice, devices[1..])
  }

  /** Walks a chain looking for a device. */
  predicate OnChain(current: DeviceObject?, device: DeviceObject, ghost devices: seq<DeviceObject>)
    requires IsChain(current, devices)
    ensures OnChain(current, device, devices) <==> device in devices
    decreases |devices|
  {
    current != null && (current == device || OnChain(current.nextDevice, device, devices[1..]))
  }

  // ----- the capture state as a value -----

  datatype HookState = Invalid | Unhooked | Hooked

  datatype Hook = Hook(state: HookState, capturing: bool, irpCount: nat)

  predicate Captures(h: Hook) {
    h.state == Hooked && h.capturing
  }

  datatype HookOp = Swap | Restore | Enable | Disable | FlagInvalid | CountIrp

  function ApplyHook(h: Hook, op: HookOp): Hook {
    match op
    case Swap => if h.state == Unhooked then h.(state := Hooked) else h
    case Restore => if h.state == Hooked then h.(state := Unhooked) else h
    case Enable => if h.state == Hooked then h.(capturing := true) else h
    case Disable => h.(capturing := false)
    case FlagInvalid => h.(state := Invalid)
    case CountIrp => h.(irpCount := h.irpCount + 1)
  }

  function RunHook(h: Hook, ops: seq<HookOp>): Hook
    decreases |ops|
  {
    if ops == [] then h else RunHook(ApplyHook(h, ops[0]), ops[1..])
  }

  /** What each operation leaves, written out. */
  lemma OperationsAre(h: Hook)
    ensures Captures(h) <==> h.state == Hooked && h.capturing
    ensures ApplyHook(h, Swap) == Hook(if h.state == Unhooked then Hooked else h.state, h.capturing, h.irpCount)
    ensures ApplyHook(h, Restore) == Hook(if h.state == Hooked then Unhooked else h.state, h.capturing, h.irpCount)
    ensures ApplyHook(h, Enable) == Hook(h.state, h.capturing || h.state == Hooked, h.irpCount)
    ensures ApplyHook(h, Disable) == Hook(h.state, false, h.irpCount)
    ensures ApplyHook(h, FlagInvalid) == Hook(Invalid, h.capturing, h.irpCount)
    ensures ApplyHook(h, CountIrp) == Hook(h.state, h.capturing, h.irpCount + 1)
  {
  }

  /** Switching off always works, switching on exactly for a hooked driver. */
  lemma SwitchedCapture(h: Hook)
    ensures !Captures(ApplyHook(h, Disable))
    ensures Captures(ApplyHook(h, Enable)) <==> h.state == Hooked
  {
  }

  /** A driver flagged invalid never captures again, is never hooked again and never restored. */
  lemma {:induction false} InvalidForever(h: Hook, ops: seq<HookOp>)
    requires h.state == Invalid
    ensures RunHook(h, ops).state == Invalid && !Captures(RunHook(h, ops))
    decreases |ops|
  {
    if ops != [] {
      InvalidForever(ApplyHook(h, ops[0]), ops[1..]);
    }
  }

  // ----- the hooked driver -----

  /** A device of the driver is redirected only if it still points to the driver. */
  ghost function Redirected(was: DriverObject, original: DriverObject, copy: DriverObject): DriverObject {
    if was == original then copy else was
  }

  class HookedDriver {
    const path: seq<char>
    const original: DriverObject
    const copy: DriverObject
    var capturing: bool
    var state: HookState
    var irpCount: nat

    ghost function Value(): Hook
      reads this
    {
      Hook(state, capturing, irpCount)
    }

    /** `original` is what the name resolves to. */
    constructor (path: seq<char>, original: DriverObject)
      requires original.WellFormed() && |original.majorFunction| == MAJOR_FUNCTIONS
      modifies original.DeviceSet()`driverObject
      ensures this.path == path && this.original == original && fresh(copy)
      ensures Value() == Hook(Hooked, false, 0) && state == Hooked && !capturing && irpCount == 0
      ensures copy.majorFunction == seq(MAJOR_FUNCTIONS, i => Intercept)
      ensures |copy.majorFunction| == 28 && forall m | 0 <= m < 28 :: copy.majorFunction[m] == Intercept
      ensures forall d | d in original.devices :: d.driverObject == Redirected(old(d.driverObject), original, copy)
      ensures forall d | d in original.devices ::
                d.driverObject == if old(d.driverObject) == original then copy else old(d.driverObject)
    {
      this.path, this.original := path, original;
      copy := new DriverObject.Copy(original);
      capturing, state, irpCount := false, Unhooked, 0;
      new;
      SwapCallbacks();
    }

    method SwapCallbacks()
      requires original.WellFormed() && |copy.majorFunction| == MAJOR_FUNCTIONS && copy != original
      modifies this`state, copy, original.DeviceSet()`driverObject
      ensures Value() == ApplyHook(old(Value()), Swap)
      ensures state == (if old(state) == Unhooked then Hooked else old(state)) && irpCount == old(irpCount)
      ensures old(state) == Unhooked ==>
                && |copy.majorFunction| == 28 && (forall m | 0 <= m < 28 :: copy.majorFunction[m] == Intercept)
                && forall d | d in original.devices ::
                     d.driverObject == if old(d.driverObject) == original then copy else old(d.driverObject)
      ensures if old(state) == Unhooked then
                && copy.majorFunction == seq(MAJOR_FUNCTIONS, i => Intercept)
                && forall d | d in original.devices :: d.driverObject == Redirected(old(d.driverObject), original, copy)
              else
                && copy.majorFunction == old(copy.majorFunction)
                && forall d | d in original.devices :: d.driverObject == old(d.driverObject)
    {
      if state != Unhooked {
        return;
      }
      for i := 0 to MAJOR_FUNCTIONS
        modifies copy
        invariant |copy.majorFunction| == MAJOR_FUNCTIONS
        invariant forall j | 0 <= j < i :: copy.majorFunction[j] == Intercept
      {
        copy.majorFunction := copy.majorFunction[i := Intercept];
      }
      assert copy.majorFunction == seq(MAJOR_FUNCTIONS, i => Intercept);
      var device := original.deviceObject;
      ghost var k := 0;
      ghost var chain := original.devices;
      assert chain[0..] == chain;
      while device != null
        modifies original.DeviceSet()`driverObject
        invariant k <= |chain| && IsChain(device, chain[k..])
        invariant forall j | 0 <= j < k ::
                    chain[j].driverObject == Redirected(old(chain[j].driverObject), original, copy)
        invariant forall j | k <= j < |chain| :: chain[j].driverObject == old(chain[j].driverObject)
        decreases |chain| - k
      {
        assert device == chain[k] && chain[k..][1..] == chain[k + 1..];
        if device.driverObject == original {
          device.driverObject := copy;
        }
        device, k := device.nextDevice, k + 1;
      }
      state := Hooked;
    }

    method RestoreCallbacks()
      requires original.WellFormed()
      modifies this`state, original.DeviceSet()`driverObject
      ensures Value() == ApplyHook(old(Value()), Restore)
      ensures state == (if old(state) == Hooked then Unhooked else old(state)) && irpCount == old(irpCount)
      ensures forall d | d in original.devices ::
                d.driverObject == if old(state) == Hooked then original else old(d.driverObject)
    {
      if state != Hooked {
        return;
      }
      state := Unhooked;
      var device := original.deviceObject;
      ghost var k := 0;
      ghost var chain := original.devices;
      assert chain[0..] == chain;
      while device != null
        modifies original.DeviceSet()`driverObject
        invariant k <= |chain| && IsChain(device, chain[k..])
        invariant forall j | 0 <= j < k :: chain[j].driverObject == original
        decreases |chain| - k
      {
        assert device == chain[k] && chain[k..][1..] == chain[k + 1..];
        device.driverObject := original;
        device, k := device.nextDevice, k + 1;
      }
    }

    method EnableCapturing() returns (success: bool)
      modifies this`capturing
      ensures Value() == ApplyHook(old(Value()), Enable)
      ensures capturing == (old(capturing) || state == Hooked) && state == old(state)
      ensures success <==> state == Hooked
    {
      if state != Hooked {
        return false;
      }
      if !capturing {
        capturing := true;
      }
      return true;
    }

    method DisableCapturing() returns (success: bool)
      modifies this`capturing
      ensures Value() == ApplyHook(old(Value()), Disable) && success
      ensures !capturing && state == old(state)
    {
      capturing := false;
      return true;
    }

    method FlagAsInvalid()
      modifies this`state
      ensures Value() == ApplyHook(old(Value()), FlagInvalid)
      ensures state == Invalid
    {
      state := Invalid;
    }

    method CanCapture() returns (can: bool)
      ensures can <==> Captures(Value())
      ensures can <==> state == Hooked && capturing
    {
      can := state == Hooked && capturing;
    }

    method IncrementIrpCount()
      modifies this`irpCount
      ensures Value() == ApplyHook(old(Value()), CountIrp)
      ensures irpCount == old(irpCount) + 1
    {
      irpCount := irpCount + 1;
    }

    /** The destructor. */
    method Destroy()
      requires original.WellFormed()
      modifies this`state, this`capturing, original.DeviceSet()`driverObject
      ensures Value() == RunHook(old(Value()), [Disable, Restore])
      ensures !capturing && state == if old(state) == Hooked then Unhooked else old(state)
      ensures forall d | d in original.devices ::
                d.driverObject == if old(state) == Hooked then original else old(d.driverObject)
    {
      var disabled := DisableCapturing();
      RestoreCallbacks();
      assert [Disable, Restore][1..] == [Restore];
    }
  }
}
