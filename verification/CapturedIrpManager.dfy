/** The driver's queue of captured IRPs, its own item count and the event shared with the broker. */
module CapturedIrps {
  import opened Util
  import opened Wire
  import opened LinkedLists

  // ----- the queue as a value -----

  /** `event` is whether the installed event is signalled, if one is installed. */
  datatype QueueState = QueueState(items: seq<QueuedIrp>, count: nat, event: Option<bool>)

  ghost predicate Counted(s: QueueState) {
    s.count == |s.items|
  }

  ghost function AfterPush(s: QueueState, irp: QueuedIrp): QueueState {
    QueueState(s.items + [irp], s.count + 1, if s.event.Some? then Some(true) else None)
  }

  ghost function AfterPop(s: QueueState): (r: QueueState)
    requires Counted(s)
    ensures Counted(r)
  {
    if s.items == [] then s
    else QueueState(s.items[1..], s.count - 1, if s.count == 1 && s.event.Some? then Some(false) else s.event)
  }

  /** Popping until nothing is left. */
  ghost function AfterClear(s: QueueState): (r: QueueState)
    requires Counted(s)
    ensures Counted(r) && r.items == []
    decreases |s.items|
  {
    if s.items == [] then s else AfterClear(AfterPop(s))
  }

  datatype QueueOp =
    | Push(irp: QueuedIrp)
    | Pop
    | Clear
    /** Installing an event that is already signalled or not. */
    | SetEvent(signalled: bool)
    /** The broker resets the event it shares with the driver. */
    | ResetEvent

  ghost function ApplyOp(s: QueueState, op: QueueOp): (r: QueueState)
    requires Counted(s)
    ensures Counted(r)
  {
    match op
    case Push(irp) => AfterPush(s, irp)
    case Pop => AfterPop(s)
    case Clear => AfterClear(s)
    case SetEvent(signalled) => s.(event := Some(signalled))
    case ResetEvent => if s.event.Some? then s.(event := Some(false)) else s
  }

  /** Only a push and a pop that empties the queue touch the event besides the broker's own calls. */
  lemma EventOf(s: QueueState, op: QueueOp)
    requires Counted(s)
    ensures op.SetEvent? ==> ApplyOp(s, op) == QueueState(s.items, s.count, Some(op.signalled))
    ensures op == ResetEvent ==>
              ApplyOp(s, op) == QueueState(s.items, s.count, if s.event == None then None else Some(false))
    ensures op.Push? ==> ApplyOp(s, op).items == s.items + [op.irp] && ApplyOp(s, op).count == s.count + 1
    ensures op.Push? ==> ApplyOp(s, op).event == if s.event == None then None else Some(true)
    ensures op == Pop ==> ApplyOp(s, op).items == if s.items == [] then [] else s.items[1..]
    ensures op == Pop ==> ApplyOp(s, op).event == if |s.items| == 1 && s.event.Some? then Some(false) else s.event
    ensures op == Clear ==> ApplyOp(s, op).items == []
    ensures op == Clear ==> ApplyOp(s, op).event == if s.items != [] && s.event.Some? then Some(false) else s.event
  {
    if op == Clear {
      ClearKeepsAlarm(s);
    }
  }

  ghost function RunOps(s: QueueState, ops: seq<QueueOp>): (r: QueueState)
    requires Counted(s)
    ensures Counted(r)
    decreases |ops|
  {
    if ops == [] then s else RunOps(ApplyOp(s, ops[0]), ops[1..])
  }

  /** A broker woken by the event finds something in the queue. */
  ghost predicate NoFalseAlarm(s: QueueState) {
    s.event == Some(true) ==> s.items != []
  }

  /** One call keeps the alarm honest unless it installs a signalled event on an empty queue. */
  lemma AlarmStep(s: QueueState, op: QueueOp)
    requires Counted(s) && NoFalseAlarm(s)
    ensures NoFalseAlarm(ApplyOp(s, op)) <==> !(op == SetEvent(true) && s.items == [])
  {
    if op == Clear {
      ClearKeepsAlarm(s);
    }
  }

  lemma {:induction false} ClearKeepsAlarm(s: QueueState)
    requires Counted(s)
    ensures s.items != [] && s.event.Some? ==> AfterClear(s).event == Some(false)
    ensures s.event.None? ==> AfterClear(s).event.None?
    decreases |s.items|
  {
    if s.items != [] {
      ClearKeepsAlarm(AfterPop(s));
    }
  }

  /** Over every run that installs only unsignalled events, the count is the queue length and a
      signalled event means a non-empty queue. */
  lemma {:induction false} AlarmRun(s: QueueState, ops: seq<QueueOp>)
    requires Counted(s) && NoFalseAlarm(s)
    requires forall i | 0 <= i < |ops| :: ops[i] != SetEvent(true)
    ensures Counted(RunOps(s, ops)) && NoFalseAlarm(RunOps(s, ops))
    decreases |ops|
  {
    if ops != [] {
      AlarmStep(s, ops[0]);
      AlarmRun(ApplyOp(s, ops[0]), ops[1..]);
    }
  }

  /** Without the broker's resets, an event installed on an empty queue is signalled
      exactly when the queue is non-empty. */
  lemma {:induction false} AlarmExact(s: QueueState, ops: seq<QueueOp>)
    requires Counted(s) && s.event == Some(s.items != [])
    requires forall i | 0 <= i < |ops| :: !ops[i].SetEvent? && !ops[i].ResetEvent?
    ensures var r := RunOps(s, ops); r.event == Some(r.items != [])
    decreases |ops|
  {
    if ops != [] {
      ClearKeepsAlarm(s);
      AlarmExact(ApplyOp(s, ops[0]), ops[1..]);
    }
  }

  // ----- the queue in the heap -----

  class KEvent {
    var signalled: bool

    constructor (signalled: bool)
      ensures this.signalled == signalled
    {
      this.signalled := signalled;
    }
  }

  class CapturedIrpManager {
    const entries: LinkedList<QueuedIrp>
    var count: nat
    var event: KEvent?
    /** The queued IRPs, oldest first. */
    ghost var queue: seq<QueuedIrp>
    ghost var Repr: set<object>

    ghost predicate Valid()
      reads this, Repr
      ensures Valid() ==> this in Repr
    {
      && this in Repr && entries in Repr && entries.Repr <= Repr
      && (event != null ==> event in Repr)
      && entries.Valid() && queue == entries.Items()
      && entries.totalEntry == |queue|
      && count == |queue|
    }

    ghost function State(): (s: QueueState)
      requires Valid()
      reads this, Repr
      ensures Counted(s)
    {
      QueueState(queue, count, if event == null then None else Some(event.signalled))
    }

    constructor ()
      ensures Valid() && fresh(Repr)
      ensures State() == QueueState([], 0, None)
    {
      entries := new LinkedList<QueuedIrp>();
      count, event, queue := 0, null, [];
      new;
      Repr := {this, entries} + entries.Repr;
    }

    /** None is a handle the object manager cannot resolve. */
    method SetEvent(handle: Option<KEvent>) returns (success: bool)
      requires Valid()
      modifies this`event, this`Repr
      ensures Valid() && success == handle.Some?
      ensures handle.None? ==> event == old(event) && State() == old(State())
      ensures handle.Some? ==> event == handle.value
                               && State() == old(State()).(event := Some(handle.value.signalled))
    {
      if handle.None? {
        return false;
      }
      event := handle.value;
      Repr := Repr + {event};
      return true;
    }

    method Push(item: QueuedIrp) returns (success: bool)
      requires Valid()
      modifies Repr
      ensures Valid() && fresh(Repr - old(Repr)) && event == old(event)
      ensures success && State() == AfterPush(old(State()), item)
      ensures queue == old(queue) + [item] && count == old(count) + 1 && (event != null ==> event.signalled)
    {
      var entry := new ListEntry(Some(item));
      entries.PushBack(entry);
      queue := queue + [item];
      Repr := Repr + {entry};
      count := count + 1;
      if event != null {
        event.signalled := true;
      }
      success := true;
    }

    method Pop() returns (item: Option<QueuedIrp>)
      requires Valid()
      modifies Repr
      ensures Valid() && Repr == old(Repr) && event == old(event)
      ensures State() == AfterPop(old(State()))
      ensures item == if old(queue) == [] then None else Some(old(queue)[0])
      ensures queue == (if old(queue) == [] then [] else old(queue)[1..]) && count == |queue|
      ensures event != null ==> event.signalled == (old(event.signalled) && |old(queue)| != 1)
    {
      var entry := entries.PopFront();
      if entry == null {
        return None;
      }
      item := entry.record;
      queue := queue[1..];
      count := count - 1;
      if count == 0 && event != null {
        event.signalled := false;
      }
    }

    method Clear()
      requires Valid()
      modifies Repr
      ensures Valid() && Repr == old(Repr) && event == old(event)
      ensures State() == AfterClear(old(State())) && queue == [] && count == 0
      ensures event != null ==> event.signalled == (old(event.signalled) && old(queue) == [])
    {
      ClearKeepsAlarm(State());
      while true
        invariant Valid() && Repr == old(Repr) && event == old(event)
        invariant AfterClear(State()) == AfterClear(old(State()))
        decreases count
      {
        var item := Pop();
        if item.None? {
          break;
        }
      }
    }
  }
}
