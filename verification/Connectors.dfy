/** Handing parsed IRPs to the connectors, and from the JSON queue to a client. */
module Connectors {
  import opened Util
  import opened Wire
  import opened LinkedLists
  import opened CapturedIrps
  import opened BrokerIrps
  import Startup

  datatype Kind = Dummy | JsonQueue

  /** A connector; only a `JsonQueue` uses its queue. */
  class Connector {
    const kind: Kind
    var enabled: bool
    var queue: seq<CapturedIrp>

    constructor (kind: Kind)
      ensures this.kind == kind && !enabled && queue == []
    {
      this.kind := kind;
      enabled, queue := false, [];
    }

    method Enable()
      modifies this`enabled
      ensures enabled
    {
      enabled := true;
    }

    method IrpCallback(irp: CapturedIrp) returns (success: bool)
      modifies this`queue
      ensures success && queue == if kind.JsonQueue? then old(queue) + [irp] else old(queue)
    {
      if kind.JsonQueue? {
        queue := queue + [irp];
      }
      success := true;
    }

    method Pop() returns (irp: Option<CapturedIrp>)
      modifies this`queue
      ensures if old(queue) == [] then irp == None && queue == []
              else irp == Some(old(queue)[0]) && queue == old(queue)[1..]
    {
      if queue == [] {
        return None;
      }
      irp := Some(queue[0]);
      queue := queue[1..];
    }
  }

  /** The places of the enabled connectors. */
  ghost function EnabledPlaces(connectors: seq<Connector>, n: nat): set<nat>
    requires n <= |connectors|
    reads (set c | c in connectors)`enabled
  {
    set i: nat | i < n && connectors[i].enabled
  }

  lemma PlacesStep(connectors: seq<Connector>, n: nat)
    requires n < |connectors|
    ensures |EnabledPlaces(connectors, n + 1)|
         == |EnabledPlaces(connectors, n)| + if connectors[n].enabled then 1 else 0
  {
    if connectors[n].enabled {
      assert EnabledPlaces(connectors, n + 1) == EnabledPlaces(connectors, n) + {n};
    } else {
      assert EnabledPlaces(connectors, n + 1) == EnabledPlaces(connectors, n);
    }
  }

  /** Every enabled connector gets the IRP once, disabled ones do not. */
  method CallbackDispatcher(connectors: seq<Connector>, irp: CapturedIrp) returns (successes: nat)
    requires Distinct(connectors)
    modifies (set c | c in connectors)`queue
    ensures forall c | c in connectors :: c.queue == old(c.queue) + if c.enabled && c.kind.JsonQueue? then [irp] else []
    ensures successes == |set i: nat | i < |connectors| && connectors[i].enabled|
  {
    successes := 0;
    var i := 0;
    while i < |connectors|
      invariant i <= |connectors|
      invariant successes == |EnabledPlaces(connectors, i)|
      invariant forall j | 0 <= j < i ::
                  var c := connectors[j];
                  c.queue == old(connectors[j].queue) + if c.enabled && c.kind.JsonQueue? then [irp] else []
      invariant forall j | i <= j < |connectors| :: connectors[j].queue == old(connectors[j].queue)
    {
      var connector := connectors[i];
      PlacesStep(connectors, i);
      if connector.enabled {
        var success := connector.IrpCallback(irp);
        if success {
          successes := successes + 1;
        }
      }
      i := i + 1;
    }
    assert EnabledPlaces(connectors, |connectors|) == set i: nat | i < |connectors| && connectors[i].enabled;
  }

  /** The loop over the parsed IRPs: without a registered callback the batch is abandoned. */
  method DispatchAll(connectors: seq<Connector>, registered: bool, irps: seq<CapturedIrp>)
    requires Distinct(connectors)
    modifies (set c | c in connectors)`queue
    ensures forall c | c in connectors ::
              c.queue == old(c.queue) + if registered && c.enabled && c.kind.JsonQueue? then irps else []
  {
    var i := 0;
    while i < |irps|
      invariant i <= |irps|
      invariant i > 0 ==> registered
      invariant forall c | c in connectors ::
                  c.queue == old(c.queue) + if c.enabled && c.kind.JsonQueue? then irps[..i] else []
    {
      if !registered {
        break;
      }
      var successes := CallbackDispatcher(connectors, irps[i]);
      assert irps[..i + 1] == irps[..i] + [irps[i]];
      i := i + 1;
    }
    assert irps[..|irps|] == irps;
  }

  /** One turn of the IRP manager's loop on its new-data event. */
  method OnNewData(mgr: CapturedIrpManager, event: KEvent, before: nat -> seq<QueuedIrp>, during: nat -> seq<QueuedIrp>,
                   mapped: bool, connectors: seq<Connector>, registered: bool)
    returns (ghost last: nat)
    requires mgr.Valid() && (event == mgr.event || event !in mgr.Repr)
    requires SomeFit(mgr.queue, before)
    requires Distinct(connectors) && forall c | c in connectors :: c !in mgr.Repr
    modifies mgr.Repr, event, (set c | c in connectors)`queue
    ensures mgr.Valid() && !event.signalled
    ensures last < 32 && SmallestFit(old(mgr.queue), before, last)
    ensures var read := AtAttempt(old(mgr.queue), before, last);
            && mgr.queue == (if mapped then Arrived(during, 0, |read|) else read)
            && forall c | c in connectors ::
                 c.queue == old(c.queue)
                            + if mapped && registered && c.enabled && c.kind.JsonQueue? then ExportAll(read) else []
  {
    hide QueueSize, Arrived, ExportAll, SmallestFit, SomeFit, AtAttempt;
    var irps, attempts := GetNextIrps(mgr, event, before, during, mapped);
    last := attempts;
    DispatchAll(connectors, registered, irps);
  }

  datatype Response =
    | DeviceNotInitialized
    | InvalidParameter
    | CannotFindConnector
    | Pending(body: seq<CapturedIrp>, numberOfIrp: nat)

  /** The first connector of that name. */
  method GetConnectorByName(connectors: seq<Connector>, kind: Kind) returns (found: Option<Connector>)
    ensures found.None? ==> forall c | c in connectors :: c.kind != kind
    ensures found.Some? ==>
              exists k :: 0 <= k < |connectors| && connectors[k] == found.value && connectors[k].kind == kind
                && forall j | 0 <= j < k :: connectors[j].kind != kind
  {
    for i := 0 to |connectors|
      invariant forall j | 0 <= j < i :: connectors[j].kind != kind
    {
      if connectors[i].kind == kind {
        return Some(connectors[i]);
      }
    }
    return None;
  }

  /** The `GetPendingIrp` request in some global state: any non-zero count drains the first JSON queue. */
  method GetPendingIrp(connectors: seq<Connector>, state: nat, requested: nat) returns (response: Response)
    modifies (set c | c in connectors)`queue
    ensures response.DeviceNotInitialized? <==> state <= 2
    ensures match response
            case DeviceNotInitialized => true
            case InvalidParameter => requested == 0
            case CannotFindConnector => requested != 0 && forall c | c in connectors :: c.kind != JsonQueue
            case Pending(body, number) =>
              requested != 0 && number == |body| &&
              exists k :: 0 <= k < |connectors| && connectors[k].kind == JsonQueue
                && (forall j | 0 <= j < k :: connectors[j].kind != JsonQueue)
                && body == old(connectors[k].queue) && connectors[k].queue == []
                && forall c | c in connectors && c != connectors[k] :: c.queue == old(c.queue)
    ensures !response.Pending? ==> forall c | c in connectors :: c.queue == old(c.queue)
  {
    if state <= Startup.SERVICE_MANAGER_READY {
      return DeviceNotInitialized;
    }
    if requested == 0 {
      return InvalidParameter;
    }
    var found := GetConnectorByName(connectors, JsonQueue);
    if found.None? {
      return CannotFindConnector;
    }
    var connector := found.value;
    var body, number := [], 0;
    while true
      invariant body + connector.queue == old(connector.queue) && number == |body|
      invariant forall c | c in connectors && c != connector :: c.queue == old(c.queue)
      decreases |connector.queue|
    {
      var irp := connector.Pop();
      if irp.None? {
        break;
      }
      number := number + 1;
      body := body + [irp.value];
    }
    response := Pending(body, number);
  }
}
