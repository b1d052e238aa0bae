# CFB: the capture pipeline, the hooking engine and their smaller parts

CFB intercepts the I/O requests (IRPs) sent to Windows drivers. A kernel driver, IrpMonitor, redirects the devices
of the drivers it hooks to copies of their driver objects whose dispatch tables point to its own routine, and queues
what it captures. A user-mode broker reads that queue and hands the IRPs to clients. This project models that
machinery in Dafny 4 and proves what it keeps; `dafny verify dfyconfig.toml` covers every file.

| file | what it models |
|---|---|
| `LinkedList.dfy` | the driver's intrusive circular list in the heap, against a mathematical list and its counter |
| `Wire.dfy`, `WireProofs.dfy` | the packed byte format, its serialisation and its parser |
| `CapturedIrpManager.dfy` | the driver's queue, its count and the event it shares with the broker |
| `DriverRead.dfy` | one driver read: sizing, popping and copying while other processors push |
| `BrokerIrpManager.dfy` | the broker's retries with a doubling buffer, and its parse of the bytes |
| `Connectors.dfy` | dispatch to the connectors, and the client's `GetPendingIrp` |
| `Pipeline.dfy` | all of these as one state machine, from a push to a client |
| `Delivery.dfy` | when everything captured can still be delivered |
| `HookedDriver.dfy`, `HookedDriverManager.dfy` | hooking, unhooking, and where every device of every driver points |
| `Capacity.dfy` | room in the list of hooked drivers over runs of requests |
| `Callbacks.dfy` | the interception routine, and dispatch through whatever a device points to |
| `Overlap.dfy` | interceptions that overlap on several processors |
| `Transparency.dfy` | whole runs of hooking requests, capture requests and dispatches |
| `Base64.dfy` | the broker's Base64 codec against section 4 of RFC 4648 |
| `Alignment.dfy`, `KAlloc.dfy` | alignment arithmetic, and the owner of pool memory |
| `Startup.dfy` | how the broker's four manager threads wait for each other |
| `Hexdump.dfy` | the layout of the hexadecimal dump |
| `Util.dfy` | shared types and sequence facts |

Code that changes state is modelled as classes and methods with loops. Each method is tied to a function of the old
state, and the lemmas are about those functions over every sequence of calls or steps. Concurrency is modelled in two
ways: a schedule says what arrives between two atomic steps (`DriverRead`, `BrokerIrps`), or every interleaving of
atomic steps is a run of a state machine (`Pipeline`, `Startup`, `Overlap`). The atomic steps are the calls that hold a
named lock, and in `Overlap` also each unlocked read of a field; there is one reader of the driver's queue.

## What the code does not guarantee

Where a promise fails, one lemma says exactly when, over all inputs or runs, and another may show an instance.

- `LinkedList::Remove` counts a removal only when it empties the list. The counter is too high by the number of other
  removals (`CounterDrift`, `CounterExact`). So a driver is refused for lack of room exactly if the hooked drivers and
  the unhookings that left another driver hooked number at least 32 together (`RefusedExactly`, `ServeThenInsert`);
  unhooking all drivers does not give the room back (`CapacityLeak`).
- A deleted entry that was flagged invalid leaves its driver's devices pointing to the deleted copy. The model calls
  such a driver stale; hooking it again does not heal it, unhooking that new entry does. Which drivers are stale after
  a run is part of the engine's value that `Serve` computes; `LeavesStale` is a run of three requests that leaves one.
- Callers of a hooked driver get back what they would with nothing hooked exactly if its routines raise no exception
  (`TransparentExact`); one that is raised becomes an unsuccessful status.
- After a driver was flagged invalid, an interception of it can still push its IRP exactly if its second test of the
  hook state came before the flag (`LatePushExact`, `LatePushReachable`).
- A queued IRP does not always wake the broker. `StallExact` says when: some step forgot an IRP, and nothing was pushed
  since. There are three such steps: a push before the broker's event is installed (`UnheardStalls`; clients can have
  drivers hooked that early, `ServedBeforeEvent`), the end of a successful read during which something was pushed
  (`StallReachable`), and a read that fails although its buffer is large enough, with no push beside it
  (`FailedReadStalls`). Only a push with the event installed ends a stall (`StallStep`, `StalledUntilPush`).
- IRPs are dropped exactly in the runs that dispatch before the connectors are in place (`LossExact`, `LossReachable`),
  and the start-up protocol allows that: a wait for a state ends on any change of state, and by the time the service
  manager is ready no wait waits (`WaitsOpen`). The loop that reads IRPs runs without a dispatcher exactly if the IRP
  manager's thread goes on from its set-up before the connector manager has registered it (`EarlyExact`). The state goes
  from Running back to IrpManagerReady exactly if the IRP manager stores its state after the connector manager
  (`BackExact`).
- So what was captured cannot always be delivered. `DeliveryExact` says when it still can, without another push: nothing
  was dropped, nothing is left behind by a read or a forgotten signal, and what waits for a read has at most 2^31 bytes.
- The buffer length doubles in 32 bits. Retrying a fixed queue ends exactly if it has at most 2^31 bytes
  (`PollingEnds`), retrying a growing one exactly if one of the first 32 attempts fits (`PollingEndsGrowing`).
- A record cut inside a buffer parses to a wrong record: cut inside the input, the output buffer is read from the start
  of the input, and buffer bytes left over come out as further records exactly if there is at least a header of them
  (`CutRecord`).
- `GetPendingIrp` uses the requested number of IRPs only to refuse zero; it always drains the queue.
- `ManagerBase::WaitForState` sets its shut-down mark on a change of state and not on the termination event.
- Rounding up wraps to zero exactly for values above 2^64 less the base (`AlignExact`); an owner of such a size is not
  valid and owns nothing (`ConstructExact`). The result is always a multiple of the base exactly if the base is a power
  of two (`AlignBoundExact`; `AlignOddBound` is an instance).

## Model

| member | source | states |
|---|---|---|
| `LinkedLists.LinkedList.constructor` | Driver/Headers/DriverUtils.hpp:562-565 | a ring of the head alone: the empty list, counter zero |
| `LinkedLists.LinkedList.PushBack` | Driver/Headers/DriverUtils.hpp:573-579 | the new entry is last in the ring, all others keep their place and order, and the counter rises by one |
| `LinkedLists.LinkedList.PushFront` | Driver/Headers/DriverUtils.hpp:581-587 | the new entry is first, all others keep their place and order, and the counter rises by one |
| `LinkedLists.LinkedList.RemoveEntryList` | Driver/Headers/DriverUtils.hpp:599 | relinking the two neighbours leaves a ring without exactly that entry; the answer is true exactly if nothing is left |
| `LinkedLists.LinkedList.Remove` | Driver/Headers/DriverUtils.hpp:595-605 | exactly that entry is gone; the counter falls only if it was the last one |
| `LinkedLists.LinkedList.PopFront` | Driver/Headers/DriverUtils.hpp:613-629 | the first entry, or null exactly when nothing is linked, even if the counter is not zero; the rest stays in order |
| `LinkedLists.LinkedList.PopBack` | Driver/Headers/DriverUtils.hpp:631-647 | the last entry, or null exactly when nothing is linked; the rest stays in order |
| `LinkedLists.LinkedList.Find` | Driver/Headers/DriverUtils.hpp:649-666 | the first entry that meets the condition; null exactly if none does |
| `LinkedLists.LinkedList.ForEach` | Driver/Headers/DriverUtils.hpp:668-683 | every record is visited once, in list order, each visit with the state the one before it left; the answer is true exactly if every visit succeeded |
| `LinkedLists.FoldVisits` | Driver/Headers/DriverUtils.hpp:668-683 | for any visitor, the states follow one another from the first record to the last, and the running success is that of all visits so far |
| `LinkedLists.CounterDrift` | Driver/Headers/DriverUtils.hpp:573-647 | over every sequence of calls, the counter exceeds the length by exactly the removals that left something behind |
| `LinkedLists.CounterExact` | Driver/Headers/DriverUtils.hpp:573-647 | from the empty list the counter is never below the length, and equals it if and only if no removal left something behind |
| `LinkedLists.ChurnLeaks` | Driver/Headers/DriverUtils.hpp:595-605 | n rounds of inserting and removing beside a resident entry: the same list, the counter n higher |
| `Wire.HeaderLayout` | Common/Headers/Comms.hpp:14-32 | the packed header has 1572 bytes and every member lies at its offset |
| `Wire.HeaderRoundTrip` | Common/Headers/Comms.hpp:14-32 | reading the members back at their offsets gives the header |
| `Wire.HeaderBytesRoundTrip` | Common/Headers/Comms.hpp:14-32 | any 1572 bytes are the bytes of the header read from them |
| `Wire.FirstRecord` | Broker/Source/IrpManager.cpp:225-266 | a record read from any buffer uses at least a header and no byte beyond the end |
| `Wire.Export` | Driver/Source/CapturedIrp.cpp:419-440 | the header written for a captured IRP declares exactly the lengths of the two buffers that follow it; its other fields are stated by `ExportFields` |
| `Wire.U32Is` | Common/Headers/Comms.hpp:24-31 | a number of the format has its least significant byte first |
| `WireProofs.ExportFields` | Driver/Source/CapturedIrp.cpp:419-440 | every field of a written record is the field of that name of the captured IRP, each name followed by zeros up to 512 bytes |
| `WireProofs.WrittenBytes` | Driver/Source/Entry.cpp:322-391 | what the driver writes for any captured IRP at every offset: the time stamp at 0, the four single bytes at 1032 to 1035, control code, process, thread and status at 1036, 1040, 1044 and 1048, the two lengths at 1564 and 1568, the names at 8, 520 and 1052, and the two buffers from 1572 on, input first |
| `WireProofs.ReadFields` | Broker/Source/IrpManager.cpp:225-240 | the broker reads each member at the offset at which it is written |
| `WireProofs.ParseAppend` | Broker/Source/IrpManager.cpp:217-276 | complete records written one after the other, followed by any bytes, parse to those records followed by the parse of the rest |
| `WireProofs.RoundTrip` | Driver/Source/Entry.cpp:322-391 | parsing what the driver writes for any queue gives that queue's records, byte for byte, and its size is what the sizing pass adds up |
| `WireProofs.ParseUsesBytes` | Broker/Source/IrpManager.cpp:217-276 | on any buffer the records account for its bytes in order, each for at least a header, with less than a header left over |
| `WireProofs.ParseLengths` | Broker/Source/IrpManager.cpp:252-266 | on any buffer each parsed buffer has its declared length or is empty |
| `WireProofs.WellFormedBuffers` | Broker/Source/IrpManager.cpp:217-276 | a buffer is a serialised list of complete records if and only if parsing uses every byte and every record is complete |
| `WireProofs.PrefixIntact` | Broker/Source/IrpManager.cpp:217-276 | cut inside record k, the records before it come out first and intact, then what the fragment alone parses to, which is nothing if and only if the cut is in the header |
| `WireProofs.EveryCut` | Broker/Source/IrpManager.cpp:225-233 | every shorter prefix of a serialised queue is such a cut, inside the first record that does not lie whole within it |
| `WireProofs.CutRecord` | Broker/Source/IrpManager.cpp:252-266 | exactly what a record cut after its header parses to: its first record in the three cases of where the cut falls, then the parse of the bytes left over, which gives further records if and only if they are at least a header |
| `CapturedIrps.CapturedIrpManager.SetEvent` | Driver/Source/CapturedIrpManager.cpp:32-62 | a resolved event replaces the old one; an unresolved handle changes nothing |
| `CapturedIrps.CapturedIrpManager.Push` | Driver/Source/CapturedIrpManager.cpp:65-85 | the IRP is queued last, the count rises by one, an installed event is signalled |
| `CapturedIrps.CapturedIrpManager.Pop` | Driver/Source/CapturedIrpManager.cpp:88-113 | the oldest IRP or none; the event is cleared exactly when the queue becomes empty |
| `CapturedIrps.CapturedIrpManager.Clear` | Driver/Source/CapturedIrpManager.cpp:116-127 | ends with an empty queue by repeated pops, so that the event of a queue that was not empty is cleared and any other keeps its value |
| `CapturedIrps.EventOf` | Driver/Source/CapturedIrpManager.cpp:32-127 | what each call and the broker's reset leave in the queue and the event: a push signals an installed event, only a pop that empties the queue, a clear of a non-empty one and the reset clear it |
| `CapturedIrps.AlarmStep` | Driver/Source/CapturedIrpManager.cpp:32-127 | a call keeps "signalled means non-empty" if and only if it does not install a signalled event on an empty queue |
| `CapturedIrps.AlarmRun` | Driver/Source/CapturedIrpManager.cpp:32-127 | in every sequence of calls and broker resets that installs only unsignalled events, the count is the length and signalled means non-empty |
| `CapturedIrps.AlarmExact` | Driver/Source/CapturedIrpManager.cpp:65-127 | without broker resets, an event installed on an empty queue is signalled exactly when the queue is non-empty |
| `CapturedIrps.ClearKeepsAlarm` | Driver/Source/CapturedIrpManager.cpp:116-127 | clearing a non-empty queue leaves its event unsignalled |
| `DriverRead.SizingResult` | Driver/Source/Entry.cpp:271-277 | the sizing pass over a queue returns its serialised size and its length |
| `DriverRead.CopyRecord` | Driver/Source/Entry.cpp:325-391 | header, input and output are copied one after the other as long as they end before the upper end; nothing after them is written |
| `DriverRead.CopyNext` | Driver/Source/Entry.cpp:315-391 | one turn of the loop, with its two error exits and what each leaves queued and written |
| `DriverRead.PopIs` | Driver/Source/Entry.cpp:315-391 | a pop of the loop is bad data exactly on an empty queue and an overflow exactly if the whole record is longer than the room left; otherwise it adds exactly that record's bytes |
| `DriverRead.FittingParts` | Driver/Source/Entry.cpp:325-391 | what a record that does not fit leaves in the buffer: nothing, its header, or its header and input |
| `DriverRead.CopyQueue` | Driver/Source/Entry.cpp:302-395 | the loop for any count and any upper end, whatever is pushed between its pops |
| `DriverRead.CopyExact` | Driver/Source/Entry.cpp:302-397 | with the count and size of the queue as sized, no error exit is reached: exactly that queue is written and exactly the later pushes are left |
| `DriverRead.DriverReadRoutine` | Driver/Source/Entry.cpp:267-397 | a small buffer or a failed mapping changes nothing; otherwise exactly the sized queue's bytes are written, their number is returned, and the later pushes stay queued |
| `BrokerIrps.AttemptLengths` | Broker/Source/IrpManager.cpp:179-198 | attempt k has 2^k bytes for k below 32 and none from then on |
| `BrokerIrps.PollingEnds` | Broker/Source/IrpManager.cpp:184-205 | against a fixed queue some attempt is large enough if and only if the queue has at most 2^31 bytes |
| `BrokerIrps.PollingEndsGrowing` | Broker/Source/IrpManager.cpp:184-205 | while IRPs keep arriving, some attempt is large enough for what it meets if and only if one of the first 32 is |
| `BrokerIrps.ReadRecord` | Broker/Source/IrpManager.cpp:220-266 | one turn of the parser reads the first record of what is left and stays inside the data |
| `BrokerIrps.ParseIrps` | Broker/Source/IrpManager.cpp:217-276 | the loop over offsets gives the parse of the bytes that were read, for any bytes |
| `BrokerIrps.Poll` | Broker/Source/IrpManager.cpp:184-205 | while IRPs keep arriving, the attempts before the last were too small for what they met and removed nothing; the last one gets everything queued by then |
| `BrokerIrps.GetNextIrps` | Broker/Source/IrpManager.cpp:174-286 | every IRP queued at the successful attempt comes out once, in order, byte for byte; later ones stay queued; the event is reset |
| `BrokerIrps.FixedQueueFit` | Broker/Source/IrpManager.cpp:184-199 | with nothing pushed in between, the last length is the least power of two that holds the queue |
| `Connectors.Connector.IrpCallback` | Broker/Source/Connectors/JsonQueue.cpp:24-30 | a JSON queue keeps the IRP last; another connector keeps nothing |
| `Connectors.Connector.Pop` | Broker/Source/Connectors/JsonQueue.cpp:32-45 | the oldest IRP, or none from an empty queue |
| `Connectors.CallbackDispatcher` | Broker/Source/ConnectorManager.cpp:28-56 | an IRP reaches every enabled JSON queue exactly once, last, and no disabled connector; the answer is the number of enabled connectors |
| `Connectors.DispatchAll` | Broker/Source/IrpManager.cpp:143-155 | the whole batch reaches the enabled queues in order, or is abandoned without a callback |
| `Connectors.OnNewData` | Broker/Source/IrpManager.cpp:139-157 | one turn of the loop moves exactly the IRPs that were read, in order, to the enabled JSON queues |
| `Connectors.GetConnectorByName` | Broker/Source/ConnectorManager.cpp:115-132 | the first connector of that kind, none exactly if there is none |
| `Connectors.GetPendingIrp` | Broker/Source/DriverManager.cpp:91-299 | refused before the service is up, for a zero request and without a JSON queue; otherwise the first JSON queue comes out whole, in order, with its length, whatever number was asked for |
| `Pipeline.Conservation` | Broker/Source/IrpManager.cpp:143-286 | in every interleaving no read fails half-way, and what was pushed is what the broker handed over, then what is in flight, then what is queued |
| `Pipeline.DispatchStep` | Broker/Source/IrpManager.cpp:143-155 | one dispatch hands over exactly the first IRP, which every connector in place keeps; without a callback the whole rest of the batch is lost |
| `Pipeline.ReadStep` | Broker/Source/IrpManager.cpp:184-205 | one read: a buffer shorter than the serialised queue is doubled in 32 bits and removes nothing, a failed one ends the poll and resets the event, any other copies exactly what is queued then |
| `Pipeline.CopyStep` | Driver/Source/Entry.cpp:315-391 | in every reachable state the next pop of a copy adds exactly the oldest IRP's record, and a copy that is over gives the broker exactly the IRPs it popped |
| `Pipeline.LossExact` | Broker/Source/IrpManager.cpp:143-155 | nothing is lost if and only if every dispatch finds the connectors in place |
| `Pipeline.InOrderDelivery` | Broker/Source/DriverManager.cpp:281-297 | then what was pushed is what clients got, then the JSON queue, then what is in flight, then the driver's queue: once, in order, byte for byte |
| `Pipeline.ConnectedFirst` | Broker/Source/ConnectorManager.cpp:77-97 | whatever happens after the connectors are set up, every dispatch finds them |
| `Pipeline.LossReachable` | Broker/Source/IrpManager.cpp:148-152 | for any one IRP, a run in which nothing fails reads it before a dispatcher is registered and drops it |
| `Pipeline.StallStep` | Driver/Source/CapturedIrpManager.cpp:65-113 | one step begins a stall if and only if it pushes while no event is installed, or resets the event over a non-empty queue at the end of a read or in a failed one; nothing but a push with the event installed ends one |
| `Pipeline.StallExact` | Broker/Source/IrpManager.cpp:143-286 | a run ends with IRPs queued, no read under way and no signal if and only if one of its steps is such a step and no push comes after it |
| `Pipeline.StalledUntilPush` | Broker/Source/IrpManager.cpp:128-157 | until the next push such a queue stays as it is and is not read |
| `Pipeline.StallReachable` | Broker/Source/IrpManager.cpp:280-283 | for any two IRPs, with the connectors in place: the reset after a successful read forgets a push made during it |
| `Pipeline.FailedReadStalls` | Broker/Source/IrpManager.cpp:202-204 | for any one IRP: the reset after a failed read forgets what is queued |
| `Pipeline.UnheardStalls` | Driver/Source/CapturedIrpManager.cpp:75-82 | for any one IRP: pushed before the event is installed it stalls, with no reset in the run |
| `Delivery.LeftBehindStays` | Driver/Source/Entry.cpp:302-395 | IRPs pushed after the read under way was sized, or stalled, stay behind in every step but a push |
| `Delivery.NextKeeps` | Broker/Source/IrpManager.cpp:126-157 | from every reachable state in which everything queued can be read, the next step of the broker or the client brings delivery closer |
| `Delivery.RunsOut` | Broker/Source/IrpManager.cpp:126-157 | so from every such state some continuation without a push empties the queue, the broker and the JSON queue |
| `Delivery.DeliveryExact` | Broker/Source/DriverManager.cpp:281-297 | after any run, some continuation without a push delivers everything captured so far, once, in order and byte for byte, if and only if nothing was dispatched too early, nothing is left behind, and what waits for a read has at most 2^31 bytes |
| `HookedDrivers.OnChain` | Driver/Source/CapturedIrp.cpp:31-42 | the walk along the chain finds a device exactly if it is one of the driver's |
| `HookedDrivers.HookedDriver.constructor` | Driver/Source/HookedDriver.cpp:12-50 | hooked, not capturing; every device that pointed to the driver points to the copy, whose table is the interception routine throughout |
| `HookedDrivers.HookedDriver.SwapCallbacks` | Driver/Source/HookedDriver.cpp:64-111 | if unhooked, all 28 entries and all devices that pointed to the driver are redirected; otherwise nothing changes |
| `HookedDrivers.HookedDriver.RestoreCallbacks` | Driver/Source/HookedDriver.cpp:114-138 | if hooked, every device points to the driver again; otherwise nothing changes |
| `HookedDrivers.HookedDriver.EnableCapturing` | Driver/Source/HookedDriver.cpp:141-155 | if hooked, capture is on and the answer true; otherwise the answer is false and the capture flag keeps its value |
| `HookedDrivers.HookedDriver.DisableCapturing` | Driver/Source/HookedDriver.cpp:158-165 | capture is off, nothing else changes |
| `HookedDrivers.HookedDriver.FlagAsInvalid` | Driver/Source/HookedDriver.cpp:167-172 | the state is Invalid, nothing else changes |
| `HookedDrivers.HookedDriver.CanCapture` | Driver/Source/HookedDriver.cpp:175-179 | true exactly if hooked and capture is on |
| `HookedDrivers.HookedDriver.IncrementIrpCount` | Driver/Source/HookedDriver.cpp:189-193 | the counter rises by one, nothing else changes |
| `HookedDrivers.HookedDriver.Destroy` | Driver/Source/HookedDriver.cpp:53-61 | all devices are restored if the driver was hooked, none if it was flagged invalid |
| `HookedDrivers.OperationsAre` | Driver/Source/HookedDriver.cpp:64-193 | what each operation leaves of state, capture flag and counter, written out for every value of them |
| `HookedDrivers.SwitchedCapture` | Driver/Source/HookedDriver.cpp:141-179 | after switching off nothing is captured; after switching on, IRPs are captured exactly if the driver is hooked |
| `HookedDrivers.InvalidForever` | Driver/Source/HookedDriver.cpp:64-179 | after it is flagged invalid, no sequence of calls makes a driver capture, hook or restore again |
| `HookedDriverManagers.HookedDriverManager.constructor` | Driver/Source/HookedDriverManager.cpp:13-16 | with every device pointing to its own driver, the invariant holds at start |
| `HookedDriverManagers.HookedDriverManager.FindOriginal` | Driver/Source/HookedDriverManager.cpp:85-93 | true exactly if the driver is linked |
| `HookedDriverManagers.HookedDriverManager.InsertDriver` | Driver/Source/HookedDriverManager.cpp:25-123 | the status by the first check that fails; on success one new entry, hooked and not capturing, and only its driver's devices redirected; otherwise nothing changes; every device still points where it should |
| `HookedDriverManagers.HookedDriverManager.InsertStatusIs` | Driver/Source/HookedDriverManager.cpp:25-123 | the order of the checks: no such driver, IrpMonitor itself, already linked, the counter at 32 |
| `HookedDriverManagers.HookedDriverManager.FindPath` | Driver/Source/HookedDriverManager.cpp:131-136 | the first entry whose path matches, ignoring case, none exactly if there is none |
| `HookedDriverManagers.HookedDriverManager.FirstMatchIs` | Driver/Source/DriverUtils.cpp:162-173 | an entry matches exactly if its path has the same length and the same characters once both are in upper case |
| `HookedDriverManagers.HookedDriverManager.RemoveDriver` | Driver/Source/HookedDriverManager.cpp:125-152 | exactly the matching entry goes; its driver's devices are restored if it was hooked and left stale if it was invalid; all others are untouched |
| `HookedDriverManagers.HookedDriverManager.RemoveAllDrivers` | Driver/Source/HookedDriverManager.cpp:154-171 | ends with an empty list; every device is native again except those of exactly the drivers left stale; the counter keeps its excess |
| `HookedDriverManagers.HookedDriverManager.SetMonitoringState` | Driver/Source/HookedDriverManager.cpp:173-203 | only the first entry with that path changes: switched off its driver captures nothing, switched on it captures exactly if it is hooked; not found exactly if there is no such entry |
| `HookedDriverManagers.HookedDriverManager.OneMatch` | Driver/Source/HookedDriverManager.cpp:131-136 | at most one linked entry matches a path |
| `HookedDriverManagers.HookedDriverManager.LinkedDrivers` | Driver/Source/HookedDriverManager.cpp:70-116 | for every list: the linked drivers are distinct, none is IrpMonitor, and they number at most the counter, which is at most 32 |
| `HookedDriverManagers.HookedDriverManager.WhereDevicesPoint` | Driver/Source/HookedDriver.cpp:98-136 | in every reachable state each device of a driver that is not stale points to the hooked copy of its entry if the driver is linked, and to the driver itself otherwise |
| `HookedDriverManagers.StaleAllIs` | Driver/Source/HookedDriver.cpp:119-123 | deleting a list of entries last to first leaves stale exactly the drivers whose entry was invalid, and those stale before that have none |
| `Capacity.Excess` | Driver/Source/HookedDriverManager.cpp:96-171 | over every run of insert, remove and remove-all the counter exceeds the linked drivers by exactly the removals that left something behind |
| `Capacity.RefusedExactly` | Driver/Source/HookedDriverManager.cpp:96-101 | after any run from the start, an unhooked driver that exists and is not IrpMonitor is refused for lack of room if and only if the linked drivers plus those removals are at least 32 |
| `Capacity.Serve` | Driver/Source/HookedDriverManager.cpp:25-171 | the manager in the heap answers and leaves, over any run of requests, what the run on its value says |
| `Capacity.ServeThenInsert` | Driver/Source/HookedDriverManager.cpp:25-171 | what a new manager answers to one more insertion after any run: already registered, no room, or success, each exactly when |
| `Capacity.CapacityLeak` | Driver/Source/HookedDriverManager.cpp:96-171 | beside one hooked driver, n rounds of hooking and unhooking another cost n places, so that after 31 it is refused; removing all drivers leaves the n places lost |
| `Callbacks.ExecuteOriginalCallback` | Driver/Source/Callbacks.cpp:23-45 | the driver's own routine for that major function is called once; its status or its exception comes back separately |
| `Callbacks.AssociatedDriver` | Driver/Source/CapturedIrp.cpp:31-56 | a linked driver that owns the device, none exactly if there is none |
| `Callbacks.RunOriginal` | Driver/Source/Callbacks.cpp:82-107 | one call of the own routine, with capture switched off on a failed pre-capture and the driver flagged invalid on an error exception |
| `Callbacks.Collect` | Driver/Source/Callbacks.cpp:109-142 | the captured IRP is pushed or deleted, never both; the counter rises exactly when it is pushed |
| `Callbacks.InterceptionFate` | Driver/Source/Callbacks.cpp:82-142 | for any toggling meanwhile: the counter rises exactly with a push, an invalid driver never captures, an error exception and nothing else makes it invalid |
| `Callbacks.InterceptionExact` | Driver/Source/Callbacks.cpp:82-142 | the whole effect of an interception: the IRP is captured exactly if the driver is hooked, capture is on when its routine is over, the routine raised no error exception and the second capture succeeds; capture is then left on, and whatever fails switches it off |
| `Callbacks.ErrorsAre` | Driver/Source/Callbacks.cpp:96 | an exception counts exactly if its code is negative as a signed number; the status that stands for one is 0xC0000001 |
| `Callbacks.CountersSumToPushes` | Driver/Source/Callbacks.cpp:118-124 | over any run of interceptions one after the other and capture switches, the counters of all drivers rise together by the number of pushes |
| `Callbacks.EventIs` | Driver/Source/Callbacks.cpp:82-142 | one event of such a run changes one driver, by an interception or a capture switch |
| `Callbacks.InterceptGenericRoutine` | Driver/Source/Callbacks.cpp:47-143 | for any device of a hooked driver: its own driver's entry is found, the own routine runs once, its status is returned, the IRP is pushed or deleted, and no other driver's state changes |
| `Callbacks.CallDriver` | Driver/Source/Callbacks.cpp:47-143 | hooking preserves dispatch: through whatever the device points to, the owner's own routine runs exactly once and its status comes back, hooked or not; the IRP is queued exactly if the owner is hooked and the interception captures it, and no other driver changes |
| `Overlap.CountersAndPushes` | Driver/Source/Callbacks.cpp:109-142 | in every interleaving of interceptions and capture switches, the pushes are the interceptions that pushed, and the counters of all drivers, with the interceptions between push and count, have risen by the pushes |
| `Overlap.LatePushExact` | Driver/Source/Callbacks.cpp:97-124 | once a driver is flagged invalid, an interception of it can still push if and only if its second test has read that the driver was hooked, with capture read as on or still on |
| `Overlap.NewNever` | Driver/Source/Callbacks.cpp:109-124 | an interception that begins after the flag never pushes |
| `Overlap.LatePushReachable` | Driver/Source/Callbacks.cpp:97-124 | a driver can be flagged invalid by one interception while another one of it is about to push |
| `Overlap.AloneIsInterception` | Driver/Source/Callbacks.cpp:82-142 | an interception that no other overlaps leaves its driver, its IRP and the queue as the interception taken as one event does |
| `Overlap.StepsOf` | Driver/Source/Callbacks.cpp:82-142 | the atomic steps in their order: each test reads the state and then the flag, a failed capture and an exception switch capture off, the exception before it flags the driver, and the counter rises after the push |
| `HookedDriverManagers.HookedDriverManager.WhereStaleDevicesPoint` | Driver/Source/HookedDriver.cpp:119-123 | every device of a stale driver points to the copy of a deleted entry |
| `Transparency.Start` | Driver/Source/HookedDriverManager.cpp:13-16 | with every device pointing to its own driver and empty queues, a run can begin, with nothing linked, invalid or stale |
| `Transparency.ServeOne` | Driver/Source/Entry.cpp:190-219 | any one request changes the linked, invalid and stale drivers as the engine's value says; a capture request switches exactly the first entry with its path; a dispatch is one call of the owner's own routine, any other request is none |
| `Transparency.Serve` | Driver/Source/HookedDriver.cpp:64-138 | over any run of hook, unhook, unhook-all, monitor and dispatch requests in which no dispatch goes to a stale driver, drivers receive exactly the calls of the run in which nothing is ever hooked, exceptions included; the results and the engine afterwards are those of the run on its value; what a routine does may depend on the device and on every call before |
| `Transparency.TransparentExact` | Driver/Source/Callbacks.cpp:23-45 | the results are those of the run in which nothing is ever hooked if and only if no routine of a driver hooked by then raises an exception |
| `Transparency.NothingHooked` | Driver/Source/Callbacks.cpp:47-143 | as long as nothing is hooked, the results are the statuses and the exceptions of the drivers' own routines |
| `Transparency.QuietRun` | Driver/Source/Callbacks.cpp:96-107 | without such an exception no driver becomes invalid or stale, so every dispatch of the run is covered |
| `Transparency.LeavesStale` | Driver/Source/HookedDriver.cpp:114-138 | hook, one dispatch that raises an error exception, unhook: the driver's devices point to the deleted copy |
| `Base64.CharOfFind` | Broker/Source/BrokerUtils.cpp:14-24 | the lookup is the inverse of the alphabet on exactly the characters the test accepts |
| `Base64.Alphabet` | Broker/Source/BrokerUtils.cpp:14-17 | the alphabet in its order, `A` to `Z`, `a` to `z`, `0` to `9`, `+`, `/`, with `=` as the pad, and the place of each character in it |
| `Base64.EncodedBits` | Broker/Source/BrokerUtils.cpp:34-78 | the characters of one, two and three bytes by the bits of the bytes, with two, one and no pads |
| `Base64.DecodedBits` | Broker/Source/BrokerUtils.cpp:81-127 | the bytes of four, three and two characters by the bits they stand for, whatever the bits that encode nothing are; one character gives none |
| `Base64.Vectors` | Broker/Source/BrokerUtils.cpp:34-127 | `f`, `fo` and `foo` give `Zg==`, `Zm8=` and `Zm9v`; the bytes fb ff give `+/8=`, which gives them back |
| `Base64.EncodeMasks` | Broker/Source/BrokerUtils.cpp:49-52 | the masks and shifts cut the 24-bit group into its four sextets |
| `Base64.DecodeMasks` | Broker/Source/BrokerUtils.cpp:100-102 | the masks and shifts join four sextets into the three bytes of the 24-bit group |
| `Base64.AppendChars` | Broker/Source/BrokerUtils.cpp:49-55 | the first n characters of a group are appended in order |
| `Base64.Encode` | Broker/Source/BrokerUtils.cpp:34-78 | the byte-at-a-time loop computes the three-byte-group encoding of section 4 of RFC 4648, for every input |
| `Base64.Join` | Broker/Source/BrokerUtils.cpp:97-102 | of the joined bytes, those that depend on alphabet characters alone are right whatever the others were looked up as |
| `Base64.Decode` | Broker/Source/BrokerUtils.cpp:81-127 | the loop computes the decoding of the longest prefix within the alphabet, for every string |
| `Base64.EncodedLength` | Broker/Source/BrokerUtils.cpp:34-78 | n bytes give 4*ceil(n/3) characters |
| `Base64.DecodedLength` | Broker/Source/BrokerUtils.cpp:81-127 | an alphabet-only prefix of length k gives floor(3k/4) bytes, which depend on that prefix alone |
| `Base64.DecodeEncode` | Broker/Source/BrokerUtils.cpp:34-127 | decoding an encoding gives the bytes back, for every byte sequence |
| `Base64.EncodedCanonical` | Broker/Source/BrokerUtils.cpp:60-75 | every encoding is canonically padded in the sense of section 3.5 of RFC 4648 |
| `Base64.EncodeCanonical` | Broker/Source/BrokerUtils.cpp:34-127 | encoding what a canonical string decodes to gives the string back |
| `Base64.CanonicalExact` | Broker/Source/BrokerUtils.cpp:34-127 | the strings that survive decoding and encoding are exactly the canonical ones |
| `Alignment.MaskIsRemainder` | Common/Source/Utils.cpp:276 | masking with a power of two less one keeps the remainder |
| `Alignment.AndBits` | Common/Source/Utils.cpp:276 | a bit of a masked number is set exactly if it is set in the number and in the mask |
| `Alignment.WordBits` | Common/Source/Utils.cpp:276-287 | the complement of a word has exactly its other bits, and the word before zero is 2^64 - 1 |
| `Alignment.AlignedIsMultiple` | Common/Source/Utils.cpp:273-288 | for every power-of-two base the mask test is divisibility and the other mask rounds down |
| `Alignment.AlignExact` | Common/Source/Utils.cpp:279-288 | the result is a multiple of the base; it reaches the value if and only if the value is at most 2^64 less the base, and is zero otherwise |
| `Alignment.AlignLeast` | Common/Source/Utils.cpp:279-288 | no multiple of the base lies between the value and the result |
| `Alignment.AlignBoundExact` | Common/Source/Utils.cpp:273-288 | for every base above zero: all results are multiples of it if and only if it is a power of two |
| `Alignment.AlignNoBound` | Common/Source/Utils.cpp:273-288 | for base 0 every value gives 0 |
| `Alignment.AlignOddBound` | Common/Source/Utils.cpp:273-288 | an instance: for base 6 the result fails its own test and need not be a multiple |
| `KAllocs.KAlloc.New` | Driver/Headers/DriverUtils.hpp:144-154 | for a size between 1 and 2^64 - 16 the block has the least multiple of 16 that holds the size, under the given tag, or the construction raises when the pool refuses; for any other size nothing is allocated and nothing can be refused |
| `KAllocs.KAlloc.Allocate` | Driver/Headers/DriverUtils.hpp:238-253 | a new block under the owner's tag, nothing for size zero, an error and no change on refusal |
| `KAllocs.KAlloc.Free` | Driver/Headers/DriverUtils.hpp:255-267 | a valid owner frees its block under its tag and is empty; another is left as it is |
| `KAllocs.KAlloc.Destroy` | Driver/Headers/DriverUtils.hpp:156-162 | a valid owner's block is freed under its tag |
| `KAllocs.KAlloc.MoveAssign` | Driver/Headers/DriverUtils.hpp:178-195 | the target frees its own buffer and takes the other's, which is emptied; pool types stay; self-assignment does nothing |
| `KAllocs.ConstructExact` | Driver/Headers/DriverUtils.hpp:144-154 | a granted construction gives a valid owner if and only if the size is between 1 and 2^64 - 16; the capacity of its block is the least multiple of 16 that holds the size |
| `KAllocs.StepEffect` | Driver/Headers/DriverUtils.hpp:140-273 | what each construction, move and destruction of a run does to the objects and the pool: at most one block gets its owner's tag |
| `KAllocs.EveryRun` | Driver/Headers/DriverUtils.hpp:140-273 | after any sequence of constructions, move assignments and destructions: no two owners of one block, every owned block unfreed, under its owner's tag and large enough, every other block freed exactly once under its own tag |
| `KAllocs.NothingLeaks` | Driver/Headers/DriverUtils.hpp:140-273 | once all objects are gone, every block ever allocated has been freed exactly once |
| `Startup.ManagerBase.NotifyStateChange` | Broker/Source/ManagerBase.cpp:102-111 | the manager's own event is set |
| `Startup.ManagerBase.WaitForState` | Broker/Source/ManagerBase.cpp:44-89 | how the loop ends for any sequence of observations; the shut-down mark is set exactly by a change of state |
| `Startup.WaitExact` | Broker/Source/ManagerBase.cpp:49-86 | the first turn that sees the wanted state or any event decides how the wait ends |
| `Startup.WaitForever` | Broker/Source/ManagerBase.cpp:49-86 | the wait goes on exactly if no turn sees either |
| `Startup.GlobalContext.SetState` | Broker/Source/Context.cpp:102-149 | the mapped state is stored even if it is smaller, the answer says whether it was, and all four managers are told |
| `Startup.SetStateAtOnce` | Broker/Source/Context.cpp:102-149 | the one store and four notifications of the state machine have the effect of that call |
| `Startup.StartupOrder` | Broker/Source/IrpManager.cpp:51-109 | in every interleaving the stored states are a prefix of 1,2,3,5 or 1,2,5,3, and no thread passes its first wait before the driver is loaded and 2 stored; if loading fails they never do |
| `Startup.FirstWaitPasses` | Broker/Source/ConnectorManager.cpp:66-75 | a first wait lets the connector manager through exactly if the state is at least 3, the others if it is at least 2, or anyone whose event is set |
| `Startup.RunWaitPasses` | Broker/Source/ServiceManager.cpp:91-99 | the waits of a run want 5, the last one of the service manager wants 7, or the event |
| `Startup.StoresAndTells` | Broker/Source/Context.cpp:102-149 | the service, IRP and connector managers store 2, 3 and 5, and tell service, connector, IRP and driver manager in that order |
| `Startup.SetUpSteps` | Broker/Source/ConnectorManager.cpp:74-109 | what loading and set-up leave when they succeed and when they fail; only the connector manager registers the dispatcher |
| `Startup.ConnectorWaits` | Broker/Source/ConnectorManager.cpp:66-75 | in every interleaving the connector manager is past its first wait only if 3 was stored or its event was set |
| `Startup.WaitsOpen` | Broker/Source/ServiceManager.cpp:66-99 | once the service manager has told everyone, no wait for any state blocks any thread |
| `Startup.GoesBackStep` | Broker/Source/Context.cpp:122-137 | the state falls in a step if and only if the IRP manager stores its state after the connector manager has |
| `Startup.BackExact` | Broker/Source/Context.cpp:122-137 | the stored states are 1,2,5,3 in exactly the interleavings with such a step |
| `Startup.RunningForgotten` | Broker/Source/ConnectorManager.cpp:66-112 | there are such interleavings |
| `Startup.StartsEarlyStep` | Broker/Source/IrpManager.cpp:112-129 | the loop that reads IRPs comes to run without a dispatcher in a step if and only if the IRP manager's ready thread goes on while none is registered; no wait holds it back |
| `Startup.EarlyExact` | Broker/Source/IrpManager.cpp:112-129 | the loop runs without a dispatcher at some point in exactly the interleavings with such a step |
| `Startup.EarlyDispatch` | Broker/Source/IrpManager.cpp:112-129 | there are such interleavings, with the state below Running |
| `Startup.ServedBeforeEvent` | Broker/Source/DriverManager.cpp:40-93 | clients can have requests served above ServiceManagerReady before the IRP manager has begun its set-up |
| `Startup.RankGrows` | Broker/Source/Context.cpp:46-80 | every step that does something is progress; no start-up takes more than forty of them |
| `Startup.Progress` | Broker/Source/Context.cpp:46-80 | as long as no set-up fails, no interleaving is stuck before all four threads are up |
| `Hexdumps.Hexdump` | Common/Source/Utils.cpp:12-60 | the loop over bytes, with its seventeen-character array never left, prints the header and the lines of the layout, for any data |
| `Hexdumps.PutByte` | Common/Source/Utils.cpp:25-32 | one byte follows the text so far, with the address exactly at the start of a line |
| `Hexdumps.EndFullLine` | Common/Source/Utils.cpp:36-41 | a full line ends with the bar and its sixteen characters, and the array is empty again |
| `Hexdumps.EndShortLine` | Common/Source/Utils.cpp:42-55 | a short last line is filled up to the same column and ends with exactly its characters |
| `Hexdumps.AddressExact` | Common/Source/Utils.cpp:28 | an address is printed in lower-case digits and reads back as the address modulo 2^64; it has eight digits if and only if that is below 2^32, and beyond eight no more than it needs |
| `Hexdumps.LineLayout` | Common/Source/Utils.cpp:25-56 | every character of every line, full or not: the two upper-case digits of each byte in its own column, the bar 53 characters after the address, each byte's own character if it is between 0x20 and 0x7e and a dot otherwise, and spaces everywhere else |
| `Hexdumps.LinesSnoc` | Common/Source/Utils.cpp:23-57 | after full lines the next line has the address of its own first byte |
| `Hexdumps.DigitCharacters` | Common/Source/Utils.cpp:28-30 | the digits are `0` to `9` and `A` to `F` for bytes, `a` to `f` for addresses |
| `Hexdumps.LineCount` | Common/Source/Utils.cpp:23-57 | n bytes give ceil(n/16) lines |
| `Hexdumps.DumpReadsBack` | Common/Source/Utils.cpp:23-57 | for any data and base the two digits at the place of byte i are byte i: every byte is there, in order |
| `Hexdumps.PlaceFixed` | Common/Source/Utils.cpp:23-57 | with addresses below 2^32 that place is 82 characters for each full line before, plus the column |

## Left out

- Fast I/O interception: the copied driver object shares the original's fast I/O table, so dispatch is not preserved there.
- The fallback for a captured IRP that could not be initialised.
- How buffers and names are captured from an IRP, and name queries: header fields and buffers are given once an IRP is pushed, with names that fit their 512-byte fields.
- The JSON text of requests and responses, string conversion, logging and string tables.
- The TCP listener and client, the graphical interface, service installation, privileges and directory enumeration.
- Locks: the calls that hold a named lock are atomic steps. `JsonQueue` calls are taken as sequential, its locks being unnamed temporaries. A removal of an entry while its interception routine is running is not modelled.
- Reference counts, and the freeing of popped IRPs.
- The object namespace and the device chains are fixed while drivers are hooked; upper-casing of a character is a parameter.
- The driver's IRP counters and the list's counters are unbounded numbers, not 64-bit words.
- Broker states after Running, termination, and waits that fail.
- GetNextIrps: asks that one of the first 32 attempts fits, without which the retries do not end (`PollingEndsGrowing`).
- SwapCallbacks: does not write the fast I/O entries.
- InterceptionFate: one interception at a time; `Overlap` states what holds when they overlap.
- CountersSumToPushes: interceptions one after the other; `CountersAndPushes` is the statement for overlapping ones.
- InterceptGenericRoutine: does not take the fallback for an invalid captured IRP.
- Serve: dispatches to a driver that is stale by then; interceptions are one after the other.
- OnChain: a recursive walk along the chain, because the search of the list takes a function.
- CallDriver: the owner must not be stale, what a deleted copy dispatches to not being part of this model; `behaviour` gives the outcome of each of a driver's own routines; an exception of an unhooked driver's routine is passed on, one of a hooked driver's becomes an unsuccessful status, as in the source.
- ExecuteOriginalCallback: what the routine does to the IRP beside its outcome is not modelled.
- KAlloc: pool addresses are allocation numbers, so a reused address counts as a new block; contents and the comparison operator are not modelled.
