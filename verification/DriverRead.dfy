/** `DriverReadRoutine`: sizing the queue, then popping and copying it into the caller's buffer
    while other processors keep pushing.

    The schedule `arrivals` gives, for each pop, the IRPs pushed since the previous atomic step;
    the contracts hold for every schedule. */
module DriverRead {
  import opened Util
  import opened Wire
  import opened WireProofs
  import opened LinkedLists
  import opened CapturedIrps

  /** How the copy ended, the bytes it wrote, and what it left in the queue. */
  datatype CopyResult = CopyResult(status: NtStatus, written: seq<u8>, left: seq<QueuedIrp>)

  /** The three copies made for a record. */
  ghost function Parts(irp: CapturedIrp): seq<seq<u8>> {
    [HeaderBytes(irp.header), irp.inputBuffer, irp.outputBuffer]
  }

  /** The parts written before one of them overruns the room that is left. */
  ghost function Fitting(parts: seq<seq<u8>>, room: nat): (bytes: seq<u8>)
    ensures |bytes| <= room
  {
    if parts == [] || room < |parts[0]| then [] else parts[0] + Fitting(parts[1..], room - |parts[0]|)
  }

  /** What one pop of the copy does: how it ends, the bytes it adds, and what it leaves queued. */
  ghost function OnePop(q: seq<QueuedIrp>, room: nat): (pop: CopyResult)
    ensures |pop.written| <= room
  {
    if q == [] then CopyResult(BadData, [], [])
    else
      var irp := Export(q[0]);
      CopyResult(if RecordSize(irp) <= room then Success else BufferOverflow, Fitting(Parts(irp), room), q[1..])
  }

  ghost function Prepend(bytes: seq<u8>, r: CopyResult): CopyResult {
    r.(written := bytes + r.written)
  }

  /** The last n pops of a copy with `room` bytes left; the next one is number i. */
  ghost function CopyFrom(queue: seq<QueuedIrp>, arrivals: nat -> seq<QueuedIrp>, i: nat, n: nat, room: nat): CopyResult
    decreases n
  {
    if n == 0 then CopyResult(Success, [], queue)
    else
      var pop := OnePop(queue + arrivals(i), room);
      if pop.status != Success then pop
      else Prepend(pop.written, CopyFrom(pop.left, arrivals, i + 1, n - 1, room - |pop.written|))
  }

  lemma PrependNothing(r: CopyResult)
    ensures Prepend([], r) == r
  {
    assert [] + r.written == r.written;
  }

  lemma CopyDone(bytes: seq<u8>, queue: seq<QueuedIrp>, arrivals: nat -> seq<QueuedIrp>, i: nat, room: nat)
    ensures Prepend(bytes, CopyFrom(queue, arrivals, i, 0, room)) == CopyResult(Success, bytes, queue)
  {
    assert bytes + [] == bytes;
  }

  lemma QueueSizeStep(queue: seq<QueuedIrp>)
    requires queue != []
    ensures QueueSize(queue) == RecordSize(Export(queue[0])) + QueueSize(queue[1..])
  {
  }

  lemma FittingLast(part: seq<u8>, room: nat)
    ensures Fitting([part], room) == if room < |part| then [] else part
  {
    assert [part][1..] == [] && part + [] == part;
  }

  lemma FittingNext(part: seq<u8>, parts: seq<seq<u8>>, room: nat)
    ensures Fitting([part] + parts, room) == if room < |part| then [] else part + Fitting(parts, room - |part|)
  {
    assert ([part] + parts)[0] == part && ([part] + parts)[1..] == parts;
  }

  lemma FittingParts(h: seq<u8>, a: seq<u8>, b: seq<u8>, room: nat)
    ensures Fitting([h, a, b], room) ==
            if room < |h| then []
            else if room < |h| + |a| then h
            else if room < |h| + |a| + |b| then h + a
            else h + a + b
  {
    hide Fitting;
    assert [h, a, b] == [h] + [a, b] && [a, b] == [a] + [b];
    FittingNext(h, [a, b], room);
    if room >= |h| {
      FittingNext(a, [b], room - |h|);
      if room >= |h| + |a| {
        FittingLast(b, room - |h| - |a|);
        Assoc(h, a, b);
        assert a + [] == a;
      } else {
        assert h + [] == h;
      }
    }
  }

  lemma WholeRecordFits(irp: CapturedIrp, room: nat)
    requires RecordSize(irp) <= room
    ensures Fitting(Parts(irp), room) == RecordBytes(irp)
    ensures |RecordBytes(irp)| == RecordSize(irp)
  {
    FittingParts(HeaderBytes(irp.header), irp.inputBuffer, irp.outputBuffer, room);
  }

  /** A pop fails exactly on an empty queue, or on a record that does not fit, which is lost then;
      otherwise it adds that record. */
  lemma PopIs(q: seq<QueuedIrp>, room: nat)
    ensures var pop := OnePop(q, room);
            && pop.left == (if q == [] then [] else q[1..])
            && (pop.status == BadData <==> q == [])
            && (pop.status == BufferOverflow <==> q != [] && |RecordBytes(Export(q[0]))| > room)
            && (pop.status == Success <==> q != [] && |RecordBytes(Export(q[0]))| <= room)
            && (pop.status == Success ==> pop.written == RecordBytes(Export(q[0])))
  {
    hide RecordBytes, Fitting, Export, Parts;
    if q != [] {
      RecordLength(Export(q[0]));
      if RecordSize(Export(q[0])) <= room {
        WholeRecordFits(Export(q[0]), room);
      }
    }
  }

  lemma RecordLength(irp: CapturedIrp)
    ensures |RecordBytes(irp)| == RecordSize(irp)
  {
  }

  /** A copy that has written some bytes already goes on with its next pop. */
  lemma Turn(written: seq<u8>, queue: seq<QueuedIrp>, arrivals: nat -> seq<QueuedIrp>, i: nat, n: nat, room: nat)
    requires n > 0
    ensures var pop := OnePop(queue + arrivals(i), room);
            Prepend(written, CopyFrom(queue, arrivals, i, n, room)) ==
            if pop.status == Success
            then Prepend(written + pop.written, CopyFrom(pop.left, arrivals, i + 1, n - 1, room - |pop.written|))
            else Prepend(written, pop)
  {
    hide OnePop;
    var pop := OnePop(queue + arrivals(i), room);
    Assoc(written, pop.written, CopyFrom(pop.left, arrivals, i + 1, n - 1, room - |pop.written|).written);
  }

  /** A copy of as many records and bytes as the queue had when it was sized never takes an error
      exit: it writes exactly that queue and leaves exactly what arrived since. */
  lemma {:induction false} CopyExact(queue: seq<QueuedIrp>, extra: seq<QueuedIrp>,
                                     arrivals: nat -> seq<QueuedIrp>, i: nat)
    ensures CopyFrom(queue + extra, arrivals, i, |queue|, QueueSize(queue))
         == CopyResult(Success, Serialise(ExportAll(queue)), extra + Arrived(arrivals, i, |queue|))
    decreases |queue|
  {
    hide Fitting, RecordBytes, RecordSize, Export, Parts;
    if queue == [] {
      assert queue + extra == extra + [];
    } else {
      var rest := queue[1..];
      var q := queue + (extra + arrivals(i));
      Assoc(queue, extra, arrivals(i));
      assert q[0] == queue[0] && q[1..] == rest + (extra + arrivals(i));
      QueueSizeStep(queue);
      WholeRecordFits(Export(queue[0]), QueueSize(queue));
      CopyExact(rest, extra + arrivals(i), arrivals, i + 1);
      Assoc(extra, arrivals(i), Arrived(arrivals, i + 1, |queue| - 1));
    }
  }

  lemma CopyWhole(queue: seq<QueuedIrp>, arrivals: nat -> seq<QueuedIrp>)
    ensures CopyFrom(queue, arrivals, 0, |queue|, QueueSize(queue))
         == CopyResult(Success, Serialise(ExportAll(queue)), Arrived(arrivals, 0, |queue|))
    ensures |Serialise(ExportAll(queue))| == QueueSize(queue)
  {
    hide CopyFrom, Arrived;
    assert queue + [] == queue && [] + Arrived(arrivals, 0, |queue|) == Arrived(arrivals, 0, |queue|);
    CopyExact(queue, [], arrivals, 0);
    RoundTrip(queue);
  }

  /** Other processors push a batch. */
  method Arrive(mgr: CapturedIrpManager, batch: seq<QueuedIrp>)
    requires mgr.Valid()
    modifies mgr.Repr
    ensures mgr.Valid() && fresh(mgr.Repr - old(mgr.Repr)) && mgr.event == old(mgr.event)
    ensures mgr.queue == old(mgr.queue) + batch
    decreases |batch|
  {
    if batch != [] {
      ghost var queue := mgr.queue;
      var pushed := mgr.Push(batch[0]);
      Arrive(mgr, batch[1..]);
      Assoc(queue, [batch[0]], batch[1..]);
      assert batch == [batch[0]] + batch[1..];
    } else {
      assert mgr.queue + batch == mgr.queue;
    }
  }

  /** Nothing at or after `from` has been written. */
  twostate predicate Untouched(buffer: array<u8>, from: nat)
    reads buffer
  {
    forall j | from <= j < buffer.Length :: buffer[j] == old(buffer[j])
  }

  /** `RtlCopyMemory` into the buffer. */
  method CopyMemory(buffer: array<u8>, at: nat, bytes: seq<u8>)
    requires at + |bytes| <= buffer.Length
    modifies buffer
    ensures buffer[..at + |bytes|] == old(buffer[..at]) + bytes
    ensures Untouched(buffer, at + |bytes|)
  {
    forall j | 0 <= j < |bytes| {
      buffer[at + j] := bytes[j];
    }
  }

  /** Copies a part if it ends at `high` or before. */
  method CopyPart(buffer: array<u8>, at: nat, bytes: seq<u8>, high: nat) returns (fits: bool, next: nat)
    requires at <= high <= buffer.Length
    modifies buffer
    ensures fits <==> at + |bytes| <= high
    ensures next == if fits then at + |bytes| else at
    ensures buffer[..next] == if fits then old(buffer[..at]) + bytes else old(buffer[..at])
    ensures Untouched(buffer, next)
  {
    if at + |bytes| > high {
      return false, at;
    }
    CopyMemory(buffer, at, bytes);
    return true, at + |bytes|;
  }

  lemma ThreeParts<T>(a: seq<T>, b: seq<T>, c: seq<T>, d: seq<T>)
    ensures a + b + c + d == a + (b + c + d) && a + b + c == a + (b + c)
    ensures c == [] ==> b + c == b
    ensures d == [] ==> b + c + d == b + c
  {
  }

  /** Copies one record at `at`, part by part; false when a part would pass `high`. */
  method CopyRecord(irp: QueuedIrp, buffer: array<u8>, at: nat, high: nat) returns (fits: bool, next: nat)
    requires at <= high <= buffer.Length
    modifies buffer
    ensures next == at + |Fitting(Parts(Export(irp)), high - at)| <= high
    ensures buffer[..next] == old(buffer[..at]) + Fitting(Parts(Export(irp)), high - at)
    ensures Untouched(buffer, next)
    ensures fits <==> RecordSize(Export(irp)) <= high - at
  {
    ghost var was, header := buffer[..at], HeaderBytes(ExportHeader(irp));
    FittingParts(header, irp.inputBuffer, irp.outputBuffer, high - at);
    ThreeParts(was, header, irp.inputBuffer, irp.outputBuffer);
    fits, next := CopyPart(buffer, at, HeaderBytes(ExportHeader(irp)), high);
    if !fits {
      return;
    }
    if |irp.inputBuffer| != 0 {
      fits, next := CopyPart(buffer, next, irp.inputBuffer, high);
      if !fits {
        return;
      }
    }
    if |irp.outputBuffer| != 0 {
      fits, next := CopyPart(buffer, next, irp.outputBuffer, high);
    }
  }

  /** One turn of the popping loop. */
  method CopyNext(mgr: CapturedIrpManager, batch: seq<QueuedIrp>, buffer: array<u8>, at: nat, high: nat)
    returns (status: NtStatus, next: nat)
    requires mgr.Valid() && buffer !in mgr.Repr && at <= high <= buffer.Length
    modifies mgr.Repr, buffer
    ensures mgr.Valid() && fresh(mgr.Repr - old(mgr.Repr)) && mgr.event == old(mgr.event)
    ensures next <= high && Untouched(buffer, next)
    ensures var pop := OnePop(old(mgr.queue) + batch, high - at);
            && status == pop.status && mgr.queue == pop.left
            && next == at + |pop.written| && buffer[..next] == old(buffer[..at]) + pop.written
  {
    hide Fitting, Parts, RecordSize, Export, CapturedIrpManager.Valid, CapturedIrpManager.State, AfterPop;
    Arrive(mgr, batch);
    var item := mgr.Pop();
    if item.None? {
      return BadData, at;
    }
    var fits;
    fits, next := CopyRecord(item.value, buffer, at, high);
    status := if fits then Success else BufferOverflow;
  }

  /** One turn of the popping loop, seen from the copy as a whole. */
  method CopyTurn(mgr: CapturedIrpManager, arrivals: nat -> seq<QueuedIrp>, i: nat,
                  buffer: array<u8>, at: nat, high: nat, ghost n: nat, ghost all: CopyResult)
    returns (status: NtStatus, end: nat)
    requires mgr.Valid() && buffer !in mgr.Repr && at <= high <= buffer.Length && n > 0
    requires all == Prepend(buffer[..at], CopyFrom(mgr.queue, arrivals, i, n, high - at))
    modifies mgr.Repr, buffer
    ensures mgr.Valid() && fresh(mgr.Repr - old(mgr.Repr)) && mgr.event == old(mgr.event)
    ensures at <= end <= high && Untouched(buffer, end)
    ensures all == if status == Success
                   then Prepend(buffer[..end], CopyFrom(mgr.queue, arrivals, i + 1, n - 1, high - end))
                   else CopyResult(status, buffer[..end], mgr.queue)
  {
    hide CopyFrom, OnePop;
    Turn(buffer[..at], mgr.queue, arrivals, i, n, high - at);
    status, end := CopyNext(mgr, arrivals(i), buffer, at, high);
  }

  /** The popping loop, for any number of records and any upper end. */
  method CopyQueue(mgr: CapturedIrpManager, arrivals: nat -> seq<QueuedIrp>, n: nat, buffer: array<u8>, high: nat)
    returns (status: NtStatus, end: nat)
    requires mgr.Valid() && buffer !in mgr.Repr && high <= buffer.Length
    modifies mgr.Repr, buffer
    ensures mgr.Valid() && fresh(mgr.Repr - old(mgr.Repr)) && mgr.event == old(mgr.event)
    ensures end <= high && Untouched(buffer, end)
    ensures CopyResult(status, buffer[..end], mgr.queue) == CopyFrom(old(mgr.queue), arrivals, 0, n, high)
  {
    hide CopyFrom, OnePop;
    end := 0;
    ghost var all := CopyFrom(mgr.queue, arrivals, 0, n, high);
    PrependNothing(all);
    for i := 0 to n
      invariant mgr.Valid() && fresh(mgr.Repr - old(mgr.Repr)) && mgr.event == old(mgr.event)
      invariant end <= high && Untouched(buffer, end)
      invariant all == Prepend(buffer[..end], CopyFrom(mgr.queue, arrivals, i, n - i, high - end))
    {
      status, end := CopyTurn(mgr, arrivals, i, buffer, end, high, n - i, all);
      if status != Success {
        return;
      }
    }
    status := Success;
    CopyDone(buffer[..end], mgr.queue, arrivals, n, high - end);
  }

  /** The popping loop over the whole of the queue that was sized. */
  method CopySized(mgr: CapturedIrpManager, arrivals: nat -> seq<QueuedIrp>, number: nat, buffer: array<u8>,
                   expected: nat) returns (status: NtStatus)
    requires mgr.Valid() && buffer !in mgr.Repr
    requires number == |mgr.queue| && expected == QueueSize(mgr.queue) <= buffer.Length
    modifies mgr.Repr, buffer
    ensures mgr.Valid() && fresh(mgr.Repr - old(mgr.Repr)) && mgr.event == old(mgr.event)
    ensures status == Success && Untouched(buffer, expected)
    ensures buffer[..expected] == Serialise(ExportAll(old(mgr.queue)))
    ensures mgr.queue == Arrived(arrivals, 0, number)
  {
    hide CopyFrom, Arrived, Serialise, ExportAll, QueueSize;
    ghost var queue := mgr.queue;
    var end;
    status, end := CopyQueue(mgr, arrivals, number, buffer, expected);
    CopyWhole(queue, arrivals);
    assert end == |buffer[..end]| == expected;
  }

  /** `mapped` is whether the system could map the caller's pages. */
  method DriverReadRoutine(mgr: CapturedIrpManager, arrivals: nat -> seq<QueuedIrp>, buffer: array<u8>, mapped: bool)
    returns (status: NtStatus, information: nat)
    requires mgr.Valid() && buffer !in mgr.Repr
    modifies mgr.Repr, buffer
    ensures mgr.Valid() && fresh(mgr.Repr - old(mgr.Repr)) && mgr.event == old(mgr.event)
    ensures var queue := old(mgr.queue);
            var expected := QueueSize(queue);
            if buffer.Length < expected then
              status == BufferTooSmall && information == expected
              && mgr.State() == old(mgr.State()) && buffer[..] == old(buffer[..])
            else if !mapped then
              status == InsufficientResources && information == 0
              && mgr.State() == old(mgr.State()) && buffer[..] == old(buffer[..])
            else
              status == Success && information == expected
              && buffer[..expected] == Serialise(ExportAll(queue))
              && Untouched(buffer, expected)
              && mgr.queue == Arrived(arrivals, 0, |queue|)
  {
    hide CopyFrom, Arrived, Serialise, ExportAll, QueueSize, Fold, AddSize;
    ghost var queue := mgr.queue;
    var sizing, visited := mgr.entries.ForEach(AddSize, (0, 0));
    var (expected, number) := sizing;
    SizingResult(queue, 0, 0, true);
    if buffer.Length < expected {
      return BufferTooSmall, expected;
    }
    if !mapped {
      return InsufficientResources, 0;
    }
    status := CopySized(mgr, arrivals, number, buffer, expected);
    information := expected;
  }

  /** The visitor of the sizing pass: bytes and records so far. */
  function AddSize(acc: (nat, nat), irp: QueuedIrp): ((nat, nat), bool) {
    ((acc.0 + SizeOf(irp), acc.1 + 1), true)
  }

  lemma {:induction false} SizingResult(queue: seq<QueuedIrp>, bytes: nat, number: nat, ok: bool)
    ensures Fold(AddSize, (bytes, number), ok, queue) == ((bytes + QueueSize(queue), number + |queue|), ok)
    decreases |queue|
  {
    if queue != [] {
      SizingResult(queue[1..], bytes + SizeOf(queue[0]), number + 1, ok);
    }
  }
}
