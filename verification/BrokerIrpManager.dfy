/** The broker's side of a read: retrying with a doubling buffer, then parsing the bytes. */
module BrokerIrps {
  import opened Util
  import opened Wire
  import opened WireProofs
  import opened CapturedIrps
  import opened DriverRead

  // ----- buffer lengths -----

  /** `dataLength *= 2` on a DWORD. */
  function Doubled(length: u32): u32 {
    (2 * length) % 0x1_0000_0000
  }

  /** The buffer length of attempt k. */
  function AttemptLength(k: nat): u32 {
    if k == 0 then 1 else Doubled(AttemptLength(k - 1))
  }

  lemma {:induction false} Pow2Monotone(j: nat, k: nat)
    requires j <= k
    ensures Pow2(j) <= Pow2(k)
    decreases k
  {
    if j < k {
      Pow2Monotone(j, k - 1);
    }
  }

  lemma HighestPower()
    ensures Pow2(31) == 0x8000_0000
  {
    assert Pow2(4) == 16;
    assert Pow2(8) == 256;
    assert Pow2(12) == 4096;
    assert Pow2(16) == 65536;
    assert Pow2(20) == 0x10_0000;
    assert Pow2(24) == 0x100_0000;
    assert Pow2(28) == 0x1000_0000;
  }

  lemma DoubledPower(k: nat)
    requires k < 32
    ensures Pow2(k) <= 0x8000_0000
    ensures Doubled(Pow2(k)) == if k < 31 then Pow2(k + 1) else 0
  {
    HighestPower();
    Pow2Monotone(k, 31);
    if k < 31 {
      Pow2Monotone(k + 1, 31);
    }
  }

  /** The lengths are the powers of two of a DWORD, and zero from then on. */
  lemma {:induction false} AttemptLengths(k: nat)
    ensures AttemptLength(k) == if k < 32 then Pow2(k) else 0
  {
    if k > 0 {
      hide Pow2, Doubled;
      AttemptLengths(k - 1);
      if k - 1 < 32 {
        DoubledPower(k - 1);
      } else {
        DoubledZero();
      }
    }
  }

  lemma DoubledZero()
    ensures Doubled(0) == 0
  {
  }

  /** Retrying against a queue that does not change ends exactly when the queue has at most 2^31
      bytes: beyond that the length wraps to zero and every further attempt fails. */
  lemma PollingEnds(size: nat)
    ensures (exists k :: AttemptLength(k) >= size) <==> size <= 0x8000_0000
  {
    HighestPower();
    if size <= 0x8000_0000 {
      AttemptLengths(31);
      assert AttemptLength(31) >= size;
    }
    forall k ensures AttemptLength(k) <= 0x8000_0000 {
      AttemptLengths(k);
      if k < 32 {
        Pow2Monotone(k, 31);
      }
    }
  }

  // ----- parsing -----

  /** The buffer read at `offset` if it ends inside the data. */
  method ReadBuffer(raw: array<u8>, dataLength: nat, offset: nat, length: nat) returns (taken: seq<u8>, next: nat)
    requires offset <= dataLength <= raw.Length
    ensures taken == TakeBuffer(raw[offset..dataLength], length)
    ensures next == offset + |taken| <= dataLength
    ensures raw[offset..dataLength][|taken|..] == raw[next..dataLength]
  {
    taken, next := [], offset;
    if offset + length <= dataLength {
      taken := raw[offset..offset + length];
      next := offset + length;
    }
  }

  method ReadRecord(raw: array<u8>, dataLength: nat, offset: nat) returns (irp: CapturedIrp, next: nat)
    requires offset + HEADER_SIZE <= dataLength <= raw.Length
    ensures irp == FirstRecord(raw[offset..dataLength])
    ensures next == offset + RecordSize(irp) <= dataLength
  {
    var header := HeaderAt(raw[offset..offset + HEADER_SIZE]);
    var body := offset + HEADER_SIZE;
    ghost var b := raw[offset..dataLength];
    assert b[..HEADER_SIZE] == raw[offset..body] && b[HEADER_SIZE..] == raw[body..dataLength];
    var input, afterInput := ReadBuffer(raw, dataLength, body, header.inputBufferLength);
    var output, afterOutput := ReadBuffer(raw, dataLength, afterInput, header.outputBufferLength);
    irp := CapturedIrp(header, input, output);
    next := afterOutput;
  }

  method ParseIrps(raw: array<u8>, dataLength: nat) returns (irps: seq<CapturedIrp>)
    requires dataLength <= raw.Length
    ensures irps == Parse(raw[..dataLength])
  {
    hide FirstRecord;
    irps := [];
    var offset := 0;
    ghost var data := raw[..dataLength];
    assert data[0..] == data && [] + Parse(data) == Parse(data);
    while offset < dataLength
      invariant offset <= dataLength
      invariant Parse(data) == irps + Parse(data[offset..])
    {
      if offset + HEADER_SIZE > dataLength {
        break;
      }
      assert data[offset..] == raw[offset..dataLength];
      var irp, next := ReadRecord(raw, dataLength, offset);
      assert data[offset..][RecordSize(irp)..] == data[next..];
      Assoc(irps, [irp], Parse(data[next..]));
      irps := irps + [irp];
      offset := next;
    }
    assert Parse(data[offset..]) == [] && irps + [] == irps;
  }

  // ----- polling -----

  /** `ReadFile` into a new zeroed buffer, after a batch of pushes. */
  method ReadFile(mgr: CapturedIrpManager, before: seq<QueuedIrp>, during: nat -> seq<QueuedIrp>,
                  length: nat, mapped: bool)
    returns (status: NtStatus, raw: array<u8>, read: nat)
    requires mgr.Valid()
    modifies mgr.Repr
    ensures mgr.Valid() && fresh(mgr.Repr - old(mgr.Repr)) && mgr.event == old(mgr.event)
    ensures fresh(raw) && raw.Length == length
    ensures var queue := old(mgr.queue) + before;
            if length < QueueSize(queue) then status == BufferTooSmall && mgr.queue == queue
            else if !mapped then status == InsufficientResources && mgr.queue == queue
            else
              status == Success && mgr.queue == Arrived(during, 0, |queue|)
              && read == QueueSize(queue) <= length && raw[..read] == Serialise(ExportAll(queue))
  {
    hide QueueSize, Arrived, Serialise, ExportAll;
    Arrive(mgr, before);
    raw := new u8[length](i => 0);
    status, read := DriverReadRoutine(mgr, during, raw, mapped);
  }

  /** What the queue has grown to when attempt k reads it. */
  ghost function AtAttempt(queue: seq<QueuedIrp>, before: nat -> seq<QueuedIrp>, k: nat): seq<QueuedIrp> {
    queue + Arrived(before, 0, k + 1)
  }

  lemma AttemptsGrow(queue: seq<QueuedIrp>, before: nat -> seq<QueuedIrp>, j: nat, k: nat)
    requires j <= k
    ensures QueueSize(AtAttempt(queue, before, j)) <= QueueSize(AtAttempt(queue, before, k))
    decreases k
  {
    if j < k {
      AttemptsGrow(queue, before, j, k - 1);
      ArrivedLast(before, 0, k);
      Assoc(queue, Arrived(before, 0, k), before(k));
      QueueSizeAppend(AtAttempt(queue, before, k - 1), before(k));
    }
  }

  lemma NextAttempt(queue: seq<QueuedIrp>, before: nat -> seq<QueuedIrp>, k: nat)
    ensures queue + Arrived(before, 0, k) + before(k) == AtAttempt(queue, before, k)
  {
    ArrivedLast(before, 0, k);
    Assoc(queue, Arrived(before, 0, k), before(k));
  }

  /** The attempts before `last` were too small for the queue they met, the last one was not. */
  ghost predicate SmallestFit(queue: seq<QueuedIrp>, before: nat -> seq<QueuedIrp>, last: nat) {
    && QueueSize(AtAttempt(queue, before, last)) <= Pow2(last)
    && forall k | 0 <= k < last :: Pow2(k) < QueueSize(AtAttempt(queue, before, k))
  }

  /** Some attempt before the length wraps to zero is large enough. */
  ghost predicate SomeFit(queue: seq<QueuedIrp>, before: nat -> seq<QueuedIrp>) {
    exists k: nat :: k < 32 && QueueSize(AtAttempt(queue, before, k)) <= Pow2(k)
  }

  /** Retrying while IRPs keep arriving ends exactly if one of the first 32 attempts is large enough
      for what it meets. */
  lemma PollingEndsGrowing(queue: seq<QueuedIrp>, before: nat -> seq<QueuedIrp>)
    ensures (exists k: nat :: AttemptLength(k) >= QueueSize(AtAttempt(queue, before, k))) <==> SomeFit(queue, before)
  {
    hide QueueSize, AtAttempt;
    if k: nat :| AttemptLength(k) >= QueueSize(AtAttempt(queue, before, k)) {
      AttemptLengths(k);
      if k >= 32 {
        AttemptsGrow(queue, before, 0, k);
        assert QueueSize(AtAttempt(queue, before, 0)) <= Pow2(0);
      }
    }
    if k: nat :| k < 32 && QueueSize(AtAttempt(queue, before, k)) <= Pow2(k) {
      AttemptLengths(k);
    }
  }

  /** Retries until the buffer is large enough; `before(k)` is pushed before attempt k. */
  method Poll(mgr: CapturedIrpManager, before: nat -> seq<QueuedIrp>, during: nat -> seq<QueuedIrp>, mapped: bool)
    returns (status: NtStatus, raw: array<u8>, read: nat, last: nat)
    requires mgr.Valid()
    requires SomeFit(mgr.queue, before)
    modifies mgr.Repr
    ensures mgr.Valid() && fresh(mgr.Repr - old(mgr.Repr)) && mgr.event == old(mgr.event)
    ensures last < 32 && SmallestFit(old(mgr.queue), before, last)
    ensures raw.Length == Pow2(last) == AttemptLength(last)
    ensures var queue := AtAttempt(old(mgr.queue), before, last);
            if !mapped then status == InsufficientResources && mgr.queue == queue
            else
              status == Success && mgr.queue == Arrived(during, 0, |queue|)
              && read == QueueSize(queue) <= raw.Length && raw[..read] == Serialise(ExportAll(queue))
  {
    hide QueueSize, Arrived, Serialise, ExportAll, AttemptLength, Pow2;
    ghost var queue := mgr.queue;
    ghost var fit: nat :| fit < 32 && QueueSize(AtAttempt(queue, before, fit)) <= Pow2(fit);
    var dataLength: u32 := 1;
    last := 0;
    NoAttemptYet(queue, before);
    while true
      invariant mgr.Valid() && fresh(mgr.Repr - old(mgr.Repr)) && mgr.event == old(mgr.event)
      invariant last <= fit && dataLength == AttemptLength(last) == Pow2(last)
      invariant mgr.queue == queue + Arrived(before, 0, last)
      invariant forall k | 0 <= k < last :: Pow2(k) < QueueSize(AtAttempt(queue, before, k))
      decreases 32 - last
    {
      NextAttempt(queue, before, last);
      status, raw, read := ReadFile(mgr, before(last), during, dataLength, mapped);
      if status != BufferTooSmall {
        break;
      }
      DoublingFits(last);
      dataLength := Doubled(dataLength);
      last := last + 1;
    }
  }

  lemma NoAttemptYet(queue: seq<QueuedIrp>, before: nat -> seq<QueuedIrp>)
    ensures AttemptLength(0) == Pow2(0) == 1
    ensures queue + Arrived(before, 0, 0) == queue
  {
    assert queue + [] == queue;
  }

  lemma DoublingFits(k: nat)
    requires k + 1 < 32
    ensures Doubled(AttemptLength(k)) == AttemptLength(k + 1) == Pow2(k + 1)
  {
    AttemptLengths(k + 1);
  }

  /** `GetNextIrps`: every IRP queued when the successful read sized the queue, once, in order and
      byte for byte; failed attempts remove nothing, and later pushes stay queued. `event` is the
      broker's handle on the event it shared with the driver. */
  method GetNextIrps(mgr: CapturedIrpManager, event: KEvent,
                     before: nat -> seq<QueuedIrp>, during: nat -> seq<QueuedIrp>, mapped: bool)
    returns (irps: seq<CapturedIrp>, last: nat)
    requires mgr.Valid() && (event == mgr.event || event !in mgr.Repr)
    requires SomeFit(mgr.queue, before)
    modifies mgr.Repr, event
    ensures mgr.Valid() && fresh(mgr.Repr - old(mgr.Repr)) && mgr.event == old(mgr.event)
    ensures !event.signalled
    ensures last < 32 && SmallestFit(old(mgr.queue), before, last)
    ensures var queue := AtAttempt(old(mgr.queue), before, last);
            if mapped then irps == ExportAll(queue) && mgr.queue == Arrived(during, 0, |queue|)
            else irps == [] && mgr.queue == queue
  {
    hide QueueSize, Arrived, Serialise, ExportAll, AttemptLength, Pow2, Parse, SmallestFit, SomeFit, AtAttempt;
    var status, raw, read;
    status, raw, read, last := Poll(mgr, before, during, mapped);
    ghost var queue := AtAttempt(old(mgr.queue), before, last);
    if status != Success {
      event.signalled := false;
      return [], last;
    }
    RoundTrip(queue);
    if read < HEADER_SIZE {
      ParseNothing(raw[..read]);
      event.signalled := false;
      return [], last;
    }
    irps := ParseIrps(raw, read);
    event.signalled := false;
  }

  lemma ParseNothing(b: seq<u8>)
    requires |b| < HEADER_SIZE
    ensures Parse(b) == []
  {
  }

  /** With nothing pushed between attempts, the length that succeeds is the least power of two
      that holds the queue. */
  lemma FixedQueueFit(queue: seq<QueuedIrp>, before: nat -> seq<QueuedIrp>, last: nat)
    requires (forall k: nat :: before(k) == []) && SmallestFit(queue, before, last)
    ensures AtAttempt(queue, before, last) == queue
    ensures QueueSize(queue) <= Pow2(last)
    ensures forall k: nat | QueueSize(queue) <= Pow2(k) :: last <= k
  {
    forall k: nat ensures AtAttempt(queue, before, k) == queue {
      NothingArrives(before, 0, k + 1);
      assert queue + [] == queue;
    }
  }

  lemma {:induction false} NothingArrives(before: nat -> seq<QueuedIrp>, from: nat, n: nat)
    requires forall k: nat :: before(k) == []
    ensures Arrived(before, from, n) == []
    decreases n
  {
    if n > 0 {
      NothingArrives(before, from + 1, n - 1);
    }
  }
}
