/** What the byte format guarantees: round trips, and what the parser makes of any other buffer. */
module WireProofs {
  import opened Util
  import opened Wire

  ghost predicate AllComplete(irps: seq<CapturedIrp>) {
    forall i | 0 <= i < |irps| :: Complete(irps[i])
  }

  lemma {:induction false} SerialisedSize(irps: seq<CapturedIrp>)
    ensures |Serialise(irps)| == TotalSize(irps)
  {
    if irps != [] {
      SerialisedSize(irps[1..]);
    }
  }

  lemma ExportAppend(a: seq<QueuedIrp>, b: seq<QueuedIrp>)
    ensures ExportAll(a + b) == ExportAll(a) + ExportAll(b)
  {
  }

  lemma QueueSizeAppend(a: seq<QueuedIrp>, b: seq<QueuedIrp>)
    ensures QueueSize(a + b) == QueueSize(a) + QueueSize(b)
  {
    ExportAppend(a, b);
    SumAppend(RecordSize, ExportAll(a), ExportAll(b));
  }

  lemma RecordWithOf(irp: CapturedIrp, tail: seq<u8>)
    requires Complete(irp)
    ensures RecordWith(irp.header, irp.inputBuffer + irp.outputBuffer + tail) == irp
  {
    Assoc(irp.inputBuffer, irp.outputBuffer, tail);
    TakeDrop(irp.inputBuffer, irp.outputBuffer + tail);
    TakeDrop(irp.outputBuffer, tail);
  }

  /** A complete record in front of any bytes is read back as it was written. */
  lemma FirstRecordOf(irp: CapturedIrp, tail: seq<u8>)
    requires Complete(irp)
    ensures var b := RecordBytes(irp) + tail;
            |b| >= HEADER_SIZE && FirstRecord(b) == irp && b[RecordSize(irp)..] == tail
  {
    var body := irp.inputBuffer + irp.outputBuffer + tail;
    Assoc(HeaderBytes(irp.header), irp.inputBuffer, irp.outputBuffer);
    Assoc(HeaderBytes(irp.header), irp.inputBuffer + irp.outputBuffer, tail);
    TakeDrop(HeaderBytes(irp.header), body);
    HeaderRoundTrip(irp.header);
    RecordWithOf(irp, tail);
    TakeDrop(RecordBytes(irp), tail);
  }

  lemma ParseStep(irp: CapturedIrp, tail: seq<u8>)
    requires Complete(irp)
    ensures Parse(RecordBytes(irp) + tail) == [irp] + Parse(tail)
  {
    FirstRecordOf(irp, tail);
  }

  /** Parsing what the driver wrote, followed by anything, gives those records and then
      the records of the rest: so a concatenation parses to the concatenation of the parses. */
  lemma {:induction false} ParseAppend(irps: seq<CapturedIrp>, tail: seq<u8>)
    requires AllComplete(irps)
    ensures Parse(Serialise(irps) + tail) == irps + Parse(tail)
    decreases |irps|
  {
    if irps == [] {
      assert Serialise(irps) + tail == tail;
    } else {
      ParseAppend(irps[1..], tail);
      Assoc(RecordBytes(irps[0]), Serialise(irps[1..]), tail);
      ParseStep(irps[0], Serialise(irps[1..]) + tail);
      Assoc([irps[0]], irps[1..], Parse(tail));
      assert irps == [irps[0]] + irps[1..];
    }
  }

  /** Round trip over every queue, byte for byte. */
  lemma RoundTrip(q: seq<QueuedIrp>)
    ensures Parse(Serialise(ExportAll(q))) == ExportAll(q)
    ensures |Serialise(ExportAll(q))| == QueueSize(q)
  {
    WholeIntact(ExportAll(q));
    SerialisedSize(ExportAll(q));
  }

  lemma JoinTail<T>(b: seq<T>, i: nat, n: nat)
    requires i + n <= |b|
    ensures b[..i + n] == b[..i] + b[i..][..n]
  {
  }

  /** The first record is made of the bytes it is read from. */
  lemma FirstRecordBytes(b: seq<u8>)
    requires |b| >= HEADER_SIZE
    ensures var irp := FirstRecord(b); b[..RecordSize(irp)] == RecordBytes(irp)
  {
    var irp := FirstRecord(b);
    HeaderBytesRoundTrip(b[..HEADER_SIZE]);
    JoinTail(b, HEADER_SIZE, |irp.inputBuffer| + |irp.outputBuffer|);
    Assoc(HeaderBytes(irp.header), irp.inputBuffer, irp.outputBuffer);
  }

  /** On any buffer whatever, the records account for its bytes in order, each for at least a
      header, with less than one header left over. */
  lemma {:induction false} ParseUsesBytes(b: seq<u8>)
    ensures var total := TotalSize(Parse(b));
            && |Parse(b)| * HEADER_SIZE <= total <= |b| < total + HEADER_SIZE
            && b[..total] == Serialise(Parse(b))
    decreases |b|
  {
    if |b| >= HEADER_SIZE {
      var irp := FirstRecord(b);
      var rest := b[RecordSize(irp)..];
      ParseUsesBytes(rest);
      FirstRecordBytes(b);
      JoinTail(b, RecordSize(irp), TotalSize(Parse(rest)));
    }
  }

  lemma FirstLengths(b: seq<u8>)
    requires |b| >= HEADER_SIZE
    ensures var irp := FirstRecord(b);
            && |irp.inputBuffer| in {0, irp.header.inputBufferLength as int}
            && |irp.outputBuffer| in {0, irp.header.outputBufferLength as int}
  {
    hide HeaderAt;
  }

  /** On any buffer whatever, each parsed buffer has the length its header declares or is empty. */
  lemma {:induction false} ParseLengths(b: seq<u8>, i: nat)
    requires i < |Parse(b)|
    ensures var irp := Parse(b)[i];
            && |irp.inputBuffer| in {0, irp.header.inputBufferLength as int}
            && |irp.outputBuffer| in {0, irp.header.outputBufferLength as int}
    decreases i
  {
    hide FirstRecord;
    if i == 0 {
      FirstLengths(b);
    } else {
      ParseLengths(b[RecordSize(FirstRecord(b))..], i - 1);
    }
  }

  /** A buffer is one the driver could have written exactly when parsing it uses every byte and
      every record has its declared lengths; parsing and serialising are then inverse. */
  lemma WellFormedBuffers(b: seq<u8>)
    ensures (exists irps :: AllComplete(irps) && Serialise(irps) == b)
            <==> (AllComplete(Parse(b)) && TotalSize(Parse(b)) == |b|)
    ensures TotalSize(Parse(b)) == |b| <==> Serialise(Parse(b)) == b
  {
    ParseUsesBytes(b);
    SerialisedSize(Parse(b));
    assert b[..|b|] == b;
    if irps :| AllComplete(irps) && Serialise(irps) == b {
      WholeIntact(irps);
    }
  }

  /** How many records of the queue lie whole within the first n bytes. */
  ghost function WholeRecords(irps: seq<CapturedIrp>, n: nat): (k: nat)
    ensures k <= |irps| && TotalSize(irps[..k]) <= n
    ensures k < |irps| ==> n < TotalSize(irps[..k + 1])
  {
    if irps == [] || n < RecordSize(irps[0]) then
      assert irps != [] ==> irps[..1] == [irps[0]];
      0
    else
      var k := WholeRecords(irps[1..], n - RecordSize(irps[0]));
      assert irps[..k + 1][1..] == irps[1..][..k];
      assert k + 1 < |irps| ==> irps[..k + 2][1..] == irps[1..][..k + 1];
      k + 1
  }

  lemma TakeAcross<T>(a: seq<T>, b: seq<T>, c: seq<T>, cut: nat)
    requires cut <= |b|
    ensures (a + (b + c))[..|a| + cut] == a + b[..cut]
  {
  }

  lemma CutSerialised(irps: seq<CapturedIrp>, k: nat, cut: nat)
    requires k < |irps| && cut <= |RecordBytes(irps[k])|
    ensures TotalSize(irps[..k]) + cut <= |Serialise(irps)|
    ensures Serialise(irps)[..TotalSize(irps[..k]) + cut] == Serialise(irps[..k]) + RecordBytes(irps[k])[..cut]
  {
    SerialisedSize(irps[..k]);
    ConcatAt(RecordBytes, irps, k);
    TakeAcross(Serialise(irps[..k]), RecordBytes(irps[k]), Serialise(irps[k + 1..]), cut);
  }

  lemma WholeIntact(irps: seq<CapturedIrp>)
    requires AllComplete(irps)
    ensures Parse(Serialise(irps)) == irps
  {
    ParseAppend(irps, []);
    assert Serialise(irps) + [] == Serialise(irps);
  }

  lemma FragmentSize(irp: CapturedIrp, cut: nat)
    requires cut < RecordSize(irp)
    ensures |RecordBytes(irp)| == RecordSize(irp)
    ensures Parse(RecordBytes(irp)[..cut]) == [] <==> cut < HEADER_SIZE
  {
  }

  /** Cutting a serialised queue inside record k leaves the k records before it in front, intact;
      what follows is the parse of the cut record's bytes alone, and it is nothing exactly if the
      cut is inside its header. */
  lemma PrefixIntact(irps: seq<CapturedIrp>, k: nat, cut: nat)
    requires AllComplete(irps) && k < |irps| && cut < RecordSize(irps[k])
    ensures |RecordBytes(irps[k])| == RecordSize(irps[k])
    ensures TotalSize(irps[..k]) + cut < |Serialise(irps)|
    ensures Parse(Serialise(irps)[..TotalSize(irps[..k]) + cut]) == irps[..k] + Parse(RecordBytes(irps[k])[..cut])
    ensures Parse(RecordBytes(irps[k])[..cut]) == [] <==> cut < HEADER_SIZE
  {
    FragmentSize(irps[k], cut);
    CutSerialised(irps, k, cut);
    CutSerialised(irps, k, cut + 1);
    ParseAppend(irps[..k], RecordBytes(irps[k])[..cut]);
  }

  /** Every proper cut is of that form. */
  lemma EveryCut(irps: seq<CapturedIrp>, n: nat)
    requires n < |Serialise(irps)|
    ensures var k := WholeRecords(irps, n);
            k < |irps| && 0 <= n - TotalSize(irps[..k]) < RecordSize(irps[k])
  {
    SerialisedSize(irps);
    var k := WholeRecords(irps, n);
    assert irps[..|irps|] == irps;
    SumOfPrefix(RecordSize, irps, k);
  }

  /** The first record parsed from a record cut n bytes after its header. A buffer that does not fit
      is skipped, not waited for: when the cut falls inside the input buffer, the output buffer is
      read from the start of the input if it fits there. */
  ghost function CutFirst(irp: CapturedIrp, n: nat): CapturedIrp
    requires n < |irp.inputBuffer| + |irp.outputBuffer|
  {
    if n >= |irp.inputBuffer| then irp.(outputBuffer := [])
    else if n >= |irp.outputBuffer| then CapturedIrp(irp.header, [], irp.inputBuffer[..|irp.outputBuffer|])
    else CapturedIrp(irp.header, [], [])
  }

  /** The buffer bytes left over, which are parsed as if a header began there. */
  ghost function CutLeft(irp: CapturedIrp, n: nat): seq<u8>
    requires n < |irp.inputBuffer| + |irp.outputBuffer|
  {
    if n >= |irp.inputBuffer| then irp.outputBuffer[..n - |irp.inputBuffer|]
    else if n >= |irp.outputBuffer| then irp.inputBuffer[|irp.outputBuffer|..n]
    else irp.inputBuffer[..n]
  }

  lemma CutBody(irp: CapturedIrp, n: nat)
    requires Complete(irp) && n < |irp.inputBuffer| + |irp.outputBuffer|
    ensures var body := (irp.inputBuffer + irp.outputBuffer)[..n];
            && RecordWith(irp.header, body) == CutFirst(irp, n)
            && body[RecordSize(CutFirst(irp, n)) - HEADER_SIZE..] == CutLeft(irp, n)
  {
    var body := (irp.inputBuffer + irp.outputBuffer)[..n];
    if n >= |irp.inputBuffer| {
      assert body[..|irp.inputBuffer|] == irp.inputBuffer;
      assert body[|irp.inputBuffer|..] == irp.outputBuffer[..n - |irp.inputBuffer|];
    } else {
      assert body == irp.inputBuffer[..n];
    }
  }

  /** Everything the parser makes of a cut record: that record, and the records of what is left. So
      buffer bytes come out as further records exactly if at least a header of them is left. */
  lemma CutRecord(irp: CapturedIrp, n: nat)
    requires Complete(irp) && n < |irp.inputBuffer| + |irp.outputBuffer|
    ensures HEADER_SIZE + n <= |RecordBytes(irp)|
    ensures Parse(RecordBytes(irp)[..HEADER_SIZE + n]) == [CutFirst(irp, n)] + Parse(CutLeft(irp, n))
    ensures |Parse(RecordBytes(irp)[..HEADER_SIZE + n])| > 1 <==> |CutLeft(irp, n)| >= HEADER_SIZE
  {
    hide HeaderBytes, RecordWith, CutFirst, CutLeft;
    var body := irp.inputBuffer + irp.outputBuffer;
    Assoc(HeaderBytes(irp.header), irp.inputBuffer, irp.outputBuffer);
    var b := RecordBytes(irp)[..HEADER_SIZE + n];
    assert b == HeaderBytes(irp.header) + body[..n];
    TakeDrop(HeaderBytes(irp.header), body[..n]);
    HeaderRoundTrip(irp.header);
    CutBody(irp, n);
    assert b[RecordSize(CutFirst(irp, n))..] == body[..n][RecordSize(CutFirst(irp, n)) - HEADER_SIZE..];
  }

  // ----- the bytes of a captured IRP -----

  /** The record of an IRP has its fields. */
  lemma ExportFields(d: QueuedIrp)
    ensures var irp := Export(d);
            && irp.header.timeStamp == d.timeStamp
            && irp.header.irql == d.irql && irp.header.kind == d.kind
            && irp.header.majorFunction == d.majorFunction && irp.header.minorFunction == d.minorFunction
            && irp.header.ioctlCode == d.ioctlCode && irp.header.pid == d.pid && irp.header.tid == d.tid
            && irp.header.status == d.status
            && irp.header.inputBufferLength == |d.inputBuffer| && irp.header.outputBufferLength == |d.outputBuffer|
            && irp.inputBuffer == d.inputBuffer && irp.outputBuffer == d.outputBuffer
    ensures var h := Export(d).header;
            forall i | 0 <= i < 512 ::
              && h.driverName[i] == (if i < |d.driverName| then d.driverName[i] else 0)
              && h.deviceName[i] == (if i < |d.deviceName| then d.deviceName[i] else 0)
              && h.processName[i] == (if i < |d.processName| then d.processName[i] else 0)
  {
  }

  /** What the broker reads at each offset of a header. */
  lemma ReadFields(b: seq<u8>)
    requires |b| == 1572
    ensures var h := HeaderAt(b);
            && h.timeStamp == U64At(b, 0) && h.driverName == b[8..520] && h.deviceName == b[520..1032]
            && h.irql == b[1032] && h.kind == b[1033] && h.majorFunction == b[1034] && h.minorFunction == b[1035]
            && h.ioctlCode == U32At(b, 1036) && h.pid == U32At(b, 1040) && h.tid == U32At(b, 1044)
            && h.status == U32At(b, 1048) && h.processName == b[1052..1564]
            && h.inputBufferLength == U32At(b, 1564) && h.outputBufferLength == U32At(b, 1568)
  {
    hide U32At, U64At;
  }

  lemma HeaderComesFirst(h: Header, tail: seq<u8>)
    ensures (HeaderBytes(h) + tail)[..1572] == HeaderBytes(h) && (HeaderBytes(h) + tail)[1572..] == tail
  {
    hide HeaderBytes;
    TakeDrop(HeaderBytes(h), tail);
  }

  /** What the driver writes for an IRP, at each offset: the numbers with their least significant byte
      first, the names with zeros behind them, and the two buffers after the header, input first. */
  lemma WrittenBytes(d: QueuedIrp)
    ensures var b := RecordBytes(Export(d));
            && |b| == 1572 + |d.inputBuffer| + |d.outputBuffer|
            && U64At(b, 0) == d.timeStamp
            && b[1032] == d.irql && b[1033] == d.kind && b[1034] == d.majorFunction && b[1035] == d.minorFunction
            && U32At(b, 1036) == d.ioctlCode && U32At(b, 1040) == d.pid && U32At(b, 1044) == d.tid
            && U32At(b, 1048) == d.status
            && U32At(b, 1564) == |d.inputBuffer| && U32At(b, 1568) == |d.outputBuffer|
            && b[1572..1572 + |d.inputBuffer|] == d.inputBuffer && b[1572 + |d.inputBuffer|..] == d.outputBuffer
    ensures var b := RecordBytes(Export(d));
            forall i | 0 <= i < 512 ::
              && b[8 + i] == (if i < |d.driverName| then d.driverName[i] else 0)
              && b[520 + i] == (if i < |d.deviceName| then d.deviceName[i] else 0)
              && b[1052 + i] == (if i < |d.processName| then d.processName[i] else 0)
  {
    hide HeaderBytes, HeaderAt, U32At, U64At, Export;
    var irp := Export(d);
    var b, h := RecordBytes(irp), HeaderBytes(irp.header);
    Assoc(h, irp.inputBuffer, irp.outputBuffer);
    HeaderComesFirst(irp.header, irp.inputBuffer + irp.outputBuffer);
    HeaderRoundTrip(irp.header);
    ReadFields(h);
    ExportFields(d);
    assert forall i | 0 <= i < 1572 :: b[i] == h[i];
    assert forall i | 0 <= i < 512 :: h[8..520][i] == h[8 + i] && h[520..1032][i] == h[520 + i]
                                      && h[1052..1564][i] == h[1052 + i];
    SameNumbers(b, h);
    TakeDrop(irp.inputBuffer, irp.outputBuffer);
    assert b[1572..][..|d.inputBuffer|] == b[1572..1572 + |d.inputBuffer|];
    assert b[1572..][|d.inputBuffer|..] == b[1572 + |d.inputBuffer|..];
  }

  lemma SameNumbers(b: seq<u8>, h: seq<u8>)
    requires |h| == 1572 <= |b| && b[..1572] == h
    ensures U64At(b, 0) == U64At(h, 0)
    ensures forall at | 0 <= at <= 1568 :: U32At(b, at) == U32At(h, at)
  {
    hide U32At, U64At, Number;
    forall at | 0 <= at <= 1568 ensures U32At(b, at) == U32At(h, at) {
      assert forall i | 0 <= i < 1572 :: b[..1572][i] == b[i];
      U32Is(b, at);
      U32Is(h, at);
    }
    U64Is(b, 0);
    U64Is(h, 0);
  }
}
