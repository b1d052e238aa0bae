/** The byte format in which the driver hands captured IRPs to the broker. */
module Wire {
  import opened Util

  /** The bytes of a `wchar_t[CFB_DRIVER_MAX_PATH]` member. */
  const NAME_SIZE: nat := 512
  type Name = s: seq<u8> | |s| == NAME_SIZE witness Zeros(NAME_SIZE)

  /** What a captured buffer can hold: its length comes from a ULONG. */
  type Buffer = s: seq<u8> | |s| < 0x1_0000_0000

  datatype Header = Header(
    timeStamp: u64,
    driverName: Name,
    deviceName: Name,
    irql: u8,
    kind: u8,
    majorFunction: u8,
    minorFunction: u8,
    ioctlCode: u32,
    pid: u32,
    tid: u32,
    status: u32,
    processName: Name,
    inputBufferLength: u32,
    outputBufferLength: u32)

  const HEADER_SIZE: nat := 1572

  /** A record as the broker keeps it. */
  datatype CapturedIrp = CapturedIrp(header: Header, inputBuffer: seq<u8>, outputBuffer: seq<u8>)

  /** Both buffers have the length the header declares. */
  predicate Complete(irp: CapturedIrp) {
    && |irp.inputBuffer| == irp.header.inputBufferLength
    && |irp.outputBuffer| == irp.header.outputBufferLength
  }

  // ----- numbers -----

  function LittleEndian(v: nat, n: nat): (b: seq<u8>)
    ensures |b| == n
  {
    if n == 0 then [] else [(v % 256) as u8] + LittleEndian(v / 256, n - 1)
  }

  function Number(b: seq<u8>): nat {
    if b == [] then 0 else b[0] as nat + 256 * Number(b[1..])
  }

  function Pow256(n: nat): nat {
    if n == 0 then 1 else 256 * Pow256(n - 1)
  }

  lemma {:induction false} NumberOfLittleEndian(v: nat, n: nat)
    requires v < Pow256(n)
    ensures Number(LittleEndian(v, n)) == v
  {
    if n > 0 {
      NumberOfLittleEndian(v / 256, n - 1);
    }
  }

  lemma {:induction false} LittleEndianOfNumber(b: seq<u8>)
    ensures Number(b) < Pow256(|b|) && LittleEndian(Number(b), |b|) == b
  {
    if b != [] {
      LittleEndianOfNumber(b[1..]);
      assert (b[0] as nat + 256 * Number(b[1..])) / 256 == Number(b[1..]);
    }
  }

  function U32At(b: seq<u8>, at: nat): u32
    requires at + 4 <= |b|
  {
    LittleEndianOfNumber(b[at..at + 4]);
    assert Pow256(4) == 0x1_0000_0000;
    Number(b[at..at + 4])
  }

  function U64At(b: seq<u8>, at: nat): u64
    requires at + 8 <= |b|
  {
    LittleEndianOfNumber(b[at..at + 8]);
    assert Pow256(8) == 0x1_0000_0000_0000_0000;
    Number(b[at..at + 8])
  }

  /** The first byte is the least significant one. */
  lemma U32Is(b: seq<u8>, at: nat)
    requires at + 4 <= |b|
    ensures U32At(b, at) == b[at] as nat + 0x100 * b[at + 1] as nat + 0x1_0000 * b[at + 2] as nat
                            + 0x100_0000 * b[at + 3] as nat
  {
    NumberFour(b[at..at + 4]);
  }

  lemma NumberFour(b: seq<u8>)
    requires |b| == 4
    ensures Number(b) == b[0] as nat + 0x100 * b[1] as nat + 0x1_0000 * b[2] as nat + 0x100_0000 * b[3] as nat
  {
    assert b[1..][1..] == b[2..] && b[2..][1..] == b[3..] && b[3..][1..] == [];
    assert Number(b[3..]) == b[3] as nat;
    assert Number(b[2..]) == b[2] as nat + 0x100 * b[3] as nat;
  }

  lemma U64Is(b: seq<u8>, at: nat)
    requires at + 8 <= |b|
    ensures U64At(b, at) == U32At(b, at) + 0x1_0000_0000 * U32At(b, at + 4)
  {
    hide U32At;
    var c := b[at..at + 8];
    U32Is(b, at);
    U32Is(b, at + 4);
    NumberFour(c[4..]);
    NumberFour(c[..4]);
    NumberSplit(c);
  }

  lemma NumberSplit(b: seq<u8>)
    requires |b| == 8
    ensures Number(b) == Number(b[..4]) + 0x1_0000_0000 * Number(b[4..])
  {
    NumberFour(b[..4]);
    assert b[1..][1..] == b[2..] && b[2..][1..] == b[3..] && b[3..][1..] == b[4..];
    assert Number(b[3..]) == b[3] as nat + 0x100 * Number(b[4..]);
    assert Number(b[2..]) == b[2] as nat + 0x100 * Number(b[3..]);
    assert Number(b[1..]) == b[1] as nat + 0x100 * Number(b[2..]);
  }

  // ----- the header -----

  /** The packed members in declaration order. */
  function Members(h: Header): seq<seq<u8>> {
    [LittleEndian(h.timeStamp, 8), h.driverName, h.deviceName,
     [h.irql, h.kind, h.majorFunction, h.minorFunction],
     LittleEndian(h.ioctlCode, 4), LittleEndian(h.pid, 4), LittleEndian(h.tid, 4), LittleEndian(h.status, 4),
     h.processName,
     LittleEndian(h.inputBufferLength, 4), LittleEndian(h.outputBufferLength, 4)]
  }

  function Flatten(parts: seq<seq<u8>>): seq<u8> {
    if parts == [] then [] else parts[0] + Flatten(parts[1..])
  }

  function HeaderBytes(h: Header): (b: seq<u8>)
    ensures |b| == HEADER_SIZE
  {
    HeaderLayout(h);
    Flatten(Members(h))
  }

  /** The members read at their offsets in the packed structure. */
  function HeaderAt(b: seq<u8>): Header
    requires |b| == HEADER_SIZE
  {
    Header(
      U64At(b, 0), b[8..520], b[520..1032],
      b[1032], b[1033], b[1034], b[1035],
      U32At(b, 1036), U32At(b, 1040), U32At(b, 1044), U32At(b, 1048),
      b[1052..1564],
      U32At(b, 1564), U32At(b, 1568))
  }

  /** The bytes at the members' offsets are those of the members. */
  ghost predicate LaidOut(b: seq<u8>, h: Header) {
    && |b| == HEADER_SIZE
    && b[0..8] == LittleEndian(h.timeStamp, 8)
    && b[8..520] == h.driverName
    && b[520..1032] == h.deviceName
    && b[1032..1036] == [h.irql, h.kind, h.majorFunction, h.minorFunction]
    && b[1036..1040] == LittleEndian(h.ioctlCode, 4)
    && b[1040..1044] == LittleEndian(h.pid, 4)
    && b[1044..1048] == LittleEndian(h.tid, 4)
    && b[1048..1052] == LittleEndian(h.status, 4)
    && b[1052..1564] == h.processName
    && b[1564..1568] == LittleEndian(h.inputBufferLength, 4)
    && b[1568..1572] == LittleEndian(h.outputBufferLength, 4)
  }

  /** Part k starts where the parts before it end. */
  lemma FlattenStep(all: seq<u8>, parts: seq<seq<u8>>, k: nat, at: nat)
    requires k < |parts| && at <= |all| && all[at..] == Flatten(parts[k..])
    ensures at + |parts[k]| <= |all|
    ensures all[at..at + |parts[k]|] == parts[k]
    ensures all[at + |parts[k]|..] == Flatten(parts[k + 1..])
  {
    assert parts[k..][0] == parts[k] && parts[k..][1..] == parts[k + 1..];
    TakeDrop(parts[k], Flatten(parts[k + 1..]));
    assert all[at..][..|parts[k]|] == all[at..at + |parts[k]|];
    assert all[at..][|parts[k]|..] == all[at + |parts[k]|..];
  }

  lemma FrontLayout(b: seq<u8>, parts: seq<seq<u8>>)
    requires |parts| == 11 && b == Flatten(parts)
    requires |parts[0]| == 8 && |parts[1]| == |parts[2]| == NAME_SIZE && |parts[3]| == 4 && |parts[4]| == 4
    ensures |b| >= 1040 && b[1040..] == Flatten(parts[5..])
    ensures b[0..8] == parts[0] && b[8..520] == parts[1] && b[520..1032] == parts[2]
    ensures b[1032..1036] == parts[3] && b[1036..1040] == parts[4]
  {
    assert b[0..] == b && parts[0..] == parts;
    FlattenStep(b, parts, 0, 0);
    FlattenStep(b, parts, 1, 8);
    FlattenStep(b, parts, 2, 520);
    FlattenStep(b, parts, 3, 1032);
    FlattenStep(b, parts, 4, 1036);
  }

  lemma BackLayout(b: seq<u8>, parts: seq<seq<u8>>)
    requires |parts| == 11 && |b| >= 1040 && b[1040..] == Flatten(parts[5..])
    requires |parts[5]| == |parts[6]| == |parts[7]| == 4 && |parts[8]| == NAME_SIZE && |parts[9]| == |parts[10]| == 4
    ensures |b| == HEADER_SIZE
    ensures b[1040..1044] == parts[5] && b[1044..1048] == parts[6] && b[1048..1052] == parts[7]
    ensures b[1052..1564] == parts[8] && b[1564..1568] == parts[9] && b[1568..1572] == parts[10]
  {
    FlattenStep(b, parts, 5, 1040);
    FlattenStep(b, parts, 6, 1044);
    FlattenStep(b, parts, 7, 1048);
    FlattenStep(b, parts, 8, 1052);
    FlattenStep(b, parts, 9, 1564);
    FlattenStep(b, parts, 10, 1568);
    assert parts[11..] == [];
  }

  lemma HeaderLayout(h: Header)
    ensures LaidOut(Flatten(Members(h)), h)
  {
    FrontLayout(Flatten(Members(h)), Members(h));
    BackLayout(Flatten(Members(h)), Members(h));
  }

  lemma ReadU32(b: seq<u8>, at: nat, v: u32)
    requires at + 4 <= |b| && b[at..at + 4] == LittleEndian(v, 4)
    ensures U32At(b, at) == v
  {
    assert Pow256(4) == 0x1_0000_0000;
    NumberOfLittleEndian(v, 4);
  }

  lemma ReadU64(b: seq<u8>, at: nat, v: u64)
    requires at + 8 <= |b| && b[at..at + 8] == LittleEndian(v, 8)
    ensures U64At(b, at) == v
  {
    assert Pow256(8) == 0x1_0000_0000_0000_0000;
    NumberOfLittleEndian(v, 8);
  }

  lemma HeaderOfLayout(b: seq<u8>, h: Header)
    requires LaidOut(b, h)
    ensures HeaderAt(b) == h
  {
    ReadU64(b, 0, h.timeStamp);
    ReadU32(b, 1036, h.ioctlCode);
    ReadU32(b, 1040, h.pid);
    ReadU32(b, 1044, h.tid);
    ReadU32(b, 1048, h.status);
    ReadU32(b, 1564, h.inputBufferLength);
    ReadU32(b, 1568, h.outputBufferLength);
    assert [b[1032], b[1033], b[1034], b[1035]] == b[1032..1036];
  }

  /** Reading back a written header gives the header. */
  lemma HeaderRoundTrip(h: Header)
    ensures HeaderAt(HeaderBytes(h)) == h
  {
    HeaderLayout(h);
    HeaderOfLayout(HeaderBytes(h), h);
  }

  /** Two runs of bytes with the same members are the same. */
  lemma LayoutUnique(a: seq<u8>, b: seq<u8>, h: Header)
    requires LaidOut(a, h) && LaidOut(b, h)
    ensures a == b
  {
    forall i | 0 <= i < HEADER_SIZE ensures a[i] == b[i] {
      var (lo, hi) :=
        if i < 8 then (0, 8) else if i < 520 then (8, 520) else if i < 1032 then (520, 1032)
        else if i < 1036 then (1032, 1036) else if i < 1040 then (1036, 1040) else if i < 1044 then (1040, 1044)
        else if i < 1048 then (1044, 1048) else if i < 1052 then (1048, 1052) else if i < 1564 then (1052, 1564)
        else if i < 1568 then (1564, 1568) else (1568, 1572);
      assert a[lo..hi][i - lo] == b[lo..hi][i - lo];
    }
  }

  /** Every run of HEADER_SIZE bytes is some header's, so reading loses nothing. */
  lemma HeaderBytesRoundTrip(b: seq<u8>)
    requires |b| == HEADER_SIZE
    ensures HeaderBytes(HeaderAt(b)) == b
  {
    LittleEndianOfNumber(b[0..8]);
    LittleEndianOfNumber(b[1036..1040]);
    LittleEndianOfNumber(b[1040..1044]);
    LittleEndianOfNumber(b[1044..1048]);
    LittleEndianOfNumber(b[1048..1052]);
    LittleEndianOfNumber(b[1564..1568]);
    LittleEndianOfNumber(b[1568..1572]);
    assert [b[1032], b[1033], b[1034], b[1035]] == b[1032..1036];
    HeaderLayout(HeaderAt(b));
    LayoutUnique(HeaderBytes(HeaderAt(b)), b, HeaderAt(b));
  }

  // ----- records -----

  function RecordBytes(irp: CapturedIrp): seq<u8> {
    HeaderBytes(irp.header) + irp.inputBuffer + irp.outputBuffer
  }

  function Serialise(irps: seq<CapturedIrp>): seq<u8> {
    Concat(RecordBytes, irps)
  }

  function RecordSize(irp: CapturedIrp): nat {
    HEADER_SIZE + |irp.inputBuffer| + |irp.outputBuffer|
  }

  function TotalSize(irps: seq<CapturedIrp>): nat {
    Sum(RecordSize, irps)
  }

  /** The buffer of the declared length if it fits in what is left, nothing otherwise. */
  function TakeBuffer(b: seq<u8>, length: nat): (taken: seq<u8>)
    ensures |b| >= |taken| && b[..|taken|] == taken
    ensures |taken| == length || (taken == [] && |b| < length)
  {
    if length <= |b| then b[..length] else []
  }

  /** What the bytes after a header hold of its buffers. */
  function RecordWith(h: Header, body: seq<u8>): (irp: CapturedIrp)
    ensures |body| >= |irp.inputBuffer| + |irp.outputBuffer|
    ensures body[..|irp.inputBuffer| + |irp.outputBuffer|] == irp.inputBuffer + irp.outputBuffer
    ensures irp.header == h
  {
    var input := TakeBuffer(body, h.inputBufferLength);
    var output := TakeBuffer(body[|input|..], h.outputBufferLength);
    CapturedIrp(h, input, output)
  }

  /** The first record of a buffer that holds at least a header. */
  function FirstRecord(b: seq<u8>): (irp: CapturedIrp)
    requires |b| >= HEADER_SIZE
    ensures HEADER_SIZE <= RecordSize(irp) <= |b|
  {
    RecordWith(HeaderAt(b[..HEADER_SIZE]), b[HEADER_SIZE..])
  }

  /** The records of any buffer, well-formed or not. */
  function Parse(b: seq<u8>): seq<CapturedIrp> {
    if |b| < HEADER_SIZE then []
    else
      var irp := FirstRecord(b);
      [irp] + Parse(b[RecordSize(irp)..])
  }

  // ----- what the driver queues -----

  /** A captured name that fits its field. */
  type ShortName = s: seq<u8> | |s| <= NAME_SIZE

  /** A captured IRP in the driver, immutable once pushed. */
  datatype QueuedIrp = QueuedIrp(
    timeStamp: u64,
    driverName: ShortName,
    deviceName: ShortName,
    processName: ShortName,
    irql: u8,
    kind: u8,
    majorFunction: u8,
    minorFunction: u8,
    ioctlCode: u32,
    pid: u32,
    tid: u32,
    status: u32,
    inputBuffer: Buffer,
    outputBuffer: Buffer)

  function Zeros(n: nat): (zeros: seq<u8>)
    ensures |zeros| == n && forall i | 0 <= i < n :: zeros[i] == 0
  {
    if n == 0 then [] else [0] + Zeros(n - 1)
  }

  /** A name copied over the start of a zeroed field. */
  function Padded(name: ShortName): Name
  {
    name + Zeros(NAME_SIZE - |name|)
  }

  function ExportHeader(d: QueuedIrp): Header {
    Header(
      d.timeStamp, Padded(d.driverName), Padded(d.deviceName),
      d.irql, d.kind, d.majorFunction, d.minorFunction,
      d.ioctlCode, d.pid, d.tid, d.status, Padded(d.processName),
      |d.inputBuffer|, |d.outputBuffer|)
  }

  /** The record a client must end up with for an IRP the driver captured. */
  function Export(d: QueuedIrp): (irp: CapturedIrp)
    ensures Complete(irp)
  {
    CapturedIrp(ExportHeader(d), d.inputBuffer, d.outputBuffer)
  }

  function ExportAll(q: seq<QueuedIrp>): (irps: seq<CapturedIrp>)
    ensures |irps| == |q| && forall i | 0 <= i < |q| :: irps[i] == Export(q[i])
  {
    if q == [] then [] else [Export(q[0])] + ExportAll(q[1..])
  }

  /** `CapturedIrp::Size`. */
  function SizeOf(d: QueuedIrp): nat {
    HEADER_SIZE + |d.inputBuffer| + |d.outputBuffer|
  }

  function QueueSize(q: seq<QueuedIrp>): nat {
    TotalSize(ExportAll(q))
  }
}
