/** The hexadecimal dump: sixteen bytes a line, with their address and their printable characters. */
module Hexdumps {
  import opened Util
  import opened Alignment

  // ----- numbers and characters -----

  function Upper(d: nat): char
    requires d < 16
  {
    if d < 10 then (48 + d) as char else (55 + d) as char
  }

  function Lower(d: nat): char
    requires d < 16
  {
    if d < 10 then (48 + d) as char else (87 + d) as char
  }

  function DigitValue(c: char): nat {
    var n := c as int;
    if 48 <= n <= 57 then n - 48
    else if 65 <= n <= 70 then n - 55
    else if 97 <= n <= 102 then n - 87
    else 0
  }

  /** `%02X` */
  function Hex2(c: u8): (s: string)
    ensures |s| == 2
  {
    [Upper(c as int / 16), Upper(c as int % 16)]
  }

  /** `%0wIx`: at least w digits. */
  function Digits(a: nat, w: nat): string {
    if a < 16 && w <= 1 then [Lower(a)] else Digits(a / 16, if w == 0 then 0 else w - 1) + [Lower(a % 16)]
  }

  function Value(s: string): nat {
    if s == "" then 0 else 16 * Value(s[..|s| - 1]) + DigitValue(s[|s| - 1])
  }

  /** The printable character of a byte, or a dot. */
  function Shown(c: u8): (s: char)
    ensures s != '\0' && s != '\n'
  {
    if 0x20 <= c < 0x7f then (c as int) as char else '.'
  }

  function Ascii(bytes: seq<u8>): string {
    seq(|bytes|, i requires 0 <= i < |bytes| => Shown(bytes[i]))
  }

  /** `%s`: the characters before the first NUL. */
  function CString(s: string): string {
    if s == "" || s[0] == '\0' then "" else [s[0]] + CString(s[1..])
  }

  function Spaces(n: nat): (s: string)
    ensures |s| == n
  {
    seq(n, _ => ' ')
  }

  // ----- the layout -----

  /** The bytes of a line, with one more space after every eighth. */
  function HexCells(bytes: seq<u8>): string {
    if bytes == [] then ""
    else
      var n := |bytes|;
      HexCells(bytes[..n - 1]) + (Hex2(bytes[n - 1]) + " " + if n % 8 == 0 then " " else "")
  }

  lemma {:induction false} HexCellsLength(bytes: seq<u8>)
    ensures |HexCells(bytes)| == 3 * |bytes| + |bytes| / 8
  {
    if bytes != [] {
      HexCellsLength(bytes[..|bytes| - 1]);
    }
  }

  function Address(a: nat): string {
    Digits(a % WORD, 8)
  }

  /** One line: the cells are filled up to fifty characters, so that the bar comes at the same place. */
  function Line(a: nat, bytes: seq<u8>): string
    requires 0 < |bytes| <= 16
  {
    HexCellsLength(bytes);
    Address(a) + "   " + (HexCells(bytes) + Spaces(50 - |HexCells(bytes)|) + ("|  " + Ascii(bytes) + " \n"))
  }

  function Lines(data: seq<u8>, base: nat): string {
    if data == [] then ""
    else if |data| <= 16 then Line(base, data)
    else Line(base, data[..16]) + Lines(data[16..], base + 16)
  }

  // ----- numbers -----

  lemma DigitRoundTrip(d: nat)
    requires d < 16
    ensures DigitValue(Upper(d)) == d && DigitValue(Lower(d)) == d
  {
  }

  /** The digits of a byte are upper case, those of an address are lower case; reading takes both. */
  lemma DigitCharacters(d: nat)
    requires d < 16
    ensures Upper(d) == "0123456789ABCDEF"[d] && Lower(d) == "0123456789abcdef"[d]
    ensures DigitValue("0123456789ABCDEF"[d]) == d && DigitValue("0123456789abcdef"[d]) == d
  {
    if d < 10 {
      assert "0123456789ABCDEF"[d] == "0123456789abcdef"[d] == (48 + d) as char;
    } else {
      assert "0123456789ABCDEF"[d] == (55 + d) as char && "0123456789abcdef"[d] == (87 + d) as char;
    }
  }

  lemma ByteDigits(c: u8)
    ensures Hex2(c) == ["0123456789ABCDEF"[c as int / 16], "0123456789ABCDEF"[c as int % 16]]
  {
    hide Upper;
    DigitCharacters(c as int / 16);
    DigitCharacters(c as int % 16);
  }

  lemma {:induction false} AddressDigits(a: nat, w: nat)
    ensures forall k | 0 <= k < |Digits(a, w)| :: Digits(a, w)[k] in "0123456789abcdef"
    decreases a + w
  {
    hide Lower;
    DigitCharacters(a % 16);
    if !(a < 16 && w <= 1) {
      AddressDigits(a / 16, if w == 0 then 0 else w - 1);
    }
  }

  ghost function Pow16(n: nat): (p: nat)
    ensures p > 0
  {
    if n == 0 then 1 else 16 * Pow16(n - 1)
  }

  lemma {:induction false} DigitsLength(a: nat, w: nat)
    ensures |Digits(a, w)| >= w && |Digits(a, w)| >= 1
    ensures w > 0 ==> (|Digits(a, w)| == w <==> a < Pow16(w))
    decreases a + w
  {
    if a < 16 && w <= 1 {
      assert w == 1 ==> Pow16(1) == 16;
    } else if w <= 1 {
      DigitsLength(a / 16, 0);
      assert Pow16(1) == 16;
    } else {
      DigitsLength(a / 16, w - 1);
      assert Pow16(w) == 16 * Pow16(w - 1);
    }
  }

  /** No more digits than are asked for or needed. */
  lemma {:induction false} DigitsFew(a: nat, w: nat, n: nat)
    requires n >= w && n >= 1
    ensures |Digits(a, w)| <= n <==> a < Pow16(n)
    decreases a + w
  {
    if a < 16 && w <= 1 {
      AtLeastSixteen(n);
    } else if n == 1 {
      DigitsLength(a / 16, 0);
      assert Pow16(1) == 16;
    } else {
      DigitsFew(a / 16, if w == 0 then 0 else w - 1, n - 1);
      assert Pow16(n) == 16 * Pow16(n - 1);
    }
  }

  lemma AtLeastSixteen(n: nat)
    requires n >= 1
    ensures Pow16(n) >= 16
  {
  }

  lemma {:induction false} DigitsValue(a: nat, w: nat)
    ensures Value(Digits(a, w)) == a
    decreases a + w
  {
    if a < 16 && w <= 1 {
      DigitRoundTrip(a);
      assert Digits(a, w)[..0] == "";
    } else {
      var rest := Digits(a / 16, if w == 0 then 0 else w - 1);
      DigitsValue(a / 16, if w == 0 then 0 else w - 1);
      DigitRoundTrip(a % 16);
      assert (rest + [Lower(a % 16)])[..|rest|] == rest;
    }
  }

  /** An address reads back as itself, in lower case digits. It has eight of them exactly below 2^32,
      and never more than it needs beyond eight. */
  lemma AddressExact(a: nat)
    ensures Value(Address(a)) == a % 0x1_0000_0000_0000_0000
    ensures forall k | 0 <= k < |Address(a)| :: Address(a)[k] in "0123456789abcdef"
    ensures |Address(a)| >= 8 && (|Address(a)| == 8 <==> a % 0x1_0000_0000_0000_0000 < 0x1_0000_0000)
    ensures forall n: nat | n >= 8 :: |Address(a)| <= n <==> a % 0x1_0000_0000_0000_0000 < Pow16(n)
  {
    hide Digits, Value;
    DigitsValue(a % WORD, 8);
    AddressDigits(a % WORD, 8);
    DigitsLength(a % WORD, 8);
    forall n: nat | n >= 8 ensures |Address(a)| <= n <==> a % WORD < Pow16(n) {
      DigitsFew(a % WORD, 8, n);
    }
    assert Pow16(4) == 0x1_0000;
    assert Pow16(8) == 0x1_0000_0000;
  }

  // ----- the loop -----

  /** The text of a line that is not finished. */
  ghost function Begun(a: nat, bytes: seq<u8>): string {
    if bytes == [] then "" else Address(a) + "   " + HexCells(bytes)
  }

  /** The place of byte i on its line. */
  function InLine(i: nat): (r: nat)
    ensures r < 16 && r <= i
  {
    i % 16
  }

  /** The first byte of that line. */
  ghost function Start(i: nat): nat {
    i - InLine(i)
  }

  /** Half a line ends with byte i. */
  predicate EndsHalf(i: nat) {
    (i + 1) % 8 == 0
  }

  /** The bytes already on the line of byte i. */
  ghost function Prev(data: seq<u8>, i: nat): (prev: seq<u8>)
    requires i <= |data|
    ensures |prev| == InLine(i)
  {
    data[Start(i)..i]
  }

  /** The lines before the line of byte i. */
  ghost function Above(data: seq<u8>, base: nat, i: nat): string
    requires i <= |data|
  {
    Lines(data[..Start(i)], base)
  }

  /** The text after i bytes. */
  ghost function Text(data: seq<u8>, base: nat, i: nat): string
    requires i <= |data|
  {
    if i == |data| then Lines(data, base) else Above(data, base, i) + Begun(base + Start(i), Prev(data, i))
  }

  /** The array of characters on the way: NUL after the last one. */
  ghost function Waiting(bytes: seq<u8>): (s: string)
    requires |bytes| <= 16
    ensures |s| == 17
  {
    Ascii(bytes) + seq(17 - |bytes|, _ => '\0')
  }

  lemma {:induction false} LinesSnoc(data: seq<u8>, base: nat, tail: seq<u8>)
    requires |data| % 16 == 0 && 0 < |tail| <= 16
    ensures Lines(data + tail, base) == Lines(data, base) + Line(base + |data|, tail)
  {
    hide Line;
    if data == [] {
      assert data + tail == tail;
    } else {
      assert (data + tail)[..16] == data[..16] && (data + tail)[16..] == data[16..] + tail;
      LinesSnoc(data[16..], base + 16, tail);
      if |data| == 16 {
        assert data[16..] == [] && data[..16] == data;
      }
      Assoc(Line(base, data[..16]), Lines(data[16..], base + 16), Line(base + |data|, tail));
    }
  }

  lemma CellStep(bytes: seq<u8>, c: u8)
    ensures HexCells(bytes + [c]) == HexCells(bytes) + (Hex2(c) + " " + if (|bytes| + 1) % 8 == 0 then " " else "")
  {
    assert (bytes + [c])[..|bytes|] == bytes;
  }

  lemma {:induction false} CStringEnds(s: string, n: nat)
    requires n < |s| && s[n] == '\0' && forall k | 0 <= k < n :: s[k] != '\0'
    ensures CString(s) == s[..n]
  {
    if n > 0 {
      CStringEnds(s[1..], n - 1);
      assert [s[0]] + s[1..][..n - 1] == s[..n];
    }
  }

  /** An unfinished line after the header and the finished lines. */
  ghost function At(head: string, lines: string, a: nat, cells: string): string {
    head + (lines + (Address(a) + "   " + cells))
  }

  /** The same line finished. */
  ghost function Closed(head: string, lines: string, a: nat, bytes: seq<u8>): string
    requires 0 < |bytes| <= 16
  {
    head + (lines + Line(a, bytes))
  }

  lemma AtMore(head: string, lines: string, a: nat, cells: string, more: string)
    ensures At(head, lines, a, cells) + more == At(head, lines, a, cells + more)
  {
    hide Address;
    Glue(head, lines, Address(a) + "   ", cells, more);
  }

  /** Appending to the last part. */
  lemma Glue(head: string, lines: string, a: string, cells: string, more: string)
    ensures head + (lines + (a + cells)) + more == head + (lines + (a + (cells + more)))
  {
    Assoc(head, lines + (a + cells), more);
    Assoc(lines, a + cells, more);
    Assoc(a, cells, more);
  }

  lemma MoreSpaces(cells: string, k: nat, n: nat)
    ensures cells + Spaces(k) + Spaces(n) == cells + Spaces(k + n)
  {
    Assoc(cells, Spaces(k), Spaces(n));
    assert Spaces(k) + Spaces(n) == Spaces(k + n);
  }

  /** A finished line follows the finished lines. */
  lemma LineEnds(data: seq<u8>, base: nat, start: nat, i: nat)
    requires start < i <= |data| && start % 16 == 0 && i - start <= 16
    ensures Lines(data[..i], base) == Lines(data[..start], base) + Line(base + start, data[start..i])
  {
    hide Lines, Line;
    assert data[..start] + data[start..i] == data[..i];
    LinesSnoc(data[..start], base, data[start..i]);
  }

  /** What the cells are once a byte and its spaces are printed. */
  lemma CellDone(prev: seq<u8>, c: u8)
    ensures var n, cells := |prev| + 1, HexCells(prev) + (Hex2(c) + " ");
            HexCells(prev + [c]) == if n % 8 == 0 then cells + " " else cells
  {
    hide HexCells, Hex2;
    CellStep(prev, c);
    Assoc(HexCells(prev), Hex2(c) + " ", " ");
  }

  lemma FirstOfLine(head: string, lines: string, a: string)
    ensures head + (lines + "") + a == head + (lines + (a + ""))
  {
    assert lines + "" == lines && a + "" == a;
    Assoc(head, lines, a);
  }

  /** The bar and the characters after cells filled up to fifty. */
  lemma LineDone(head: string, lines: string, a: nat, bytes: seq<u8>, k: nat)
    requires 0 < |bytes| <= 16 && |HexCells(bytes)| + k == 50
    ensures At(head, lines, a, HexCells(bytes) + Spaces(k)) + ("|  " + Ascii(bytes) + " \n")
         == Closed(head, lines, a, bytes)
  {
    hide HexCells, Address, Ascii, Spaces;
    Glue(head, lines, Address(a) + "   ", HexCells(bytes) + Spaces(k), "|  " + Ascii(bytes) + " \n");
  }

  lemma WaitingNext(bytes: seq<u8>, c: u8)
    requires |bytes| < 16
    ensures Waiting(bytes)[|bytes| := Shown(c)] == Waiting(bytes + [c])
    ensures Waiting(bytes)[0] == '\0' <==> bytes == []
  {
    hide Shown;
    assert Ascii(bytes + [c]) == Ascii(bytes) + [Shown(c)];
    assert bytes != [] ==> Waiting(bytes)[0] == Shown(bytes[0]);
  }

  lemma WaitingShows(bytes: seq<u8>)
    requires |bytes| <= 16
    ensures CString(Waiting(bytes)) == Ascii(bytes)
    ensures |bytes| < 16 ==> Waiting(bytes)[|bytes| := '\0'] == Waiting(bytes)
  {
    hide CString, Shown;
    CStringEnds(Waiting(bytes), |bytes|);
  }

  lemma NextMod(i: nat)
    ensures InLine(i + 1) == if InLine(i) == 15 then 0 else InLine(i) + 1
    ensures EndsHalf(i) <==> (InLine(i) + 1) % 8 == 0
  {
    var q, r := i / 16, i % 16;
    ModUnique(i + 1, 16, if r == 15 then q + 1 else q, if r == 15 then 0 else r + 1);
    ModUnique(i + 1, 8, 2 * q + (r + 1) / 8, (r + 1) % 8);
  }

  lemma NextSlice(data: seq<u8>, start: nat, i: nat)
    requires start <= i < |data|
    ensures data[start..i + 1] == data[start..i] + [data[i]] && data[i + 1..i + 1] == []
  {
  }

  lemma NextByte(data: seq<u8>, i: nat)
    requires i < |data|
    ensures var line := Prev(data, i) + [data[i]];
            && |line| <= 16
            && InLine(i + 1) == (if |line| == 16 then 0 else |line|)
            && (EndsHalf(i) <==> |line| % 8 == 0)
            && Prev(data, i + 1) == if |line| == 16 then [] else line
  {
    hide InLine, EndsHalf;
    NextMod(i);
    NextSlice(data, Start(i), i);
  }

  lemma TextStart(data: seq<u8>, base: nat, i: nat, head: string)
    requires i < |data|
    ensures var at := At(head, Above(data, base, i), base + Start(i), HexCells(Prev(data, i)));
            at == if Prev(data, i) == [] then head + Text(data, base, i) + (Address(base + i) + "   ")
                  else head + Text(data, base, i)
  {
    hide Above, Address;
    FirstOfLine(head, Above(data, base, i), Address(base + Start(i)) + "   ");
  }

  lemma TextNext(data: seq<u8>, base: nat, i: nat, head: string)
    requires i + 1 < |data| && InLine(i) != 15
    ensures head + Text(data, base, i + 1)
         == At(head, Above(data, base, i), base + Start(i), HexCells(Prev(data, i) + [data[i]]))
  {
    hide Address, HexCells, Lines;
    NextByte(data, i);
  }

  lemma TextLine(data: seq<u8>, base: nat, i: nat, head: string)
    requires i < |data| && (InLine(i) == 15 || i + 1 == |data|)
    ensures head + Text(data, base, i + 1)
         == Closed(head, Above(data, base, i), base + Start(i), Prev(data, i) + [data[i]])
  {
    hide Line, Lines;
    NextSlice(data, Start(i), i);
    LineEnds(data, base, Start(i), i + 1);
    if i + 1 == |data| {
      assert data[..i + 1] == data;
    } else {
      NextMod(i);
      assert Begun(base + (i + 1), Prev(data, i + 1)) == "";
    }
  }

  lemma TextEmpty(data: seq<u8>, base: nat, head: string)
    ensures head + Text(data, base, 0) == head && Prev(data, 0) == []
  {
    assert data[..0] == [] && Lines([], base) == "";
  }

  lemma TextEnd(data: seq<u8>, base: nat)
    ensures Text(data, base, |data|) == Lines(data, base)
  {
  }

  lemma NoneWaiting()
    ensures Waiting([]) == seq(17, _ => '\0')
  {
  }

  /** The spaces after the last byte, and the ones of the missing bytes, fill the cells. */
  lemma CellsFilled(line: seq<u8>, cells: string)
    requires 0 < |line| < 16
    requires cells == if |line| % 8 == 0 then HexCells(line) else HexCells(line) + " "
    ensures var more := (if |line| <= 8 then 1 else 0) + 3 * (16 - |line|);
            && |HexCells(line)| <= 50
            && cells + Spaces(more) == HexCells(line) + Spaces(50 - |HexCells(line)|)
  {
    hide HexCells;
    HexCellsLength(line);
    var more := (if |line| <= 8 then 1 else 0) + 3 * (16 - |line|);
    if |line| % 8 != 0 {
      assert Spaces(1) == " ";
      MoreSpaces(HexCells(line), 1, more);
    }
  }

  lemma FullLine(line: seq<u8>)
    requires |line| == 16
    ensures |HexCells(line)| == 50 && HexCells(line) + Spaces(0) == HexCells(line)
  {
    HexCellsLength(line);
  }

  /** The spaces of a line with n bytes that ends early. */
  method Fill(out: string, n: nat) returns (longer: string)
    requires 0 < n < 16
    ensures longer == out + Spaces((if n <= 8 then 1 else 0) + 3 * (16 - n))
  {
    hide Spaces;
    longer := out;
    ghost var k := if n <= 8 then 1 else 0;
    FewSpaces(out);
    if n <= 8 {
      longer := longer + " ";
    }
    for j := n to 16
      invariant longer == out + Spaces(k + 3 * (j - n))
    {
      ThreeSpaces(out, k + 3 * (j - n));
      longer := longer + "   ";
    }
  }

  lemma FewSpaces(out: string)
    ensures out == out + Spaces(0) && out + " " == out + Spaces(1)
  {
    assert Spaces(1) == " ";
  }

  lemma ThreeSpaces(cells: string, k: nat)
    ensures cells + Spaces(k) + "   " == cells + Spaces(k + 3)
  {
    assert Spaces(3) == "   ";
    MoreSpaces(cells, k, 3);
  }

  /** One byte, after the address when the array says that the line is new. */
  method PutByte(out: string, ascii: array<char>, data: seq<u8>, base: u64, i: nat, ghost head: string)
    returns (longer: string)
    requires i < |data| && ascii.Length == 17
    requires out == head + Text(data, base, i) && ascii[..] == Waiting(Prev(data, i))
    modifies ascii
    ensures var prev, c := Prev(data, i), data[i];
            && longer == At(head, Above(data, base, i), base + Start(i), HexCells(prev) + (Hex2(c) + " "))
            && ascii[..] == Waiting(prev + [c])
  {
    hide HexCells, Address, Hex2, Shown, Text, Above, Prev, Waiting, InLine, Start, At;
    var c := data[i];
    ghost var prev := Prev(data, i);
    WaitingNext(prev, c);
    TextStart(data, base, i, head);
    longer := out;
    if ascii[..][0] == '\0' {
      longer := longer + (Address(base + i) + "   ");
    }
    AtMore(head, Above(data, base, i), base + Start(i), HexCells(prev), Hex2(c) + " ");
    longer := longer + (Hex2(c) + " ");
    ascii[InLine(i)] := Shown(c);
    assert ascii[..] == Waiting(prev + [c]);
  }

  /** After sixteen bytes: the bar, the characters, and an empty array for the next line. */
  method EndFullLine(out: string, ascii: array<char>, ghost head: string, ghost lines: string, ghost a: nat,
                     ghost line: seq<u8>) returns (longer: string)
    requires ascii.Length == 17 && |line| == 16 && ascii[..] == Waiting(line)
    requires out == At(head, lines, a, HexCells(line))
    modifies ascii
    ensures longer == Closed(head, lines, a, line) && ascii[..] == Waiting([])
  {
    hide HexCells, At, Closed, CString, Ascii, Spaces, Waiting;
    FullLine(line);
    WaitingShows(line);
    LineDone(head, lines, a, line, 0);
    longer := out + ("|  " + CString(ascii[..]) + " \n");
    forall k | 0 <= k < 17 {
      ascii[k] := '\0';
    }
    NoneWaiting();
    assert ascii[..] == Waiting([]);
  }

  /** At the end of the data: the NUL, the missing spaces, the bar and the characters. */
  method EndShortLine(out: string, ascii: array<char>, n: nat, ghost head: string, ghost lines: string, ghost a: nat,
                      ghost line: seq<u8>) returns (longer: string)
    requires ascii.Length == 17 && 0 < |line| == n < 16 && ascii[..] == Waiting(line)
    requires out == At(head, lines, a, if n % 8 == 0 then HexCells(line) else HexCells(line) + " ")
    modifies ascii
    ensures longer == Closed(head, lines, a, line)
  {
    hide HexCells, At, Closed, CString, Ascii, Spaces, Waiting;
    WaitingShows(line);
    ascii[n] := '\0';
    assert ascii[..] == Waiting(line);
    ghost var cells := if n % 8 == 0 then HexCells(line) else HexCells(line) + " ";
    CellsFilled(line, cells);
    AtMore(head, lines, a, cells, Spaces((if n <= 8 then 1 else 0) + 3 * (16 - n)));
    longer := Fill(out, n);
    LineDone(head, lines, a, line, 50 - |HexCells(line)|);
    longer := longer + ("|  " + CString(ascii[..]) + " \n");
  }

  /** What follows a byte: a space after half a line, and the end of a line, full or not. */
  method AfterByte(out: string, ascii: array<char>, data: seq<u8>, base: u64, i: nat, ghost head: string)
    returns (longer: string)
    requires i < |data| && ascii.Length == 17 && ascii[..] == Waiting(Prev(data, i) + [data[i]])
    requires out == At(head, Above(data, base, i), base + Start(i), HexCells(Prev(data, i)) + (Hex2(data[i]) + " "))
    modifies ascii
    ensures longer == head + Text(data, base, i + 1)
    ensures i + 1 < |data| ==> ascii[..] == Waiting(Prev(data, i + 1))
  {
    hide HexCells, Lines, Hex2, Text, Above, Prev, Waiting, InLine, Start, EndsHalf, At, Closed;
    ghost var lines, a, line := Above(data, base, i), base + Start(i), Prev(data, i) + [data[i]];
    ghost var cells := HexCells(Prev(data, i)) + (Hex2(data[i]) + " ");
    NextByte(data, i);
    CellDone(Prev(data, i), data[i]);
    longer := out;
    if EndsHalf(i) || i + 1 == |data| {
      AtMore(head, lines, a, cells, " ");
      longer := longer + " ";
      if InLine(i + 1) == 0 {
        TextLine(data, base, i, head);
        longer := EndFullLine(longer, ascii, head, lines, a, line);
      } else if i + 1 == |data| {
        TextLine(data, base, i, head);
        assert cells + " " == if |line| % 8 == 0 then HexCells(line) else HexCells(line) + " ";
        longer := EndShortLine(longer, ascii, InLine(i + 1), head, lines, a, line);
      } else {
        TextNext(data, base, i, head);
      }
    } else {
      TextNext(data, base, i, head);
    }
  }

  /** The text stays one line behind the bytes: the characters wait in an array, which stays inside
      its seventeen places, until the line is full or the data ends. */
  method Hexdump(data: seq<u8>, header: Option<string>, base: u64) returns (out: string)
    ensures out == (if header.Some? then header.value + "\n" else "") + Lines(data, base)
  {
    hide HexCells, Lines, Hex2, Text, Above, Prev, Waiting, InLine, Start, At;
    var ascii := new char[17](_ => '\0');
    NoneWaiting();
    assert ascii[..] == Waiting([]);
    out := "";
    if header.Some? {
      out := header.value + "\n";
    }
    ghost var head := out;
    TextEmpty(data, base, head);
    var i := 0;
    while i < |data|
      invariant i <= |data| && out == head + Text(data, base, i)
      invariant i < |data| ==> ascii[..] == Waiting(Prev(data, i))
    {
      out := PutByte(out, ascii, data, base, i, head);
      out := AfterByte(out, ascii, data, base, i, head);
      i := i + 1;
    }
    TextEnd(data, base);
  }

  // ----- what the layout gives -----

  lemma {:induction false} CellAt(bytes: seq<u8>, k: nat)
    requires k < |bytes|
    ensures 3 * k + k / 8 + 2 <= |HexCells(bytes)|
    ensures HexCells(bytes)[3 * k + k / 8..3 * k + k / 8 + 2] == Hex2(bytes[k])
  {
    hide Hex2;
    var n := |bytes|;
    HexCellsLength(bytes);
    HexCellsLength(bytes[..n - 1]);
    if k < n - 1 {
      CellAt(bytes[..n - 1], k);
    }
  }

  /** Every other character of the cells is a space. */
  lemma {:induction false} CellSpaces(bytes: seq<u8>, c: nat)
    requires c < |HexCells(bytes)| && forall k: nat | k < |bytes| :: c != 3 * k + k / 8 && c != 3 * k + k / 8 + 1
    ensures HexCells(bytes)[c] == ' '
  {
    hide Hex2;
    if bytes != [] {
      var n := |bytes| - 1;
      HexCellsLength(bytes[..n]);
      if c < |HexCells(bytes[..n])| {
        CellSpaces(bytes[..n], c);
      } else {
        assert c != 3 * n + n / 8 && c != 3 * n + n / 8 + 1;
      }
    }
  }

  lemma CellsPadded(bytes: seq<u8>, c: nat)
    requires |bytes| <= 16 && c < 50 && forall k: nat | k < |bytes| :: c != 3 * k + k / 8 && c != 3 * k + k / 8 + 1
    ensures |HexCells(bytes)| <= 50 && (HexCells(bytes) + Spaces(50 - |HexCells(bytes)|))[c] == ' '
  {
    hide HexCells;
    HexCellsLength(bytes);
    if c < |HexCells(bytes)| {
      CellSpaces(bytes, c);
    }
  }

  /** The text of a line: each byte's own character if it is printable in ASCII and a dot otherwise. */
  lemma AsciiText(bytes: seq<u8>)
    ensures |Ascii(bytes)| == |bytes|
    ensures forall k | 0 <= k < |bytes| ::
              Ascii(bytes)[k] == if 0x20 <= bytes[k] < 0x7f then (bytes[k] as int) as char else '.'
  {
  }

  /** The parts of a line by their places, after an address of w characters. */
  lemma LineParts(a: nat, bytes: seq<u8>)
    requires 0 < |bytes| <= 16
    ensures var w, cells, line := |Address(a)|, HexCells(bytes), Line(a, bytes);
            && |cells| <= 50 && |line| == w + 58 + |bytes|
            && line[..w] == Address(a)
            && line[w..w + 3] == "   "
            && line[w + 3..w + 53] == cells + Spaces(50 - |cells|)
            && line[w + 53..w + 56] == "|  "
            && line[w + 56..w + 56 + |bytes|] == Ascii(bytes)
            && line[w + 56 + |bytes|..] == " \n"
  {
    hide Address, HexCells, Shown;
    HexCellsLength(bytes);
    var w, cells, line := |Address(a)|, HexCells(bytes), Line(a, bytes);
    var padded := cells + Spaces(50 - |cells|);
    assert |padded| == 50;
    assert line == Address(a) + "   " + (padded + ("|  " + Ascii(bytes) + " \n"));
  }

  lemma InField(line: string, from: nat, to: nat, field: string, k: nat)
    requires from <= to <= |line| && line[from..to] == field && k < |field|
    ensures from + k < |line| && line[from + k] == field[k]
  {
  }

  /** The two upper case digits of a byte stand there. */
  predicate ByteIn(line: string, at: nat, c: u8) {
    && at + 2 <= |line|
    && line[at] == "0123456789ABCDEF"[c as int / 16] && line[at + 1] == "0123456789ABCDEF"[c as int % 16]
  }

  lemma LineByte(a: nat, bytes: seq<u8>, k: nat)
    requires k < |bytes| <= 16
    ensures ByteIn(Line(a, bytes), |Address(a)| + 3 + 3 * k + k / 8, bytes[k])
  {
    hide Address, HexCells, Hex2, Line, Spaces;
    var w, cells, line := |Address(a)|, HexCells(bytes), Line(a, bytes);
    LineParts(a, bytes);
    var padded := cells + Spaces(50 - |cells|);
    CellAt(bytes, k);
    ByteDigits(bytes[k]);
    var at := 3 * k + k / 8;
    assert padded[at..at + 2] == cells[at..at + 2];
    assert padded[at] == padded[at..at + 2][0] && padded[at + 1] == padded[at..at + 2][1];
    InField(line, w + 3, w + 53, padded, at);
    InField(line, w + 3, w + 53, padded, at + 1);
  }

  lemma LineSpace(a: nat, bytes: seq<u8>, c: nat)
    requires 0 < |bytes| <= 16 && c < 53
    requires forall k: nat | k < |bytes| :: c != 3 + 3 * k + k / 8 && c != 3 + 3 * k + k / 8 + 1
    ensures |Address(a)| + c < |Line(a, bytes)| && Line(a, bytes)[|Address(a)| + c] == ' '
  {
    hide Address, HexCells, Line, Spaces;
    var w, cells, line := |Address(a)|, HexCells(bytes), Line(a, bytes);
    LineParts(a, bytes);
    if c < 3 {
      InField(line, w, w + 3, "   ", c);
    } else {
      forall k: nat | k < |bytes| ensures c - 3 != 3 * k + k / 8 && c - 3 != 3 * k + k / 8 + 1 {
      }
      CellsPadded(bytes, c - 3);
      InField(line, w + 3, w + 53, cells + Spaces(50 - |cells|), c - 3);
    }
  }

  lemma LineText(a: nat, bytes: seq<u8>, k: nat)
    requires k < |bytes| <= 16
    ensures |Address(a)| + 56 + k < |Line(a, bytes)|
    ensures Line(a, bytes)[|Address(a)| + 56 + k] == if 0x20 <= bytes[k] < 0x7f then (bytes[k] as int) as char else '.'
  {
    hide Address, HexCells, Line, Spaces, Ascii;
    var w := |Address(a)|;
    LineParts(a, bytes);
    AsciiText(bytes);
    InField(Line(a, bytes), w + 56, w + 56 + |bytes|, Ascii(bytes), k);
  }

  /** Every character of a line, full or not, after its address: each byte is in its own column, the
      bar is 53 characters after the address, the text is exactly as long as there are bytes, and
      everything else before the bar is a space. */
  lemma LineLayout(a: nat, bytes: seq<u8>)
    requires 0 < |bytes| <= 16
    ensures var w, line := |Address(a)|, Line(a, bytes);
            && |line| == w + 58 + |bytes|
            && line[..w] == Address(a)
            && (forall k: nat | k < |bytes| :: ByteIn(line, w + 3 + 3 * k + k / 8, bytes[k]))
            && (forall c: nat | w <= c < w + 53 && (forall k: nat | k < |bytes| ::
                                  c != w + 3 + 3 * k + k / 8 && c != w + 3 + 3 * k + k / 8 + 1) ::
                  line[c] == ' ')
            && line[w + 53..w + 56] == "|  "
            && (forall k: nat | k < |bytes| ::
                  line[w + 56 + k] == if 0x20 <= bytes[k] < 0x7f then (bytes[k] as int) as char else '.')
            && line[w + 56 + |bytes|..] == " \n"
  {
    hide Address, HexCells, Line, Spaces, Ascii, ByteIn;
    var w, line := |Address(a)|, Line(a, bytes);
    LineParts(a, bytes);
    forall k: nat | k < |bytes| ensures ByteIn(line, w + 3 + 3 * k + k / 8, bytes[k]) {
      LineByte(a, bytes, k);
    }
    forall c: nat | w <= c < w + 53 && (forall k: nat | k < |bytes| ::
                      c != w + 3 + 3 * k + k / 8 && c != w + 3 + 3 * k + k / 8 + 1)
      ensures line[c] == ' '
    {
      forall k: nat | k < |bytes| ensures c - w != 3 + 3 * k + k / 8 && c - w != 3 + 3 * k + k / 8 + 1 {
        assert c != w + 3 + 3 * k + k / 8 && c != w + 3 + 3 * k + k / 8 + 1;
      }
      LineSpace(a, bytes, c - w);
    }
    forall k: nat | k < |bytes|
      ensures line[w + 56 + k] == if 0x20 <= bytes[k] < 0x7f then (bytes[k] as int) as char else '.'
    {
      LineText(a, bytes, k);
    }
  }

  function Newlines(s: string): nat {
    if s == "" then 0 else Newlines(s[1..]) + if s[0] == '\n' then 1 else 0
  }

  lemma {:induction false} NewlinesAppend(s: string, t: string)
    ensures Newlines(s + t) == Newlines(s) + Newlines(t)
  {
    if s == "" {
      assert s + t == t;
    } else {
      assert (s + t)[1..] == s[1..] + t;
      NewlinesAppend(s[1..], t);
    }
  }

  ghost predicate OneLine(s: string) {
    forall k | 0 <= k < |s| :: s[k] != '\n'
  }

  lemma {:induction false} NoNewlines(s: string)
    requires OneLine(s)
    ensures Newlines(s) == 0
  {
    if s != "" {
      assert OneLine(s[1..]) by {
        assert forall k | 0 <= k < |s| - 1 :: s[1..][k] == s[k + 1];
      }
      NoNewlines(s[1..]);
    }
  }

  lemma {:induction false} DigitsOneLine(a: nat, w: nat)
    ensures OneLine(Digits(a, w))
    decreases a + w
  {
    if !(a < 16 && w <= 1) {
      DigitsOneLine(a / 16, if w == 0 then 0 else w - 1);
    }
  }

  lemma {:induction false} HexCellsOneLine(bytes: seq<u8>)
    ensures OneLine(HexCells(bytes))
  {
    if bytes != [] {
      HexCellsOneLine(bytes[..|bytes| - 1]);
    }
  }

  lemma OneNewline(a: nat, bytes: seq<u8>)
    requires 0 < |bytes| <= 16
    ensures Newlines(Line(a, bytes)) == 1
  {
    hide Digits, HexCells, Newlines, Shown;
    DigitsOneLine(a % WORD, 8);
    HexCellsOneLine(bytes);
    HexCellsLength(bytes);
    var body := Address(a) + "   " + (HexCells(bytes) + Spaces(50 - |HexCells(bytes)|) + ("|  " + Ascii(bytes) + " "));
    assert Line(a, bytes) == body + "\n";
    assert OneLine(body);
    NoNewlines(body);
    NewlinesAppend(body, "\n");
    JustNewline();
  }

  lemma JustNewline()
    ensures Newlines("\n") == 1
  {
  }

  /** One line for every sixteen bytes or part of them. */
  lemma {:induction false} LineCount(data: seq<u8>, base: nat)
    ensures Newlines(Lines(data, base)) == (|data| + 15) / 16
    decreases |data|
  {
    hide Line, Newlines;
    if data == [] {
      NoNewlines("");
    } else if |data| <= 16 {
      OneNewline(base, data);
    } else {
      OneNewline(base, data[..16]);
      LineCount(data[16..], base + 16);
      NewlinesAppend(Line(base, data[..16]), Lines(data[16..], base + 16));
    }
  }

  /** Where byte i is in a dump: the full lines before it have 74 characters after their address. */
  function Place(base: nat, i: nat): nat
    decreases i
  {
    if i < 16 then |Address(base)| + 3 + 3 * i + i / 8 else |Address(base)| + 74 + Place(base + 16, i - 16)
  }

  /** The byte whose two digits are there. */
  function ByteAt(dump: string, at: nat): nat {
    if at + 2 <= |dump| then 16 * DigitValue(dump[at]) + DigitValue(dump[at + 1]) else 0
  }

  lemma ByteOfLine(a: nat, bytes: seq<u8>, rest: string, k: nat)
    requires k < |bytes| <= 16
    ensures ByteAt(Line(a, bytes) + rest, Place(a, k)) == bytes[k] as int
  {
    hide Address, Line, DigitValue;
    LineLayout(a, bytes);
    assert ByteIn(Line(a, bytes), |Address(a)| + 3 + 3 * k + k / 8, bytes[k]);
    DigitCharacters(bytes[k] as int / 16);
    DigitCharacters(bytes[k] as int % 16);
  }

  lemma ByteOfRest(first: string, rest: string, at: nat)
    ensures ByteAt(first + rest, |first| + at) == ByteAt(rest, at)
  {
    hide DigitValue;
  }

  /** Every byte is in the dump, once and in order, whatever the base: reading the two digits at its
      place gives it back. */
  lemma {:induction false} DumpReadsBack(data: seq<u8>, base: nat, i: nat)
    requires i < |data|
    ensures ByteAt(Lines(data, base), Place(base, i)) == data[i] as int
    decreases |data|
  {
    hide Line, ByteAt, Address;
    if |data| <= 16 {
      ByteOfLine(base, data, "", i);
      assert Line(base, data) + "" == Line(base, data);
    } else if i < 16 {
      ByteOfLine(base, data[..16], Lines(data[16..], base + 16), i);
    } else {
      DumpReadsBack(data[16..], base + 16, i - 16);
      LineLayout(base, data[..16]);
      ByteOfRest(Line(base, data[..16]), Lines(data[16..], base + 16), Place(base + 16, i - 16));
    }
  }

  /** With addresses below 2^32 the full lines have 82 characters and every line has the same columns. */
  lemma {:induction false} PlaceFixed(base: nat, i: nat)
    requires base + i < 0x1_0000_0000
    ensures Place(base, i) == 82 * (i / 16) + (8 + 3 + 3 * (i % 16) + i % 16 / 8)
    decreases i
  {
    hide Address;
    AddressExact(base);
    SmallBase(base);
    if i >= 16 {
      PlaceFixed(base + 16, i - 16);
      ModUnique(i, 16, (i - 16) / 16 + 1, (i - 16) % 16);
    } else {
      ModUnique(i, 16, 0, i);
    }
  }

  lemma SmallBase(base: nat)
    requires base < 0x1_0000_0000
    ensures base % WORD == base
  {
  }
}
