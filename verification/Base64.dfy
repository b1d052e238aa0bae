/** The broker's Base64 codec against section 4 of RFC 4648. Characters are bytes. */
module Base64 {
  import opened Util

  // ----- the alphabet -----

  /** Table 1 of RFC 4648: the characters of `base64_chars` in order. */
  function Char64(i: bv8): bv8
    requires i < 64
  {
    if i < 26 then 0x41 + i
    else if i < 52 then 0x61 + (i - 26)
    else if i < 62 then 0x30 + (i - 52)
    else if i == 62 then 0x2b
    else 0x2f
  }

  /** `base64_chars.find(c) & 0xff`: a character outside the alphabet gives 0xff. */
  function Find(c: bv8): bv8 {
    if 0x41 <= c <= 0x5a then c - 0x41
    else if 0x61 <= c <= 0x7a then c - 0x61 + 26
    else if 0x30 <= c <= 0x39 then c - 0x30 + 52
    else if c == 0x2b then 62
    else if c == 0x2f then 63
    else 0xff
  }

  /** `isalnum(c) || c == '+' || c == '/'`. */
  predicate IsBase64(c: bv8) {
    0x41 <= c <= 0x5a || 0x61 <= c <= 0x7a || 0x30 <= c <= 0x39 || c == 0x2b || c == 0x2f
  }

  const PAD: bv8 := 0x3d

  lemma FindOfChar(i: bv8)
    requires i < 64
    ensures Find(Char64(i)) == i && IsBase64(Char64(i))
  {
  }

  lemma CharOfFind(c: bv8)
    ensures Find(c) < 64 <==> IsBase64(c)
    ensures IsBase64(c) ==> Char64(Find(c)) == c
    ensures !IsBase64(c) ==> Find(c) == 0xff
  {
  }

  /** The alphabet in its order: `A` to `Z`, `a` to `z`, `0` to `9`, `+` and `/`. */
  lemma Alphabet()
    ensures Char64(0) == 'A' as bv8 && Char64(25) == 'Z' as bv8
    ensures Char64(26) == 'a' as bv8 && Char64(51) == 'z' as bv8
    ensures Char64(52) == '0' as bv8 && Char64(61) == '9' as bv8
    ensures Char64(62) == '+' as bv8 && Char64(63) == '/' as bv8 && PAD == '=' as bv8
    ensures forall i: bv8 | i < 61 && i != 25 && i != 51 :: Char64(i + 1) == Char64(i) + 1
    ensures forall i: bv8 | i < 64 :: Find(Char64(i)) == i
  {
    forall i: bv8 | i < 61 && i != 25 && i != 51 ensures Char64(i + 1) == Char64(i) + 1 {
      NextChar(i);
    }
    forall i: bv8 | i < 64 ensures Find(Char64(i)) == i {
      FindOfChar(i);
    }
  }

  lemma NextChar(i: bv8)
    requires i < 61 && i != 25 && i != 51
    ensures Char64(i + 1) == Char64(i) + 1
  {
  }

  // ----- section 4: three bytes are four groups of six bits -----

  /** A 24-bit group from three bytes, left to right. */
  function Group(a: bv8, b: bv8, c: bv8): bv24 {
    ((a as bv24) << 16) | ((b as bv24) << 8) | (c as bv24)
  }

  /** A 24-bit group from four 6-bit values, left to right. */
  function GroupOfSextets(s: bv8, t: bv8, u: bv8, v: bv8): bv24 {
    ((s as bv24) << 18) | ((t as bv24) << 12) | ((u as bv24) << 6) | (v as bv24)
  }

  /** The k-th group of six bits, left to right. */
  function Cut6(q: bv24, k: nat): (s: bv8)
    requires k < 4
    ensures s < 64
  {
    ((if k == 0 then q >> 18 else if k == 1 then q >> 12 else if k == 2 then q >> 6 else q) & 0x3f) as bv8
  }

  /** The k-th byte, left to right. */
  function Cut8(q: bv24, k: nat): bv8
    requires k < 3
  {
    ((if k == 0 then q >> 16 else if k == 1 then q >> 8 else q) & 0xff) as bv8
  }

  function Chars(q: bv24): (chars: seq<bv8>)
    ensures |chars| == 4
  {
    [Char64(Cut6(q, 0)), Char64(Cut6(q, 1)), Char64(Cut6(q, 2)), Char64(Cut6(q, 3))]
  }

  function Bytes(q: bv24): (bytes: seq<bv8>)
    ensures |bytes| == 3
  {
    [Cut8(q, 0), Cut8(q, 1), Cut8(q, 2)]
  }

  /** The encoding of section 4, with `=` for the missing groups at the end. */
  function Encoded(bytes: seq<bv8>): seq<bv8> {
    if bytes == [] then []
    else if |bytes| == 1 then Chars(Group(bytes[0], 0, 0))[..2] + [PAD, PAD]
    else if |bytes| == 2 then Chars(Group(bytes[0], bytes[1], 0))[..3] + [PAD]
    else Chars(Group(bytes[0], bytes[1], bytes[2])) + Encoded(bytes[3..])
  }

  /** The characters before the first one outside the alphabet. */
  function Prefix(s: seq<bv8>): (p: seq<bv8>)
    ensures p <= s && forall i | 0 <= i < |p| :: IsBase64(p[i])
    ensures |p| < |s| ==> !IsBase64(s[|p|])
  {
    if s == [] || !IsBase64(s[0]) then [] else [s[0]] + Prefix(s[1..])
  }

  /** Whole groups of four give three bytes; two or three characters left over give one or two. */
  function DecodedGroups(p: seq<bv8>): seq<bv8> {
    if |p| < 2 then []
    else if |p| == 2 then Bytes(GroupOfSextets(Find(p[0]), Find(p[1]), 0, 0))[..1]
    else if |p| == 3 then Bytes(GroupOfSextets(Find(p[0]), Find(p[1]), Find(p[2]), 0))[..2]
    else Bytes(GroupOfSextets(Find(p[0]), Find(p[1]), Find(p[2]), Find(p[3]))) + DecodedGroups(p[4..])
  }

  function Decoded(s: seq<bv8>): seq<bv8> {
    DecodedGroups(Prefix(s))
  }

  // ----- laws -----

  lemma {:induction false} EncodedLength(bytes: seq<bv8>)
    ensures |Encoded(bytes)| == (|bytes| + 2) / 3 * 4
    decreases |bytes|
  {
    if |bytes| >= 3 {
      EncodedLength(bytes[3..]);
    }
  }

  lemma {:induction false} DecodedGroupsLength(p: seq<bv8>)
    ensures |DecodedGroups(p)| == 3 * |p| / 4
    decreases |p|
  {
    if |p| >= 4 {
      DecodedGroupsLength(p[4..]);
    }
  }

  /** The number of bytes decoded is floor(3k/4) for an alphabet-only prefix of length k, and they
      depend on that prefix alone. */
  lemma DecodedLength(s: seq<bv8>)
    ensures |Decoded(s)| == 3 * |Prefix(s)| / 4
    ensures Decoded(Prefix(s)) == Decoded(s)
  {
    DecodedGroupsLength(Prefix(s));
    PrefixOfAlphabet(Prefix(s), []);
    assert Prefix(s) + [] == Prefix(s);
  }

  lemma {:induction false} PrefixOfAlphabet(a: seq<bv8>, tail: seq<bv8>)
    requires forall i | 0 <= i < |a| :: IsBase64(a[i])
    ensures Prefix(a + tail) == a + Prefix(tail)
    decreases |a|
  {
    if a == [] {
      assert a + tail == tail;
    } else {
      assert (a + tail)[1..] == a[1..] + tail;
      PrefixOfAlphabet(a[1..], tail);
    }
  }

  /** Four 6-bit values hold the 24 bits they were cut from. */
  lemma SextetsOf(q: bv24)
    ensures GroupOfSextets(Cut6(q, 0), Cut6(q, 1), Cut6(q, 2), Cut6(q, 3)) == q
  {
  }

  lemma UnusedSextets(a: bv8, b: bv8)
    ensures Cut6(Group(a, b, 0), 3) == 0 && Cut6(Group(a, 0, 0), 2) == 0 && Cut6(Group(a, 0, 0), 3) == 0
  {
  }

  lemma BytesOf(a: bv8, b: bv8, c: bv8)
    ensures Bytes(Group(a, b, c)) == [a, b, c]
  {
  }

  lemma CharsAlphabet(q: bv24)
    ensures var chars := Chars(q);
            && (forall i | 0 <= i < 4 :: IsBase64(chars[i]))
            && Find(chars[0]) == Cut6(q, 0) && Find(chars[1]) == Cut6(q, 1)
            && Find(chars[2]) == Cut6(q, 2) && Find(chars[3]) == Cut6(q, 3)
  {
    FindOfChar(Cut6(q, 0));
    FindOfChar(Cut6(q, 1));
    FindOfChar(Cut6(q, 2));
    FindOfChar(Cut6(q, 3));
  }

  lemma PadEnds(chars: seq<bv8>, pads: seq<bv8>)
    requires (forall i | 0 <= i < |chars| :: IsBase64(chars[i])) && pads != [] && pads[0] == PAD
    ensures Prefix(chars + pads) == chars
  {
    PrefixOfAlphabet(chars, pads);
    assert chars + [] == chars;
  }

  /** The characters of a group of one or two bytes, read with zero for the missing ones. */
  lemma FewBytes(a: bv8, b: bv8)
    ensures var c := Chars(Group(a, 0, 0)); GroupOfSextets(Find(c[0]), Find(c[1]), 0, 0) == Group(a, 0, 0)
    ensures var c := Chars(Group(a, b, 0)); GroupOfSextets(Find(c[0]), Find(c[1]), Find(c[2]), 0) == Group(a, b, 0)
  {
    hide Char64, Find, Group, GroupOfSextets, IsBase64, Cut6, Chars;
    CharsAlphabet(Group(a, 0, 0));
    CharsAlphabet(Group(a, b, 0));
    SextetsOf(Group(a, 0, 0));
    SextetsOf(Group(a, b, 0));
    UnusedSextets(a, b);
  }

  lemma DecodedTwo(p: seq<bv8>, q: bv24, a: bv8, b: bv8)
    requires |p| == 2 && GroupOfSextets(Find(p[0]), Find(p[1]), 0, 0) == q && Bytes(q) == [a, b, 0]
    ensures DecodedGroups(p) == [a]
  {
    hide Find, GroupOfSextets, Bytes;
  }

  lemma DecodedThree(p: seq<bv8>, q: bv24, a: bv8, b: bv8)
    requires |p| == 3 && GroupOfSextets(Find(p[0]), Find(p[1]), Find(p[2]), 0) == q && Bytes(q) == [a, b, 0]
    ensures DecodedGroups(p) == [a, b]
  {
    hide Find, GroupOfSextets, Bytes;
  }

  lemma OneByte(a: bv8)
    ensures Decoded(Chars(Group(a, 0, 0))[..2] + [PAD, PAD]) == [a]
  {
    hide Char64, Find, Group, GroupOfSextets, IsBase64, Cut6, Cut8, Bytes, Chars, Prefix, DecodedGroups;
    var chars := Chars(Group(a, 0, 0));
    BytesOf(a, 0, 0);
    FewBytes(a, 0);
    CharsAlphabet(Group(a, 0, 0));
    PadEnds(chars[..2], [PAD, PAD]);
    DecodedTwo(chars[..2], Group(a, 0, 0), a, 0);
  }

  lemma TwoBytes(a: bv8, b: bv8)
    ensures Decoded(Chars(Group(a, b, 0))[..3] + [PAD]) == [a, b]
  {
    hide Char64, Find, Group, GroupOfSextets, IsBase64, Cut6, Cut8, Bytes, Chars, Prefix, DecodedGroups;
    var chars := Chars(Group(a, b, 0));
    BytesOf(a, b, 0);
    FewBytes(a, b);
    CharsAlphabet(Group(a, b, 0));
    PadEnds(chars[..3], [PAD]);
    DecodedThree(chars[..3], Group(a, b, 0), a, b);
  }

  /** A whole group of the alphabet decodes to its three bytes, then the rest. */
  lemma WholeGroup(chars: seq<bv8>, rest: seq<bv8>)
    requires |chars| == 4 && forall i | 0 <= i < 4 :: IsBase64(chars[i])
    ensures Decoded(chars + rest)
         == Bytes(GroupOfSextets(Find(chars[0]), Find(chars[1]), Find(chars[2]), Find(chars[3]))) + Decoded(rest)
  {
    hide Find, GroupOfSextets, IsBase64, Bytes, Prefix;
    PrefixOfAlphabet(chars, rest);
    assert (chars + Prefix(rest))[4..] == Prefix(rest);
  }

  lemma ThreeBytes(a: bv8, b: bv8, c: bv8, rest: seq<bv8>)
    ensures Decoded(Chars(Group(a, b, c)) + rest) == [a, b, c] + Decoded(rest)
  {
    hide Char64, Find, Group, GroupOfSextets, IsBase64, Cut6, Cut8, Bytes, Chars, Prefix, Decoded;
    BytesOf(a, b, c);
    SextetsOf(Group(a, b, c));
    CharsAlphabet(Group(a, b, c));
    WholeGroup(Chars(Group(a, b, c)), rest);
  }

  /** Decoding an encoding gives the bytes back. */
  lemma {:induction false} DecodeEncode(bytes: seq<bv8>)
    ensures Decoded(Encoded(bytes)) == bytes
    decreases |bytes|
  {
    hide Decoded, Chars, Group;
    if bytes == [] {
      NothingDecoded();
    } else if |bytes| == 1 {
      OneByte(bytes[0]);
    } else if |bytes| == 2 {
      TwoBytes(bytes[0], bytes[1]);
    } else {
      ThreeBytes(bytes[0], bytes[1], bytes[2], Encoded(bytes[3..]));
      DecodeEncode(bytes[3..]);
    }
  }

  lemma NothingDecoded()
    ensures Decoded([]) == []
  {
  }

  /** The canonical padded form of section 3.5: whole groups, the last one possibly padded, and the
      bits that encode nothing are zero. */
  predicate CanonicalEnd(s: seq<bv8>)
    requires |s| == 4
  {
    && IsBase64(s[0]) && IsBase64(s[1])
    && (|| (IsBase64(s[2]) && IsBase64(s[3]))
        || (IsBase64(s[2]) && Find(s[2]) & 0x3 == 0 && s[3] == PAD)
        || (Find(s[1]) & 0xf == 0 && s[2] == PAD && s[3] == PAD))
  }

  predicate Canonical(s: seq<bv8>) {
    s == [] ||
    (|s| == 4 && CanonicalEnd(s)) ||
    (|s| > 4 && (forall i | 0 <= i < 4 :: IsBase64(s[i])) && Canonical(s[4..]))
  }

  lemma UnusedBits(a: bv8, b: bv8)
    ensures Cut6(Group(a, 0, 0), 1) & 0xf == 0
    ensures Cut6(Group(a, b, 0), 2) & 0x3 == 0
  {
  }

  /** Every encoding is canonical. */
  lemma {:induction false} EncodedCanonical(bytes: seq<bv8>)
    ensures Canonical(Encoded(bytes))
    decreases |bytes|
  {
    hide Char64, Find, Group, IsBase64, Cut6, Chars;
    if |bytes| == 1 {
      CharsAlphabet(Group(bytes[0], 0, 0));
      UnusedBits(bytes[0], 0);
    } else if |bytes| == 2 {
      CharsAlphabet(Group(bytes[0], bytes[1], 0));
      UnusedBits(bytes[0], bytes[1]);
    } else if |bytes| >= 3 {
      CharsAlphabet(Group(bytes[0], bytes[1], bytes[2]));
      EncodedCanonical(bytes[3..]);
      assert Encoded(bytes)[4..] == Encoded(bytes[3..]);
    }
  }

  lemma SextetsRoundTrip(s: bv8, t: bv8, u: bv8, v: bv8)
    requires s < 64 && t < 64 && u < 64 && v < 64
    ensures var q := GroupOfSextets(s, t, u, v);
            Cut6(q, 0) == s && Cut6(q, 1) == t && Cut6(q, 2) == u && Cut6(q, 3) == v
  {
    assert Cut6(GroupOfSextets(s, t, u, v), 0) == s;
    assert Cut6(GroupOfSextets(s, t, u, v), 1) == t;
    assert Cut6(GroupOfSextets(s, t, u, v), 2) == u;
  }

  lemma GroupOfBytes(q: bv24)
    ensures Group(Cut8(q, 0), Cut8(q, 1), Cut8(q, 2)) == q
  {
  }

  /** If the bits that encode nothing are zero, the bytes that are kept hold the whole group. */
  lemma KeptBytes(s: bv8, t: bv8, u: bv8)
    requires s < 64 && t < 64 && u < 64
    ensures u & 0x3 == 0 ==>
              var q := GroupOfSextets(s, t, u, 0); Group(Cut8(q, 0), Cut8(q, 1), 0) == q
    ensures t & 0xf == 0 ==>
              var q := GroupOfSextets(s, t, 0, 0); Group(Cut8(q, 0), 0, 0) == q
  {
  }

  /** The characters of a group are the ones its sextets were found from. */
  lemma CharsOf(s: bv8, t: bv8, u: bv8, v: bv8)
    requires s < 64 && t < 64 && u < 64 && v < 64
    ensures Chars(GroupOfSextets(s, t, u, v)) == [Char64(s), Char64(t), Char64(u), Char64(v)]
  {
    hide Char64, GroupOfSextets, Cut6;
    SextetsRoundTrip(s, t, u, v);
  }

  lemma CharsFound(p: seq<bv8>, s: bv8, t: bv8, u: bv8, v: bv8)
    requires 2 <= |p| <= 4 && forall i | 0 <= i < |p| :: IsBase64(p[i])
    requires s == Find(p[0]) && t == Find(p[1])
    requires u == if |p| > 2 then Find(p[2]) else 0
    requires v == if |p| > 3 then Find(p[3]) else 0
    ensures s < 64 && t < 64 && u < 64 && v < 64
    ensures Chars(GroupOfSextets(s, t, u, v))[..|p|] == p
  {
    hide Char64, Find, GroupOfSextets, IsBase64, Cut6, Chars;
    CharOfFind(p[0]);
    CharOfFind(p[1]);
    if |p| > 2 {
      CharOfFind(p[2]);
    }
    if |p| > 3 {
      CharOfFind(p[3]);
    }
    CharsOf(s, t, u, v);
  }

  /** Re-encoding the bytes of four characters. */
  lemma FourChars(p: seq<bv8>, q: bv24)
    requires |p| == 4 && forall i | 0 <= i < 4 :: IsBase64(p[i])
    requires q == GroupOfSextets(Find(p[0]), Find(p[1]), Find(p[2]), Find(p[3]))
    ensures Chars(Group(Bytes(q)[0], Bytes(q)[1], Bytes(q)[2])) == p
  {
    hide Char64, Find, Group, GroupOfSextets, IsBase64, Cut6, Cut8, Chars, Bytes;
    CharsFound(p, Find(p[0]), Find(p[1]), Find(p[2]), Find(p[3]));
    WholeGroupOfBytes(q);
  }

  lemma WholeGroupOfBytes(q: bv24)
    ensures Group(Bytes(q)[0], Bytes(q)[1], Bytes(q)[2]) == q
  {
    hide Group, Cut8;
    GroupOfBytes(q);
  }

  lemma KeptGroup(s: bv8, t: bv8, u: bv8)
    requires s < 64 && t < 64 && u < 64
    ensures u & 0x3 == 0 ==> var q := GroupOfSextets(s, t, u, 0); Group(Bytes(q)[0], Bytes(q)[1], 0) == q
    ensures t & 0xf == 0 ==> var q := GroupOfSextets(s, t, 0, 0); Group(Bytes(q)[0], 0, 0) == q
  {
    hide Group, Cut8, GroupOfSextets;
    KeptBytes(s, t, u);
  }

  lemma EncodedOneByte(p: seq<bv8>)
    requires |p| == 2 && IsBase64(p[0]) && IsBase64(p[1]) && Find(p[1]) & 0xf == 0
    ensures Encoded(DecodedGroups(p)) == p + [PAD, PAD]
  {
    hide Char64, Find, Group, GroupOfSextets, IsBase64, Cut6, Cut8, Chars, Bytes;
    CharsFound(p, Find(p[0]), Find(p[1]), 0, 0);
    KeptGroup(Find(p[0]), Find(p[1]), 0);
  }

  lemma EncodedTwoBytes(p: seq<bv8>)
    requires |p| == 3 && IsBase64(p[0]) && IsBase64(p[1]) && IsBase64(p[2]) && Find(p[2]) & 0x3 == 0
    ensures Encoded(DecodedGroups(p)) == p + [PAD]
  {
    hide Char64, Find, Group, GroupOfSextets, IsBase64, Cut6, Cut8, Chars, Bytes;
    CharsFound(p, Find(p[0]), Find(p[1]), Find(p[2]), 0);
    KeptGroup(Find(p[0]), Find(p[1]), Find(p[2]));
  }

  lemma PaddedOne(s: seq<bv8>)
    requires |s| == 4 && IsBase64(s[0]) && IsBase64(s[1]) && IsBase64(s[2])
    requires Find(s[2]) & 0x3 == 0 && s[3] == PAD
    ensures Encoded(Decoded(s)) == s
  {
    hide Find, IsBase64, Prefix, Encoded, DecodedGroups;
    EncodedTwoBytes(s[..3]);
    PadEnds(s[..3], s[3..]);
    assert s[..3] + s[3..] == s && s[3..] == [PAD];
  }

  lemma PaddedTwo(s: seq<bv8>)
    requires |s| == 4 && IsBase64(s[0]) && IsBase64(s[1])
    requires Find(s[1]) & 0xf == 0 && s[2] == PAD && s[3] == PAD
    ensures Encoded(Decoded(s)) == s
  {
    hide Find, IsBase64, Prefix, Encoded, DecodedGroups;
    EncodedOneByte(s[..2]);
    PadEnds(s[..2], s[2..]);
    assert s[..2] + s[2..] == s && s[2..] == [PAD, PAD];
  }

  lemma EncodeAppended(b: seq<bv8>, rest: seq<bv8>)
    requires |b| == 3
    ensures Encoded(b + rest) == Chars(Group(b[0], b[1], b[2])) + Encoded(rest)
  {
    assert (b + rest)[3..] == rest;
  }

  lemma {:induction false} EncodeCanonical(s: seq<bv8>)
    requires Canonical(s)
    ensures Encoded(Decoded(s)) == s
    decreases |s|
  {
    hide Encoded, Decoded, Chars, Group, GroupOfSextets, Find, IsBase64;
    if s == [] {
      NothingDecoded();
      NothingEncoded();
    } else if IsBase64(s[0]) && IsBase64(s[1]) && IsBase64(s[2]) && IsBase64(s[3]) {
      var q := GroupOfSextets(Find(s[0]), Find(s[1]), Find(s[2]), Find(s[3]));
      assert s[..4] + s[4..] == s;
      WholeGroup(s[..4], s[4..]);
      EncodeAppended(Bytes(q), Decoded(s[4..]));
      FourChars(s[..4], q);
      EncodeCanonical(s[4..]);
    } else if IsBase64(s[2]) && Find(s[2]) & 0x3 == 0 && s[3] == PAD {
      PaddedOne(s);
    } else {
      PaddedTwo(s);
    }
  }

  lemma NothingEncoded()
    ensures Encoded([]) == []
  {
  }

  /** The strings that survive decoding and encoding are exactly the canonical ones. */
  lemma CanonicalExact(s: seq<bv8>)
    ensures Encoded(Decoded(s)) == s <==> Canonical(s)
  {
    EncodedCanonical(Decoded(s));
    if Canonical(s) {
      EncodeCanonical(s);
    }
  }

  // ----- the bits -----

  /** The six bits of each character of a group. */
  lemma SextetBits(a: bv8, b: bv8, c: bv8)
    ensures Cut6(Group(a, b, c), 0) == a >> 2
    ensures Cut6(Group(a, b, c), 1) == ((a & 0x03) << 4) | (b >> 4)
    ensures Cut6(Group(a, b, c), 2) == ((b & 0x0f) << 2) | (c >> 6)
    ensures Cut6(Group(a, b, c), 3) == c & 0x3f
  {
  }

  /** Three bytes give four characters, two give three and a pad, one gives two and two pads; each
      character stands for six bits in the order of the bytes. */
  lemma EncodedBits(a: bv8, b: bv8, c: bv8, rest: seq<bv8>)
    ensures a >> 2 < 64 && ((a & 0x03) << 4) | (b >> 4) < 64 && ((b & 0x0f) << 2) | (c >> 6) < 64 && c & 0x3f < 64
    ensures (a & 0x03) << 4 < 64 && (b & 0x0f) << 2 < 64
    ensures Encoded([a, b, c] + rest) == [Char64(a >> 2), Char64(((a & 0x03) << 4) | (b >> 4)),
                                          Char64(((b & 0x0f) << 2) | (c >> 6)), Char64(c & 0x3f)] + Encoded(rest)
    ensures Encoded([a, b]) ==
            [Char64(a >> 2), Char64(((a & 0x03) << 4) | (b >> 4)), Char64((b & 0x0f) << 2), '=' as bv8]
    ensures Encoded([a]) == [Char64(a >> 2), Char64((a & 0x03) << 4), '=' as bv8, '=' as bv8]
    ensures Encoded([]) == []
  {
    hide Char64, Group, Cut6;
    SextetBits(a, b, c);
    SextetBits(a, b, 0);
    SextetBits(a, 0, 0);
    NoBits(a, b);
    assert ([a, b, c] + rest)[3..] == rest;
  }

  lemma NoBits(a: bv8, b: bv8)
    ensures ((a & 0x03) << 4) | (0 >> 4) == (a & 0x03) << 4
    ensures ((b & 0x0f) << 2) | (0 >> 6) == (b & 0x0f) << 2
  {
  }

  /** The three bytes of a group of sextets. */
  lemma ByteBits(s: bv8, t: bv8, u: bv8, v: bv8)
    requires s < 64 && t < 64 && u < 64 && v < 64
    ensures Bytes(GroupOfSextets(s, t, u, v)) == [(s << 2) | (t >> 4), (t << 4) | (u >> 2), (u << 6) | v]
  {
    assert Cut8(GroupOfSextets(s, t, u, v), 0) == (s << 2) | (t >> 4);
    assert Cut8(GroupOfSextets(s, t, u, v), 1) == (t << 4) | (u >> 2);
    assert Cut8(GroupOfSextets(s, t, u, v), 2) == (u << 6) | v;
  }

  /** The bytes of four, three and two characters, whatever the bits that encode nothing are; one
      character gives none, and the first character outside the alphabet ends the string. */
  lemma DecodedBits(p: seq<bv8>, tail: seq<bv8>)
    requires forall i | 0 <= i < |p| :: IsBase64(p[i])
    ensures |p| == 4 ==> var s, t, u, v := Find(p[0]), Find(p[1]), Find(p[2]), Find(p[3]);
              Decoded(p + tail) == [(s << 2) | (t >> 4), (t << 4) | (u >> 2), (u << 6) | v] + Decoded(tail)
    ensures |p| == 3 && (tail == [] || !IsBase64(tail[0])) ==> var s, t, u := Find(p[0]), Find(p[1]), Find(p[2]);
              Decoded(p + tail) == [(s << 2) | (t >> 4), (t << 4) | (u >> 2)]
    ensures |p| == 2 && (tail == [] || !IsBase64(tail[0])) ==>
              Decoded(p + tail) == [(Find(p[0]) << 2) | (Find(p[1]) >> 4)]
    ensures |p| <= 1 && (tail == [] || !IsBase64(tail[0])) ==> Decoded(p + tail) == []
  {
    hide Find, GroupOfSextets, IsBase64, Bytes;
    PrefixOfAlphabet(p, tail);
    forall i | 0 <= i < |p| ensures Find(p[i]) < 64 {
      CharOfFind(p[i]);
    }
    if |p| == 4 {
      WholeGroup(p, tail);
      ByteBits(Find(p[0]), Find(p[1]), Find(p[2]), Find(p[3]));
    } else if |p| == 3 {
      ByteBits(Find(p[0]), Find(p[1]), Find(p[2]), 0);
      assert p + [] == p;
    } else if |p| == 2 {
      TwoBits(Find(p[0]), Find(p[1]));
      assert p + [] == p;
    } else {
      assert p + [] == p;
    }
  }

  lemma TwoBits(s: bv8, t: bv8)
    requires s < 64 && t < 64
    ensures Bytes(GroupOfSextets(s, t, 0, 0))[..1] == [(s << 2) | (t >> 4)]
  {
    hide GroupOfSextets, Bytes;
    ByteBits(s, t, 0, 0);
  }

  /** Examples with every kind of ending, and the two characters at the end of the alphabet. */
  lemma Vectors()
    ensures Encoded([0x66]) == ['Z' as bv8, 'g' as bv8, '=' as bv8, '=' as bv8]
    ensures Encoded([0x66, 0x6f]) == ['Z' as bv8, 'm' as bv8, '8' as bv8, '=' as bv8]
    ensures Encoded([0x66, 0x6f, 0x6f]) == ['Z' as bv8, 'm' as bv8, '9' as bv8, 'v' as bv8]
    ensures Encoded([0xfb, 0xff]) == ['+' as bv8, '/' as bv8, '8' as bv8, '=' as bv8]
    ensures Decoded(['+' as bv8, '/' as bv8, '8' as bv8, '=' as bv8]) == [0xfb, 0xff]
  {
    hide Encoded, Decoded;
    EncodedThree(0x66, 0x6f, 0x6f);
    EncodedBits(0xfb, 0xff, 0, []);
    EncodedBits(0x66, 0x6f, 0, []);
    DecodeEncode([0xfb, 0xff]);
  }

  lemma EncodedThree(a: bv8, b: bv8, c: bv8)
    ensures ((a & 0x03) << 4) | (b >> 4) < 64 && ((b & 0x0f) << 2) | (c >> 6) < 64
    ensures Encoded([a, b, c]) == [Char64(a >> 2), Char64(((a & 0x03) << 4) | (b >> 4)),
                                   Char64(((b & 0x0f) << 2) | (c >> 6)), Char64(c & 0x3f)]
  {
    hide Encoded, Char64;
    EncodedBits(a, b, c, []);
    assert [a, b, c] + [] == [a, b, c];
  }

  // ----- the codec -----

  // The encoder's masks and shifts.

  function Sextet0(a: bv8): bv8 {
    (a & 0xfc) >> 2
  }

  function Sextet1(a: bv8, b: bv8): bv8 {
    ((a & 0x03) << 4) + ((b & 0xf0) >> 4)
  }

  function Sextet2(b: bv8, c: bv8): bv8 {
    ((b & 0x0f) << 2) + ((c & 0xc0) >> 6)
  }

  function Sextet3(c: bv8): bv8 {
    c & 0x3f
  }

  /** They cut the 24-bit group into its four sextets. */
  lemma EncodeMasks(a: bv8, b: bv8, c: bv8)
    ensures Sextet0(a) == Cut6(Group(a, b, c), 0)
    ensures Sextet1(a, b) == Cut6(Group(a, b, c), 1)
    ensures Sextet2(b, c) == Cut6(Group(a, b, c), 2)
    ensures Sextet3(c) == Cut6(Group(a, b, c), 3)
  {
  }

  method Sextets(three: array<bv8>, four: array<bv8>)
    requires three.Length == 3 && four.Length == 4 && three != four
    modifies four
    ensures var q := Group(three[0], three[1], three[2]);
            && four[0] == Cut6(q, 0) && four[1] == Cut6(q, 1) && four[2] == Cut6(q, 2) && four[3] == Cut6(q, 3)
  {
    hide Group, Cut6, Sextet0, Sextet1, Sextet2, Sextet3;
    EncodeMasks(three[0], three[1], three[2]);
    four[0] := Sextet0(three[0]);
    four[1] := Sextet1(three[0], three[1]);
    four[2] := Sextet2(three[1], three[2]);
    four[3] := Sextet3(three[2]);
  }

  /** Appends the characters of the first n sextets of a group. */
  method AppendChars(ret: seq<bv8>, three: array<bv8>, four: array<bv8>, n: nat) returns (longer: seq<bv8>)
    requires three.Length == 3 && four.Length == 4 && three != four && n <= 4
    modifies four
    ensures longer == ret + Chars(Group(three[0], three[1], three[2]))[..n]
  {
    hide Group, Cut6, Char64;
    Sextets(three, four);
    longer := ret;
    ghost var chars := Chars(Group(three[0], three[1], three[2]));
    for j := 0 to n
      invariant longer == ret + chars[..j]
    {
      longer := longer + [Char64(four[j])];
      assert chars[..j + 1] == chars[..j] + [chars[j]];
    }
  }

  /** Keeps the next element beside those that are already waiting. */
  method Store(kept: array<bv8>, i: nat, c: bv8, ghost s: seq<bv8>, ghost at: nat)
    requires i < kept.Length && i <= at < |s| && c == s[at] && kept[..i] == s[at - i..at]
    modifies kept
    ensures kept[..i + 1] == s[at - i..at + 1]
  {
    ghost var was := kept[..i];
    kept[i] := c;
    assert kept[..i] == was;
    assert kept[..i + 1] == was + [c] && s[at - i..at + 1] == s[at - i..at] + [s[at]];
  }

  /** Encodes three waiting bytes. */
  method EncodeGroup(ret: seq<bv8>, three: array<bv8>, four: array<bv8>, ghost pending: seq<bv8>)
    returns (longer: seq<bv8>)
    requires three.Length == 3 && four.Length == 4 && three != four
    requires |pending| >= 3 && three[..] == pending[..3]
    modifies four
    ensures longer + Encoded(pending[3..]) == ret + Encoded(pending)
  {
    hide Group, Chars, Encoded;
    assert forall k | 0 <= k < 3 :: three[..][k] == pending[..3][k];
    longer := AppendChars(ret, three, four, 4);
    EncodedWhole(ret, pending);
  }

  /** Encodes the one or two bytes that wait at the end. */
  method EncodeRest(ret: seq<bv8>, three: array<bv8>, four: array<bv8>, n: nat, ghost pending: seq<bv8>)
    returns (longer: seq<bv8>)
    requires three.Length == 3 && four.Length == 4 && three != four
    requires 0 < n < 3 && |pending| == n && three[..n] == pending
    modifies three, four
    ensures longer == ret + Encoded(pending)
  {
    hide Group, Chars, Encoded, Pads;
    for j := n to 3
      invariant three[..n] == pending
      invariant forall k | n <= k < j :: three[k] == 0
    {
      three[j] := 0;
    }
    ghost var a, b, c := three[0], three[1], three[2];
    assert a == pending[0] && (n == 2 ==> b == pending[1]);
    longer := AppendChars(ret, three, four, n + 1);
    ghost var chars := longer;
    NoPads(chars);
    var i := n;
    while i < 3
      invariant n <= i <= 3 && longer == chars + Pads(i - n)
    {
      PadsLast(i - n);
      Assoc(chars, Pads(i - n), [PAD]);
      i := i + 1;
      longer := longer + [PAD];
    }
    EncodedTail(pending, a, b, c);
    Assoc(ret, Chars(Group(a, b, c))[..n + 1], Pads(3 - n));
  }

  /** One more byte waits, or the group it completes is encoded. */
  method EncodeByte(ret: seq<bv8>, three: array<bv8>, four: array<bv8>, i: nat, c: bv8,
                    ghost input: seq<bv8>, ghost at: nat) returns (longer: seq<bv8>, n: nat)
    requires three.Length == 3 && four.Length == 4 && three != four
    requires i < 3 && i <= at < |input| && c == input[at] && three[..i] == input[at - i..at]
    modifies three, four
    ensures n < 3 && n <= at + 1 && three[..n] == input[at + 1 - n..at + 1]
    ensures longer + Encoded(input[at + 1 - n..]) == ret + Encoded(input[at - i..])
  {
    hide Encoded;
    Store(three, i, c, input, at);
    longer, n := ret, i + 1;
    if n == 3 {
      ThirdEnds(three[..], input, at + 1);
      longer := EncodeGroup(ret, three, four, input[at - 2..]);
      n := 0;
    }
  }

  /** Whatever still waits when the bytes are over. */
  method EncodeEnd(ret: seq<bv8>, three: array<bv8>, four: array<bv8>, i: nat, ghost input: seq<bv8>)
    returns (longer: seq<bv8>)
    requires three.Length == 3 && four.Length == 4 && three != four
    requires i < 3 && i <= |input| && three[..i] == input[|input| - i..|input|]
    modifies three, four
    ensures longer == ret + Encoded(input[|input| - i..])
  {
    hide Encoded;
    longer := ret;
    assert input[|input| - i..|input|] == input[|input| - i..];
    if i != 0 {
      longer := EncodeRest(ret, three, four, i, input[|input| - i..]);
    } else {
      NothingEncoded();
      assert input[|input| - i..] == [] && ret + [] == ret;
    }
  }

  /** One byte at a time: a group is encoded as soon as it has three bytes. */
  method Encode(input: seq<bv8>) returns (ret: seq<bv8>)
    ensures ret == Encoded(input)
  {
    hide Encoded;
    ret := [];
    var three, four := new bv8[3], new bv8[4];
    var i, at := 0, 0;
    FromStart(input, Encoded(input));
    while at < |input|
      invariant 0 <= i < 3 && i <= at <= |input|
      invariant three[..i] == input[at - i..at]
      invariant ret + Encoded(input[at - i..]) == Encoded(input)
    {
      ret, i := EncodeByte(ret, three, four, i, input[at], input, at);
      at := at + 1;
    }
    ret := EncodeEnd(ret, three, four, i, input);
  }

  lemma FromStart(s: seq<bv8>, all: seq<bv8>)
    ensures s[0..] == s && s[0..0] == [] && [] + all == all
  {
  }

  lemma ThirdEnds(three: seq<bv8>, input: seq<bv8>, at: nat)
    requires |three| == 3 <= at <= |input| && three == input[at - 3..at]
    ensures var pending := input[at - 3..]; three == pending[..3] && pending[3..] == input[at..]
  {
  }

  lemma EncodedWhole(before: seq<bv8>, pending: seq<bv8>)
    requires |pending| >= 3
    ensures before + Encoded(pending)
         == before + Chars(Group(pending[0], pending[1], pending[2]))[..4] + Encoded(pending[3..])
  {
    hide Chars, Group;
    var chars := Chars(Group(pending[0], pending[1], pending[2]));
    assert chars[..4] == chars;
    Assoc(before, chars, Encoded(pending[3..]));
  }

  lemma EncodedTail(pending: seq<bv8>, a: bv8, b: bv8, c: bv8)
    requires 0 < |pending| < 3 && a == pending[0] && b == (if |pending| > 1 then pending[1] else 0) && c == 0
    ensures Encoded(pending) == Chars(Group(a, b, c))[..|pending| + 1] + Pads(3 - |pending|)
  {
    hide Chars, Group;
    assert Pads(1) == [PAD] + Pads(0) && Pads(2) == [PAD] + Pads(1);
  }

  ghost function Pads(n: nat): seq<bv8> {
    if n == 0 then [] else [PAD] + Pads(n - 1)
  }

  lemma NoPads(chars: seq<bv8>)
    ensures chars + Pads(0) == chars
  {
  }

  lemma {:induction false} PadsLast(n: nat)
    ensures Pads(n) + [PAD] == Pads(n + 1)
  {
    if n > 0 {
      PadsLast(n - 1);
      assert [PAD] + Pads(n - 1) + [PAD] == [PAD] + (Pads(n - 1) + [PAD]);
    }
  }

  // The decoder's masks and shifts.

  function Byte0(s: bv8, t: bv8): bv8 {
    (s << 2) + ((t & 0x30) >> 4)
  }

  function Byte1(t: bv8, u: bv8): bv8 {
    ((t & 0xf) << 4) + ((u & 0x3c) >> 2)
  }

  function Byte2(u: bv8, v: bv8): bv8 {
    ((u & 0x3) << 6) + v
  }

  /** They join sextets into the bytes of the 24-bit group; the first byte needs two of them and
      the second a third. */
  lemma DecodeMasks(s: bv8, t: bv8, u: bv8, v: bv8)
    requires s < 64 && t < 64 && u < 64 && v < 64
    ensures Byte0(s, t) == Cut8(GroupOfSextets(s, t, u, v), 0)
    ensures Byte1(t, u) == Cut8(GroupOfSextets(s, t, u, v), 1)
    ensures Byte2(u, v) == Cut8(GroupOfSextets(s, t, u, v), 2)
  {
  }

  /** Of the bytes joined from four lookups, the first is right if the first two characters are in
      the alphabet, the second if the third is too, and all of them if all four are. */
  predicate Joined(three: seq<bv8>, s: bv8, t: bv8, u: bv8, v: bv8) {
    && |three| == 3
    && (s < 64 && t < 64 ==> three[0] == Bytes(GroupOfSextets(s, t, 0, 0))[0])
    && (s < 64 && t < 64 && u < 64 ==> three[..2] == Bytes(GroupOfSextets(s, t, u, 0))[..2])
    && (s < 64 && t < 64 && u < 64 && v < 64 ==> three == Bytes(GroupOfSextets(s, t, u, v)))
  }

  lemma DecodedBytes(s: bv8, t: bv8, u: bv8, v: bv8)
    ensures Joined([Byte0(s, t), Byte1(t, u), Byte2(u, v)], s, t, u, v)
  {
    hide Byte0, Byte1, Byte2, GroupOfSextets, Cut8;
    if s < 64 && t < 64 {
      DecodeMasks(s, t, 0, 0);
      if u < 64 {
        DecodeMasks(s, t, u, 0);
        if v < 64 {
          DecodeMasks(s, t, u, v);
        }
      }
    }
  }

  /** Looks up the four characters in place and joins them into three bytes. */
  method Join(four: array<bv8>, three: array<bv8>)
    requires four.Length == 4 && three.Length == 3 && three != four
    modifies four, three
    ensures Joined(three[..], Find(old(four[0])), Find(old(four[1])), Find(old(four[2])), Find(old(four[3])))
  {
    hide Find, Joined, Byte0, Byte1, Byte2;
    ghost var s, t, u, v := Find(four[0]), Find(four[1]), Find(four[2]), Find(four[3]);
    DecodedBytes(s, t, u, v);
    for j := 0 to 4
      modifies four
      invariant forall k | 0 <= k < j :: four[k] == Find(old(four[k]))
      invariant forall k | j <= k < 4 :: four[k] == old(four[k])
    {
      four[j] := Find(four[j]);
    }
    three[0] := Byte0(four[0], four[1]);
    three[1] := Byte1(four[1], four[2]);
    three[2] := Byte2(four[2], four[3]);
    assert three[..] == [Byte0(s, t), Byte1(t, u), Byte2(u, v)];
  }

  /** Appends the first n bytes of a group. */
  method AppendBytes(ret: seq<bv8>, three: array<bv8>, n: nat) returns (longer: seq<bv8>)
    requires three.Length == 3 && n <= 3
    ensures longer == ret + three[..n]
  {
    longer := ret;
    for j := 0 to n
      invariant longer == ret + three[..j]
    {
      longer := longer + [three[j]];
      assert three[..j + 1] == three[..j] + [three[j]];
    }
  }

  /** Decodes four waiting characters. */
  method DecodeGroup(ret: seq<bv8>, four: array<bv8>, three: array<bv8>, ghost pending: seq<bv8>)
    returns (longer: seq<bv8>)
    requires four.Length == 4 && three.Length == 3 && three != four
    requires |pending| >= 4 && (forall k | 0 <= k < |pending| :: IsBase64(pending[k])) && four[..] == pending[..4]
    modifies four, three
    ensures longer + DecodedGroups(pending[4..]) == ret + DecodedGroups(pending)
  {
    hide Find, Joined, DecodedGroups, IsBase64;
    assert forall k | 0 <= k < 4 :: four[..][k] == pending[..4][k];
    Join(four, three);
    DecodedWhole(pending, three[..]);
    longer := AppendBytes(ret, three, 3);
    assert three[..3] == three[..];
    Assoc(ret, three[..], DecodedGroups(pending[4..]));
  }

  /** Decodes what waits at the end. */
  method DecodeRest(ret: seq<bv8>, four: array<bv8>, three: array<bv8>, i: nat, ghost pending: seq<bv8>)
    returns (longer: seq<bv8>)
    requires four.Length == 4 && three.Length == 3 && three != four && 0 < i < 4
    requires |pending| == i && (forall k | 0 <= k < i :: IsBase64(pending[k])) && four[..i] == pending
    modifies four, three
    ensures longer == ret + DecodedGroups(pending)
  {
    hide Find, Joined, DecodedGroups, IsBase64;
    for j := i to 4
      invariant four[..i] == pending
    {
      four[j] := 0;
    }
    assert forall k | 0 <= k < i :: four[k] == pending[k];
    Join(four, three);
    DecodedTail(pending, three[..]);
    longer := AppendBytes(ret, three, i - 1);
    assert three[..i - 1] == three[..][..i - 1];
  }

  /** One more character waits, or the group it completes is decoded. */
  method DecodeChar(ret: seq<bv8>, four: array<bv8>, three: array<bv8>, i: nat, c: bv8,
                    ghost p: seq<bv8>, ghost at: nat) returns (longer: seq<bv8>, n: nat)
    requires four.Length == 4 && three.Length == 3 && three != four
    requires i < 4 && i <= at < |p| && c == p[at] && four[..i] == p[at - i..at]
    requires forall k | 0 <= k < |p| :: IsBase64(p[k])
    modifies four, three
    ensures n < 4 && n <= at + 1 && four[..n] == p[at + 1 - n..at + 1]
    ensures longer + DecodedGroups(p[at + 1 - n..]) == ret + DecodedGroups(p[at - i..])
  {
    hide DecodedGroups, IsBase64;
    Store(four, i, c, p, at);
    longer, n := ret, i + 1;
    if n == 4 {
      FourthEnds(four[..], p, at + 1);
      longer := DecodeGroup(ret, four, three, p[at - 3..]);
      n := 0;
    }
  }

  /** Whatever still waits when the characters are over. */
  method DecodeEnd(ret: seq<bv8>, four: array<bv8>, three: array<bv8>, i: nat, ghost p: seq<bv8>)
    returns (longer: seq<bv8>)
    requires four.Length == 4 && three.Length == 3 && three != four
    requires i < 4 && i <= |p| && four[..i] == p[|p| - i..|p|]
    requires forall k | 0 <= k < |p| :: IsBase64(p[k])
    modifies four, three
    ensures longer == ret + DecodedGroups(p[|p| - i..])
  {
    hide DecodedGroups, IsBase64;
    longer := ret;
    assert p[|p| - i..|p|] == p[|p| - i..];
    if i != 0 {
      longer := DecodeRest(ret, four, three, i, p[|p| - i..]);
    } else {
      NothingInGroups();
      assert p[|p| - i..] == [] && ret + [] == ret;
    }
  }

  /** Stops at the first character outside the alphabet; `=` is one of them. */
  method Decode(encoded: seq<bv8>) returns (ret: seq<bv8>)
    ensures ret == Decoded(encoded)
  {
    hide Find, DecodedGroups, Prefix, IsBase64;
    ret := [];
    var four, three := new bv8[4], new bv8[3];
    var i, at := 0, 0;
    ghost var p := Prefix(encoded);
    FromStart(p, DecodedGroups(p));
    PadOutside();
    while at < |encoded| && encoded[at] != PAD && IsBase64(encoded[at])
      invariant 0 <= i < 4 && i <= at <= |p|
      invariant four[..i] == p[at - i..at]
      invariant ret + DecodedGroups(p[at - i..]) == DecodedGroups(p)
    {
      ret, i := DecodeChar(ret, four, three, i, encoded[at], p, at);
      at := at + 1;
    }
    assert at == |p|;
    ret := DecodeEnd(ret, four, three, i, p);
  }

  lemma PadOutside()
    ensures !IsBase64(PAD)
  {
  }

  lemma NothingInGroups()
    ensures DecodedGroups([]) == []
  {
  }

  lemma FourthEnds(four: seq<bv8>, p: seq<bv8>, at: nat)
    requires |four| == 4 <= at <= |p| && four == p[at - 4..at]
    ensures var pending := p[at - 4..];
four == pending[..4] && pending[4..] == p[at..]
  {
  }

  lemma DecodedWhole(p: seq<bv8>, three: seq<bv8>)
    requires |p| >= 4 && forall i | 0 <= i < |p| :: IsBase64(p[i])
    requires Joined(three, Find(p[0]), Find(p[1]), Find(p[2]), Find(p[3]))
    ensures DecodedGroups(p) == three + DecodedGroups(p[4..])
  {
    hide Find, IsBase64, GroupOfSextets, Bytes;
    CharOfFind(p[0]);
    CharOfFind(p[1]);
    CharOfFind(p[2]);
    CharOfFind(p[3]);
  }

  /** What is left over gives one byte less than its characters, whatever the missing ones were
      looked up as. */
  lemma DecodedTail(p: seq<bv8>, three: seq<bv8>)
    requires 0 < |p| < 4 && forall i | 0 <= i < |p| :: IsBase64(p[i])
    requires exists t, u, v ::
               Joined(three, Find(p[0]), t, u, v) && (|p| > 1 ==> t == Find(p[1])) && (|p| > 2 ==> u == Find(p[2]))
    ensures DecodedGroups(p) == three[..|p| - 1]
  {
    hide Find, IsBase64, GroupOfSextets, Bytes;
    CharOfFind(p[0]);
    if |p| > 1 {
      CharOfFind(p[1]);
    }
    if |p| > 2 {
      CharOfFind(p[2]);
    }
  }
}
