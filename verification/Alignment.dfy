/** Masks on 64-bit words, and the alignment of addresses and sizes. */
module Alignment {
  import opened Util

  const WORD: nat := 0x1_0000_0000_0000_0000

  /** Bitwise and. */
  function And(x: nat, y: nat): (z: nat)
    ensures z <= x && z <= y
  {
    if x == 0 || y == 0 then 0 else (if x % 2 == 1 && y % 2 == 1 then 1 else 0) + 2 * And(x / 2, y / 2)
  }

  /** Bitwise complement of a word. */
  function Not(x: u64): u64 {
    WORD - 1 - x
  }

  /** The word before, wrapping around at zero. */
  function Before(x: u64): u64 {
    (x - 1) % WORD
  }

  predicate IsAligned(value: u64, bound: u64) {
    And(value, Before(bound)) == 0
  }

  function AlignValue(value: u64, bound: u64): u64 {
    if IsAligned(value, bound) then value else (And(value, Not(Before(bound))) + bound) % WORD
  }

  // ----- masks -----

  lemma MulGrows(m: int, d: int)
    requires m > 0
    ensures d >= 1 ==> m * d >= m
    ensures d <= -1 ==> m * d <= -m
  {
  }

  lemma PowersStart()
    ensures Pow2(0) == 1
  {
  }

  lemma PowersDouble(k: nat)
    ensures Pow2(k + 1) == 2 * Pow2(k)
  {
  }

  lemma ModUnique(x: int, m: nat, q: int, r: int)
    requires m > 0 && x == m * q + r && 0 <= r < m
    ensures x % m == r && x / m == q
  {
    var d := q - x / m;
    assert x == m * (x / m) + x % m;
    assert m * d == x % m - r;
    MulGrows(m, d);
  }

  lemma ModDouble(x: nat, p: nat)
    requires p > 0
    ensures x % (2 * p) == x % 2 + 2 * (x / 2 % p)
  {
    var q, r := x / 2 / p, x / 2 % p;
    assert x / 2 == p * q + r;
    assert x == (2 * p) * q + (x % 2 + 2 * r);
    ModUnique(x, 2 * p, q, x % 2 + 2 * r);
  }

  lemma AndHalves(x: nat, y: nat)
    ensures And(x, y) == (if x % 2 == 1 && y % 2 == 1 then 1 else 0) + 2 * And(x / 2, y / 2)
  {
  }

  /** Bit k of a number. */
  ghost function Bit(x: nat, k: nat): nat {
    if k == 0 then x % 2 else Bit(x / 2, k - 1)
  }

  /** A bit of the mask is set exactly when it is set in both. */
  lemma {:induction false} AndBits(x: nat, y: nat, k: nat)
    ensures Bit(And(x, y), k) == if Bit(x, k) == 1 && Bit(y, k) == 1 then 1 else 0
    decreases k
  {
    hide And;
    AndHalves(x, y);
    if k > 0 {
      AndBits(x / 2, y / 2, k - 1);
    }
  }

  /** Bit k counts 2^k. */
  lemma {:induction false} BitIs(x: nat, k: nat)
    ensures Bit(x, k) == x / Pow2(k) % 2
  {
    hide Pow2;
    if k == 0 {
      PowersStart();
    } else {
      BitIs(x / 2, k - 1);
      PowersDouble(k - 1);
      HalfFirst(x, Pow2(k - 1));
    }
  }

  lemma HalfFirst(x: nat, p: nat)
    requires p > 0
    ensures x / 2 / p == x / (2 * p)
  {
    var q, r := x / 2 / p, x / 2 % p;
    assert x / 2 == p * q + r;
    assert x == (2 * p) * q + (x % 2 + 2 * r);
    ModUnique(x, 2 * p, q, x % 2 + 2 * r);
  }

  /** The complement has the other bits of the word, and the word before zero is the last one. */
  lemma {:induction false} ComplementBits(x: nat, n: nat, k: nat)
    requires k < n && x < Pow2(n)
    ensures Bit(Pow2(n) - 1 - x, k) == 1 - Bit(x, k)
  {
    hide Pow2;
    PowersDouble(n - 1);
    ComplementHalves(x, Pow2(n - 1));
    if k > 0 {
      ComplementBits(x / 2, n - 1, k - 1);
    }
  }

  /** A mask with its lowest bit set keeps the lowest bit. */
  lemma OddMask(x: nat, p: nat)
    requires p > 0
    ensures And(x, 2 * p - 1) == x % 2 + 2 * And(x / 2, p - 1)
  {
    hide And;
    AndHalves(x, 2 * p - 1);
    ModUnique(2 * p - 1, 2, p - 1, 1);
  }

  lemma NothingMasked(x: nat)
    ensures And(x, 0) == 0
  {
  }

  /** A mask of the low bits keeps the remainder. */
  lemma {:induction false} MaskIsRemainder(x: nat, k: nat)
    ensures And(x, Pow2(k) - 1) == x % Pow2(k)
  {
    hide And, Pow2;
    if k == 0 {
      PowersStart();
      ModUnique(x, 1, x, 0);
      NothingMasked(x);
    } else {
      MaskIsRemainder(x / 2, k - 1);
      PowersDouble(k - 1);
      ModDouble(x, Pow2(k - 1));
      OddMask(x, Pow2(k - 1));
    }
  }

  lemma ComplementHalves(y: nat, p: nat)
    requires y < 2 * p
    ensures var z := 2 * p - 1 - y; y / 2 < p && z / 2 == p - 1 - y / 2 && z % 2 == 1 - y % 2
  {
    ModUnique(2 * p - 1 - y, 2, p - 1 - y / 2, 1 - y % 2);
  }

  /** Of two masks that differ in the lowest bit, one keeps that bit. */
  lemma AndComplement(x: nat, y: nat, z: nat)
    requires z % 2 == 1 - y % 2
    ensures And(x, y) + And(x, z) == x % 2 + 2 * (And(x / 2, y / 2) + And(x / 2, z / 2))
  {
    hide And;
    AndHalves(x, y);
    AndHalves(x, z);
  }

  lemma SplitStep(x: nat, y: nat, p: nat)
    requires x < 2 * p && y < 2 * p && And(x / 2, y / 2) + And(x / 2, p - 1 - y / 2) == x / 2
    ensures And(x, y) + And(x, 2 * p - 1 - y) == x
  {
    hide And;
    ComplementHalves(y, p);
    AndComplement(x, y, 2 * p - 1 - y);
  }

  lemma HalfBelow(x: nat, p: nat)
    requires x < 2 * p
    ensures x / 2 < p
  {
  }

  /** A mask and its complement split a word in two. */
  lemma {:induction false} MasksSplit(x: nat, y: nat, n: nat)
    requires x < Pow2(n) && y < Pow2(n)
    ensures And(x, y) + And(x, Pow2(n) - 1 - y) == x
  {
    hide And, Pow2;
    if n == 0 {
      PowersStart();
      AndNothing(0);
    } else {
      PowersDouble(n - 1);
      var p := Pow2(n - 1);
      HalfBelow(x, p);
      HalfBelow(y, p);
      MasksSplit(x / 2, y / 2, n - 1);
      SplitStep(x, y, p);
      assert 2 * p - 1 - y == Pow2(n) - 1 - y;
    }
  }

  lemma {:induction false} Pow2Add(a: nat, b: nat)
    ensures Pow2(a + b) == Pow2(a) * Pow2(b)
  {
    if a > 0 {
      Pow2Add(a - 1, b);
    }
  }

  lemma Squared(k: nat)
    ensures Pow2(2 * k) == Pow2(k) * Pow2(k)
  {
    hide Pow2;
    assert 2 * k == k + k;
    Pow2Add(k, k);
  }

  lemma Word()
    ensures Pow2(64) == WORD
  {
    SixteenBits();
    hide Pow2;
    Squared(16);
    Squared(32);
  }

  lemma SixteenBits()
    ensures Pow2(16) == 0x1_0000
  {
    assert Pow2(4) == 16;
    hide Pow2;
    Squared(4);
    Squared(8);
  }

  /** The word operations bit by bit; the word before zero has every bit. */
  lemma WordBits(x: u64, k: nat)
    requires k < 64
    ensures Bit(Not(x), k) == 1 - Bit(x, k)
    ensures Before(x) == if x == 0 then 0xffff_ffff_ffff_ffff else x - 1
  {
    hide Pow2, Bit;
    Word();
    ComplementBits(x, 64, k);
  }

  // ----- alignment to a power of two -----

  /** The mask test is divisibility, and the other mask rounds down. */
  lemma AlignedIsMultiple(value: u64, k: nat)
    requires k < 64
    ensures Pow2(k) < WORD && WORD % Pow2(k) == 0
    ensures IsAligned(value, Pow2(k)) <==> value % Pow2(k) == 0
    ensures And(value, Not(Before(Pow2(k)))) == value - value % Pow2(k)
  {
    hide And, Pow2, Before, Not;
    Word();
    PowersDivide(k);
    BeforeIsMask(Pow2(k));
    MaskIsRemainder(value, k);
    MasksSplit(value, Pow2(k) - 1, 64);
  }

  lemma BeforeIsMask(p: u64)
    requires p > 0
    ensures Before(p) == p - 1 && Not(Before(p)) == WORD - 1 - (p - 1)
  {
  }

  lemma PowersDivide(k: nat)
    requires k < 64
    ensures Pow2(k) < WORD && WORD % Pow2(k) == 0
  {
    hide Pow2;
    Word();
    Pow2Add(k, 64 - k);
    ModUnique(WORD, Pow2(k), Pow2(64 - k), 0);
    PowersDouble(63 - k);
    MulGrows(Pow2(k), Pow2(64 - k) - 1);
    assert Pow2(k) * (Pow2(64 - k) - 1) == WORD - Pow2(k);
  }

  /** The sum in terms of remainders. */
  ghost function Rounded(value: u64, p: nat): u64
    requires p > 0
  {
    if value % p == 0 then value else (value - value % p + p) % WORD
  }

  lemma AlignCases(value: u64, k: nat)
    requires k < 64
    ensures Pow2(k) < WORD && WORD % Pow2(k) == 0
    ensures AlignValue(value, Pow2(k)) == Rounded(value, Pow2(k))
  {
    hide And, Pow2, Before, Not, IsAligned;
    AlignedIsMultiple(value, k);
  }

  /** The multiple at or below a word is a whole step below the end. */
  lemma RoundedStep(value: u64, p: nat)
    requires 0 < p < WORD && WORD % p == 0
    ensures var low := value - value % p;
            low <= value < low + p <= WORD && low % p == 0 && (low + p) % p == 0
  {
    var low := value - value % p;
    LowIs(value, p);
    NextMultiple(low, WORD, p);
  }

  lemma LowIs(value: nat, p: nat)
    requires p > 0
    ensures var low := value - value % p; low % p == 0 && (low + p) % p == 0
  {
    var low := value - value % p;
    ModUnique(low, p, value / p, 0);
    ModUnique(low + p, p, value / p + 1, 0);
  }

  lemma NextMultiple(low: nat, high: nat, p: nat)
    requires p > 0 && low % p == 0 && high % p == 0 && low < high
    ensures low + p <= high
  {
    var e := high / p - low / p;
    assert high == p * (high / p) && low == p * (low / p);
    assert p * e == high - low;
    MulGrows(p, e);
  }

  /** The sum wraps only to zero. */
  lemma Wraps(sum: nat)
    requires sum <= WORD
    ensures sum % WORD == if sum == WORD then 0 else sum
  {
    ModUnique(sum, WORD, if sum == WORD then 1 else 0, if sum == WORD then 0 else sum);
  }

  lemma RoundedCases(value: u64, p: nat)
    requires 0 < p < WORD && WORD % p == 0
    ensures var low, r := value - value % p, Rounded(value, p);
            && low <= value < low + p <= WORD && low % p == 0
            && r == if value == low then value else if low + p == WORD then 0 else low + p
  {
    RoundedStep(value, p);
    Wraps(value - value % p + p);
  }

  lemma RoundedExact(value: u64, p: nat)
    requires 0 < p < WORD && WORD % p == 0
    ensures Rounded(value, p) % p == 0
    ensures Rounded(value, p) >= value <==> value <= WORD - p
    ensures value > WORD - p ==> Rounded(value, p) == 0
  {
    hide Rounded;
    var low := value - value % p;
    RoundedCases(value, p);
    RoundedStep(value, p);
    ModUnique(0, p, 0, 0);
    if low + p == WORD {
      assert value >= WORD - p;
    } else {
      NotLast(low, p);
      assert value < WORD - p;
    }
  }

  /** A multiple that is not the last one in the word leaves room for two steps. */
  lemma NotLast(low: nat, p: nat)
    requires 0 < p && WORD % p == 0 && low % p == 0 && low + p < WORD
    ensures low + 2 * p <= WORD
  {
    ModUnique(low + p, p, low / p + 1, 0);
    NextMultiple(low + p, WORD, p);
  }

  lemma RoundedLeast(value: u64, p: nat, other: u64)
    requires 0 < p < WORD && WORD % p == 0 && value <= other && other % p == 0
    ensures value <= Rounded(value, p) <= other
  {
    hide Rounded;
    var low := value - value % p;
    RoundedCases(value, p);
    if value != low {
      NextMultiple(low, other, p);
    }
  }

  /** The result is aligned. It reaches the value exactly when the sum does not wrap around, and
      when it wraps it is zero. */
  lemma AlignExact(value: u64, k: nat)
    requires k < 64
    ensures Pow2(k) < WORD && AlignValue(value, Pow2(k)) % Pow2(k) == 0
    ensures AlignValue(value, Pow2(k)) >= value <==> value <= WORD - Pow2(k)
    ensures value > WORD - Pow2(k) ==> AlignValue(value, Pow2(k)) == 0
  {
    hide AlignValue, Rounded, Pow2;
    AlignCases(value, k);
    RoundedExact(value, Pow2(k));
  }

  /** No multiple lies between the value and the result. */
  lemma AlignLeast(value: u64, k: nat, other: u64)
    requires k < 64 && value <= other && other % Pow2(k) == 0
    ensures Pow2(k) < WORD && value <= AlignValue(value, Pow2(k)) <= other
  {
    hide AlignValue, Rounded, Pow2;
    AlignCases(value, k);
    RoundedLeast(value, Pow2(k), other);
  }

  /** A mask that is not all ones below its highest bit leaves some smaller word out. */
  lemma {:induction false} MaskMisses(m: nat) returns (v: nat)
    requires forall k: nat :: m + 1 != Pow2(k)
    ensures 0 < v <= m && And(v, m) == 0
  {
    hide And, Pow2;
    PowersStart();
    if m % 2 == 0 {
      v := 1;
      AndHalves(1, m);
      AndNothing(m / 2);
    } else {
      var h := m / 2;
      forall k: nat ensures h + 1 != Pow2(k) {
        PowersDouble(k);
        assert m + 1 != Pow2(k + 1);
      }
      var w := MaskMisses(h);
      v := 2 * w;
      AndHalves(v, m);
    }
  }

  lemma AndNothing(y: nat)
    ensures And(0, y) == 0
  {
  }

  lemma {:induction false} PowersGrow(k: nat)
    ensures Pow2(k) > k
  {
    if k > 0 {
      PowersGrow(k - 1);
    }
  }

  lemma WordBound(k: nat)
    requires Pow2(k) < WORD
    ensures k < 64
  {
    hide Pow2;
    if k >= 64 {
      Word();
      Pow2Add(64, k - 64);
      MulGrows(WORD, Pow2(k - 64));
    }
  }

  /** A word between zero and the bound that passes the test is left as it is. */
  lemma LeftAsItIs(bound: u64)
    requires bound > 0 && forall k: nat :: bound != Pow2(k)
    ensures exists v: u64 :: 0 < v < bound && IsAligned(v, bound) && AlignValue(v, bound) % bound != 0
  {
    hide And, Pow2;
    var v := MaskMisses(bound - 1);
    BeforeIsMask(bound);
    ModUnique(v, bound, 0, v);
    assert IsAligned(v, bound) && AlignValue(v, bound) == v;
  }

  /** Every result is a multiple of the bound exactly when the bound is a power of two. */
  lemma AlignBoundExact(bound: u64)
    requires bound > 0
    ensures (forall v: u64 :: AlignValue(v, bound) % bound == 0) <==> exists k: nat :: bound == Pow2(k)
  {
    hide AlignValue, IsAligned, Pow2;
    if k: nat :| bound == Pow2(k) {
      WordBound(k);
      forall v: u64 ensures AlignValue(v, bound) % bound == 0 {
        AlignExact(v, k);
      }
    } else {
      LeftAsItIs(bound);
    }
  }

  /** With no bound everything is rounded to zero. */
  lemma AlignNoBound(value: u64)
    ensures AlignValue(value, 0) == 0
  {
    hide And, Pow2;
    Word();
    WordBits(0, 0);
    MaskIsRemainder(value, 64);
    ModUnique(value, WORD, 0, value);
  }

  /** An instance: the result is not a multiple of six, nor does it pass its own test. */
  lemma AlignOddBound()
    ensures !IsAligned(AlignValue(1, 6), 6) && AlignValue(8, 6) % 6 != 0
  {
    assert And(1, 5) == 1 && And(6, 5) == 4 && And(8, 5) == 0;
  }
}
