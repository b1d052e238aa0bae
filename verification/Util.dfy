/** Small types shared by the other modules. */
module Util {

  datatype Option<+T> = None | Some(value: T)

  /** One byte of a buffer. */
  newtype u8 = x: int | 0 <= x < 0x100

  /** A 64-bit word, as a number (`u64`, `usize`, `uptr`). */
  type u64 = x: int | 0 <= x < 0x1_0000_0000_0000_0000

  /** A 32-bit word, as a number (`u32`, `DWORD`, and the bits of an NTSTATUS on the wire). */
  type u32 = x: int | 0 <= x < 0x1_0000_0000

  /** The statuses the modelled routines compare or return. */
  datatype NtStatus =
    | Success
    | BufferTooSmall
    | InsufficientResources
    | BadData
    | BufferOverflow
    | AccessDenied
    | AlreadyRegistered
    | NotFound
    | ObjectNameNotFound

  ghost function Pow2(k: nat): (p: nat)
    ensures p > 0
  {
    if k == 0 then 1 else 2 * Pow2(k - 1)
  }

  lemma Assoc<T>(a: seq<T>, b: seq<T>, c: seq<T>)
    ensures (a + b) + c == a + (b + c)
  {
  }

  lemma TakeDrop<T>(a: seq<T>, b: seq<T>)
    ensures (a + b)[..|a|] == a && (a + b)[|a|..] == b
  {
  }

  /** The images of the elements, one after the other. */
  function Concat<X, A>(f: X -> seq<A>, xs: seq<X>): seq<A> {
    if xs == [] then [] else f(xs[0]) + Concat(f, xs[1..])
  }

  function Sum<X>(f: X -> nat, xs: seq<X>): nat {
    if xs == [] then 0 else f(xs[0]) + Sum(f, xs[1..])
  }

  lemma {:induction false} ConcatAppend<X, A>(f: X -> seq<A>, xs: seq<X>, ys: seq<X>)
    ensures Concat(f, xs + ys) == Concat(f, xs) + Concat(f, ys)
  {
    if xs == [] {
      assert xs + ys == ys;
    } else {
      ConcatAppend(f, xs[1..], ys);
      assert (xs + ys)[1..] == xs[1..] + ys && (xs + ys)[0] == xs[0];
      Assoc(f(xs[0]), Concat(f, xs[1..]), Concat(f, ys));
    }
  }

  lemma ConcatAt<X, A>(f: X -> seq<A>, xs: seq<X>, k: nat)
    requires k < |xs|
    ensures Concat(f, xs) == Concat(f, xs[..k]) + (f(xs[k]) + Concat(f, xs[k + 1..]))
  {
    assert xs[..k] + xs[k..] == xs && xs[k..][1..] == xs[k + 1..];
    ConcatAppend(f, xs[..k], xs[k..]);
  }

  lemma {:induction false} SumAppend<X>(f: X -> nat, xs: seq<X>, ys: seq<X>)
    ensures Sum(f, xs + ys) == Sum(f, xs) + Sum(f, ys)
  {
    if xs == [] {
      assert xs + ys == ys;
    } else {
      SumAppend(f, xs[1..], ys);
      assert (xs + ys)[1..] == xs[1..] + ys && (xs + ys)[0] == xs[0];
    }
  }

  lemma SumOfPrefix<X>(f: X -> nat, xs: seq<X>, k: nat)
    requires k < |xs|
    ensures Sum(f, xs[..k + 1]) == Sum(f, xs[..k]) + f(xs[k])
  {
    SumAppend(f, xs[..k], [xs[k]]);
    assert xs[..k] + [xs[k]] == xs[..k + 1];
  }

  lemma {:induction false} SumUpdate<X>(f: X -> nat, xs: seq<X>, i: nat, x: X)
    requires i < |xs|
    ensures Sum(f, xs[i := x]) + f(xs[i]) == Sum(f, xs) + f(x)
    decreases |xs|
  {
    if i == 0 {
      assert xs[0 := x][1..] == xs[1..];
    } else {
      assert xs[i := x][1..] == xs[1..][i - 1 := x];
      SumUpdate(f, xs[1..], i - 1, x);
    }
  }

  /** Everything that arrives in the n batches of a schedule starting at `from`, in order. */
  function Arrived<T>(schedule: nat -> seq<T>, from: nat, n: nat): seq<T>
    decreases n
  {
    if n == 0 then [] else schedule(from) + Arrived(schedule, from + 1, n - 1)
  }

  lemma {:induction false} ArrivedLast<T>(schedule: nat -> seq<T>, from: nat, n: nat)
    ensures Arrived(schedule, from, n + 1) == Arrived(schedule, from, n) + schedule(from + n)
    decreases n
  {
    if n == 0 {
      assert schedule(from) + [] == schedule(from) == [] + schedule(from);
    } else {
      ArrivedLast(schedule, from + 1, n - 1);
      Assoc(schedule(from), Arrived(schedule, from + 1, n - 1), schedule(from + n));
    }
  }
}
