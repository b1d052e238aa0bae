/** The intrusive circular doubly-linked list of the kernel driver.

    `ListState` is the mathematical list the heap structure refines; the class
    `LinkedList` is the pointer structure. Every public method ties the new
    `State()` to a function of the old one; the lemmas about runs of those
    functions say what the entry counter is worth. */
module LinkedLists {
  import opened Util

  // ----- the mathematical list -----

  datatype ListState<T> = ListState(items: seq<T>, counter: nat)

  ghost function Empty<T>(): ListState<T> {
    ListState([], 0)
  }

  ghost predicate Bounded<T>(s: ListState<T>) {
    |s.items| <= s.counter
  }

  ghost function PushedBack<T>(s: ListState<T>, x: T): ListState<T> {
    ListState(s.items + [x], s.counter + 1)
  }

  ghost function PushedFront<T>(s: ListState<T>, x: T): ListState<T> {
    ListState([x] + s.items, s.counter + 1)
  }

  ghost function PoppedFront<T>(s: ListState<T>): ListState<T>
    requires Bounded(s)
  {
    if s.items == [] then s else ListState(s.items[1..], s.counter - 1)
  }

  ghost function PoppedBack<T>(s: ListState<T>): ListState<T>
    requires Bounded(s)
  {
    if s.items == [] then s else ListState(s.items[..|s.items| - 1], s.counter - 1)
  }

  ghost function Without<T>(s: seq<T>, k: nat): seq<T>
    requires k < |s|
  {
    s[..k] + s[k + 1..]
  }

  lemma WithoutAt<T>(s: seq<T>, k: nat)
    requires k < |s|
    ensures |Without(s, k)| == |s| - 1
    ensures forall i | 0 <= i < |s| - 1 :: Without(s, k)[i] == s[if i < k then i else i + 1]
  {
  }

  /** Only a removal that empties the list is counted. */
  ghost function Removed<T>(s: ListState<T>, k: nat): ListState<T>
    requires Bounded(s) && k < |s.items|
  {
    ListState(Without(s.items, k), if |s.items| == 1 then s.counter - 1 else s.counter)
  }

  datatype Op<T> = PushBack(x: T) | PushFront(x: T) | PopFront | PopBack | Remove(k: nat)

  /** One call; a `Remove` of an entry that is not linked is never made, so it is a no-op here. */
  ghost function Apply<T>(s: ListState<T>, op: Op<T>): ListState<T>
    requires Bounded(s)
  {
    match op
    case PushBack(x) => PushedBack(s, x)
    case PushFront(x) => PushedFront(s, x)
    case PopFront => PoppedFront(s)
    case PopBack => PoppedBack(s)
    case Remove(k) => if k < |s.items| then Removed(s, k) else s
  }

  ghost function Run<T>(s: ListState<T>, ops: seq<Op<T>>): (r: ListState<T>)
    requires Bounded(s)
    ensures Bounded(r)
    decreases |ops|
  {
    if ops == [] then s else Run(Apply(s, ops[0]), ops[1..])
  }

  /** How many calls of the run remove one of two or more entries. */
  ghost function UncountedRemovals<T>(s: ListState<T>, ops: seq<Op<T>>): nat
    requires Bounded(s)
    decreases |ops|
  {
    if ops == [] then 0
    else
      (if ops[0].Remove? && ops[0].k < |s.items| && |s.items| >= 2 then 1 else 0)
      + UncountedRemovals(Apply(s, ops[0]), ops[1..])
  }

  /** The counter is too high by exactly the number of removals that left something behind,
      so it is the real length if and only if there was no such removal. */
  lemma {:induction false} CounterDrift<T>(s: ListState<T>, ops: seq<Op<T>>)
    requires Bounded(s)
    ensures var r := Run(s, ops);
            r.counter - |r.items| == s.counter - |s.items| + UncountedRemovals(s, ops)
    decreases |ops|
  {
    if ops != [] {
      CounterDrift(Apply(s, ops[0]), ops[1..]);
    }
  }

  /** From an empty list the counter is exact if and only if no removal was left uncounted. */
  lemma CounterExact<T>(ops: seq<Op<T>>)
    ensures var r := Run(Empty<T>(), ops);
            |r.items| <= r.counter &&
            (r.counter == |r.items| <==> UncountedRemovals(Empty<T>(), ops) == 0)
  {
    CounterDrift(Empty<T>(), ops);
  }

  /** n rounds of inserting one entry and removing it again, beside an entry that stays. */
  ghost function Churn<T>(x: T, n: nat): seq<Op<T>> {
    if n == 0 then [] else [PushBack(x), Remove(1)] + Churn(x, n - 1)
  }

  /** The list is back where it was, the counter is n higher. */
  lemma {:induction false} ChurnLeaks<T>(resident: T, x: T, counter: nat, n: nat)
    requires counter >= 1
    ensures Run(ListState([resident], counter), Churn(x, n)) == ListState([resident], counter + n)
    decreases n
  {
    if n > 0 {
      var s := ListState([resident], counter);
      var ops := Churn(x, n);
      assert ops[0] == PushBack(x) && ops[1..][0] == Remove(1) && ops[1..][1..] == Churn(x, n - 1);
      var s1 := PushedBack(s, x);
      assert Removed(s1, 1) == ListState([resident], counter + 1);
      ChurnLeaks(resident, x, counter + 1, n - 1);
    }
  }

  /** Left fold with the running success flag of `ForEach`. */
  function Fold<S, T>(visit: (S, T) -> (S, bool), acc: S, ok: bool, items: seq<T>): (S, bool) {
    if items == [] then (acc, ok)
    else
      var (next, good) := visit(acc, items[0]);
      Fold(visit, next, ok && good, items[1..])
  }

  /** The visitor's state after the first k records. */
  ghost function StateAfter<S, T>(visit: (S, T) -> (S, bool), init: S, items: seq<T>, k: nat): S
    requires k <= |items|
  {
    if k == 0 then init else visit(StateAfter(visit, init, items, k - 1), items[k - 1]).0
  }

  /** The states follow from the records in list order, and the answer is whether every visit succeeded. */
  lemma {:induction false} FoldVisits<S, T>(visit: (S, T) -> (S, bool), init: S, items: seq<T>, k: nat)
    requires k <= |items|
    ensures StateAfter(visit, init, items, 0) == init
    ensures (forall i | 0 <= i < k :: visit(StateAfter(visit, init, items, i), items[i]).0
                                   == StateAfter(visit, init, items, i + 1))
    ensures Fold(visit, init, true, items[..k]) ==
            (StateAfter(visit, init, items, k),
             forall i | 0 <= i < k :: visit(StateAfter(visit, init, items, i), items[i]).1)
  {
    hide Fold;
    if k == 0 {
      NoVisits(visit, init);
      assert items[..0] == [];
    } else {
      FoldVisits(visit, init, items, k - 1);
      assert items[..k] == items[..k - 1] + [items[k - 1]];
      FoldLast(visit, init, true, items[..k - 1], items[k - 1]);
    }
  }

  lemma NoVisits<S, T>(visit: (S, T) -> (S, bool), init: S)
    ensures Fold(visit, init, true, []) == (init, true)
  {
  }

  lemma FoldIs<S, T>(visit: (S, T) -> (S, bool), init: S, items: seq<T>)
    ensures var (acc, success) := Fold(visit, init, true, items);
            && acc == StateAfter(visit, init, items, |items|) && StateAfter(visit, init, items, 0) == init
            && (success <==> forall i | 0 <= i < |items| :: visit(StateAfter(visit, init, items, i), items[i]).1)
  {
    FoldVisits(visit, init, items, |items|);
    assert items[..|items|] == items;
  }

  lemma {:induction false} FoldLast<S, T>(visit: (S, T) -> (S, bool), acc: S, ok: bool, items: seq<T>, x: T)
    ensures var (state, good) := Fold(visit, acc, ok, items);
            Fold(visit, acc, ok, items + [x]) == (visit(state, x).0, good && visit(state, x).1)
    decreases |items|
  {
    if items == [] {
      assert ([] + [x])[1..] == [];
    } else {
      assert (items + [x])[1..] == items[1..] + [x] && (items + [x])[0] == items[0];
      FoldLast(visit, visit(acc, items[0]).0, ok && visit(acc, items[0]).1, items[1..], x);
    }
  }

  // ----- the pointer structure -----

  /** A LIST_ENTRY together with the record that embeds it (`CONTAINING_RECORD`);
      the list head is an entry without a record. */
  class ListEntry<T> {
    const record: Option<T>
    var flink: ListEntry?<T>
    var blink: ListEntry?<T>

    constructor (record: Option<T>)
      ensures this.record == record
    {
      this.record := record;
      flink, blink := null, null;
    }
  }

  ghost predicate Linked<T>(ring: seq<ListEntry<T>>)
    reads ring
  {
    && (forall i {:trigger ring[i].flink} | 0 <= i < |ring| - 1 :: ring[i].flink == ring[i + 1])
    && (forall i {:trigger ring[i].blink} | 1 <= i < |ring| :: ring[i].blink == ring[i - 1])
  }

  ghost predicate Distinct<T>(s: seq<T>) {
    forall i, j | 0 <= i < j < |s| :: s[i] != s[j]
  }

  ghost function Records<T>(entries: seq<ListEntry<T>>): (items: seq<T>)
    requires forall i | 0 <= i < |entries| :: entries[i].record.Some?
    ensures |items| == |entries|
    ensures forall i | 0 <= i < |items| :: items[i] == entries[i].record.value
  {
    if entries == [] then [] else [entries[0].record.value] + Records(entries[1..])
  }

  lemma RecordsAdded<T>(entries: seq<ListEntry<T>>, e: ListEntry<T>)
    requires e.record.Some? && forall i | 0 <= i < |entries| :: entries[i].record.Some?
    ensures Records(entries + [e]) == Records(entries) + [e.record.value]
    ensures Records([e] + entries) == [e.record.value] + Records(entries)
  {
  }

  lemma EntriesWithout<T>(entries: seq<ListEntry<T>>, k: nat)
    requires k < |entries| && Distinct(entries)
    requires forall i | 0 <= i < |entries| :: entries[i].record.Some?
    ensures var rest := Without(entries, k);
            && Distinct(rest) && entries[k] !in rest
            && (forall i | 0 <= i < |rest| :: rest[i].record.Some?)
            && Records(rest) == Without(Records(entries), k)
  {
    var rest := Without(entries, k);
    assert forall i | 0 <= i < |rest| :: rest[i] == entries[if i < k then i else i + 1];
  }

  class LinkedList<T> {
    const head: ListEntry<T>
    var totalEntry: nat
    /** The linked entries, front to back. */
    ghost var nodes: seq<ListEntry<T>>
    /** The head and every entry that was ever linked. */
    ghost var Repr: set<ListEntry<T>>

    ghost function Ring(): seq<ListEntry<T>>
      reads this
    {
      [head] + nodes + [head]
    }

    ghost function At(i: nat): ListEntry<T>
      requires i < |nodes| + 2
      reads this
    {
      Ring()[i]
    }

    ghost predicate Valid()
      reads this, Repr
    {
      && head in Repr && (forall i | 0 <= i < |nodes| :: nodes[i] in Repr)
      && |nodes| <= totalEntry
      && head !in nodes
      && Distinct(nodes)
      && (forall i | 0 <= i < |nodes| :: nodes[i].record.Some?)
      && Linked(Ring())
    }

    ghost function Items(): seq<T>
      requires Valid()
      reads this, Repr
    {
      Records(nodes)
    }

    ghost function State(): (s: ListState<T>)
      requires Valid()
      reads this, Repr
      ensures Bounded(s)
    {
      ListState(Items(), totalEntry)
    }

    constructor ()
      ensures Valid() && nodes == [] && State() == Empty() && fresh(Repr)
    {
      head := new ListEntry<T>(None);
      totalEntry := 0;
      nodes := [];
      Repr := {head};
      new;
      head.flink, head.blink := head, head;
    }

    /** `InsertTailList`. */
    method PushBack(e: ListEntry<T>)
      requires Valid() && e !in nodes && e != head && e.record.Some?
      modifies this, Repr, e
      ensures Valid() && Repr == old(Repr) + {e} && nodes == old(nodes) + [e] && totalEntry == old(totalEntry) + 1
      ensures State() == PushedBack(old(State()), e.record.value)
    {
      hide Records;
      ghost var was := Ring();
      var last := head.blink;
      assert was[|was| - 1].blink == was[|was| - 2];
      e.flink := head;
      e.blink := last;
      last.flink := e;
      head.blink := e;
      nodes := nodes + [e];
      totalEntry := totalEntry + 1;
      Repr := Repr + {e};
      assert Ring() == was[..|was| - 1] + [e, head];
      RecordsAdded(old(nodes), e);
    }

    /** `InsertHeadList`. */
    method PushFront(e: ListEntry<T>)
      requires Valid() && e !in nodes && e != head && e.record.Some?
      modifies this, Repr, e
      ensures Valid() && Repr == old(Repr) + {e} && nodes == [e] + old(nodes) && totalEntry == old(totalEntry) + 1
      ensures State() == PushedFront(old(State()), e.record.value)
    {
      hide Records;
      ghost var was := Ring();
      var first := head.flink;
      assert was[0].flink == was[1];
      e.flink := first;
      e.blink := head;
      first.blink := e;
      head.flink := e;
      nodes := [e] + nodes;
      totalEntry := totalEntry + 1;
      Repr := Repr + {e};
      assert Ring() == [head, e] + was[1..];
      RecordsAdded(old(nodes), e);
    }

    /** `RemoveEntryList`: true when the list is empty after the removal. */
    method RemoveEntryList(e: ListEntry<T>, ghost k: nat) returns (empty: bool)
      requires Valid() && k < |nodes| && nodes[k] == e
      modifies this`nodes, At(k)`flink, At(k + 2)`blink
      ensures nodes == Without(old(nodes), k) && Linked(Ring())
      ensures empty == (nodes == [])
    {
      ghost var was := Ring();
      assert was[k + 1].flink == was[k + 2] && was[k + 1].blink == was[k];
      NeighboursCoincide(k);
      var next, prev := e.flink, e.blink;
      prev.flink := next;
      next.blink := prev;
      empty := next == prev;
      nodes := Without(nodes, k);
      ghost var ring := Ring();
      assert forall i | 0 <= i <= k :: ring[i] == was[i];
      assert forall i | k < i < |ring| :: ring[i] == was[i + 1];
      forall i | 0 <= i < |ring| - 1 ensures ring[i].flink == ring[i + 1] {
        if i < k {
          assert old(was[i].flink) == was[i + 1];
        } else if i > k {
          assert old(was[i + 1].flink) == was[i + 2];
        }
      }
      forall i | 1 <= i < |ring| ensures ring[i].blink == ring[i - 1] {
        if i <= k {
          assert old(was[i].blink) == was[i - 1];
        } else if i > k + 1 {
          assert old(was[i + 1].blink) == was[i];
        }
      }
    }

    lemma NeighboursCoincide(k: nat)
      requires Valid() && k < |nodes|
      ensures Ring()[k] == Ring()[k + 2] <==> |nodes| == 1
      ensures forall i | 0 <= i <= |nodes| && i != k :: Ring()[i] != Ring()[k]
    {
    }

    method Remove(e: ListEntry<T>, ghost k: nat) returns (success: bool)
      requires Valid() && k < |nodes| && nodes[k] == e
      modifies this, Repr
      ensures Valid() && Repr == old(Repr) && nodes == Without(old(nodes), k)
      ensures State() == Removed(old(State()), k)
      ensures success == (nodes == []) && totalEntry == old(totalEntry) - if nodes == [] then 1 else 0
    {
      hide Linked, Distinct, Records;
      EntriesWithout(nodes, k);
      success := RemoveEntryList(e, k);
      if success {
        totalEntry := totalEntry - 1;
      }
    }

    /** Null when nothing is linked, even when the counter says otherwise. */
    method PopFront() returns (e: ListEntry?<T>)
      requires Valid()
      modifies this, Repr
      ensures Valid() && Repr == old(Repr) && State() == PoppedFront(old(State()))
      ensures e == null <==> old(nodes) == []
      ensures totalEntry == old(totalEntry) - if e == null then 0 else 1
      ensures e != null ==> e == old(nodes)[0] && nodes == old(nodes)[1..]
    {
      if totalEntry == 0 {
        return null;
      }
      ghost var was := Ring();
      assert was[0].flink == was[1];
      if head.flink == head {
        assert nodes == [];
        return null;
      }
      e := head.flink;
      assert e == nodes[0];
      var empty := RemoveEntryList(e, 0);
      totalEntry := totalEntry - 1;
    }

    method PopBack() returns (e: ListEntry?<T>)
      requires Valid()
      modifies this, Repr
      ensures Valid() && Repr == old(Repr) && State() == PoppedBack(old(State()))
      ensures e == null <==> old(nodes) == []
      ensures totalEntry == old(totalEntry) - if e == null then 0 else 1
      ensures e != null ==> e == old(nodes)[|old(nodes)| - 1] && nodes == old(nodes)[..|old(nodes)| - 1]
    {
      if totalEntry == 0 {
        return null;
      }
      ghost var was := Ring();
      assert was[|was| - 1].blink == was[|was| - 2];
      if head.blink == head {
        assert nodes == [];
        return null;
      }
      e := head.blink;
      assert e == nodes[|nodes| - 1];
      var empty := RemoveEntryList(e, |nodes| - 1);
      totalEntry := totalEntry - 1;
    }

    /** The first entry, front to back, whose record meets the condition. */
    method Find(condition: T ~> bool) returns (found: ListEntry?<T>)
      requires Valid()
      requires forall i | 0 <= i < |nodes| :: condition.requires(nodes[i].record.value)
      ensures found == null ==> forall i | 0 <= i < |nodes| :: !condition(nodes[i].record.value)
      ensures found != null ==>
                exists k :: 0 <= k < |nodes| && nodes[k] == found && condition(found.record.value)
                  && forall i | 0 <= i < k :: !condition(nodes[i].record.value)
    {
      assert Ring()[0].flink == Ring()[1];
      if head.flink != head {
        var entry := head.flink;
        ghost var k := 0;
        while entry != head
          invariant 0 <= k <= |nodes| && entry == Ring()[k + 1]
          invariant forall i | 0 <= i < k :: !condition(nodes[i].record.value)
          decreases |nodes| - k
        {
          assert entry == nodes[k];
          if condition(entry.record.value) {
            return entry;
          }
          assert Ring()[k + 1].flink == Ring()[k + 2];
          entry, k := entry.flink, k + 1;
        }
        assert k == |nodes|;
      }
      return null;
    }

    /** Visits every record once, front to back, threading the visitor's state. */
    method ForEach<S>(visit: (S, T) -> (S, bool), init: S) returns (acc: S, success: bool)
      requires Valid()
      ensures (acc, success) == Fold(visit, init, true, Items()) && StateAfter(visit, init, Items(), 0) == init
      ensures success <==> forall i | 0 <= i < |Items()| :: visit(StateAfter(visit, init, Items(), i), Items()[i]).1
      ensures acc == StateAfter(visit, init, Items(), |Items()|)
    {
      hide StateAfter;
      acc, success := init, true;
      assert Ring()[0].flink == Ring()[1];
      if head.flink != head {
        var entry := head.flink;
        ghost var k := 0;
        while entry != head
          invariant 0 <= k <= |nodes| && entry == Ring()[k + 1]
          invariant Fold(visit, acc, success, Items()[k..]) == Fold(visit, init, true, Items())
          decreases |nodes| - k
        {
          assert entry == nodes[k];
          var (next, good) := visit(acc, entry.record.value);
          assert Items()[k..][0] == entry.record.value && Items()[k..][1..] == Items()[k + 1..];
          acc, success := next, success && good;
          assert Ring()[k + 1].flink == Ring()[k + 2];
          entry, k := entry.flink, k + 1;
        }
        assert Items()[k..] == [];
      }
      FoldIs(visit, init, Items());
    }
  }
}
