/** The driver's owner of pool memory: construction, move assignment and destruction, with the pool
    they allocate from. */
module KAllocs {
  import opened Util
  import opened Alignment

  datatype PoolType = NonPagedPoolNx | PagedPool

  /** One allocation, with the tags it was freed under. */
  datatype Block = Block(capacity: u64, tag: u32, freed: seq<u32>)

  /** The fields of a KAlloc; a buffer is the number of an allocation. */
  datatype Owner = Owner(buffer: Option<nat>, size: u64, tag: u32, poolType: PoolType)
  {
    predicate Valid() {
      buffer.Some? && size > 0
    }

    predicate Owns(b: nat) {
      buffer == Some(b)
    }
  }

  // ----- the operations on values -----

  function FreeBlock(blocks: seq<Block>, b: nat, tag: u32): (after: seq<Block>)
    ensures |after| == |blocks|
  {
    if b < |blocks| then blocks[b := blocks[b].(freed := blocks[b].freed + [tag])] else blocks
  }

  /** Raises when the pool refuses; a size that rounds up to zero allocates nothing. */
  function Constructed(blocks: seq<Block>, size: u64, tag: u32, poolType: PoolType, granted: bool)
    : (Option<Owner>, seq<Block>)
  {
    var aligned := AlignValue(size, 0x10);
    if size == 0 || aligned == 0 then (Some(Owner(None, size, tag, poolType)), blocks)
    else if granted then (Some(Owner(Some(|blocks|), size, tag, poolType)), blocks + [Block(aligned, tag, [])])
    else (None, blocks)
  }

  function Freed(blocks: seq<Block>, o: Owner): (Owner, seq<Block>) {
    if o.Valid()
    then (Owner(None, 0, 0, o.poolType), FreeBlock(blocks, o.buffer.value, o.tag))
    else (o, blocks)
  }

  /** The target frees its own buffer and takes the other's; the pool type stays. */
  function Moved(blocks: seq<Block>, target: Owner, other: Owner): (Owner, Owner, seq<Block>) {
    var (f, after) := Freed(blocks, target);
    (Owner(other.buffer, other.size, other.tag, f.poolType), Owner(None, 0, 0, other.poolType), after)
  }

  function Destroyed(blocks: seq<Block>, o: Owner): seq<Block> {
    if o.Valid() then Freed(blocks, o).1 else blocks
  }

  // ----- the classes -----

  class Pool {
    var blocks: seq<Block>

    constructor ()
      ensures blocks == []
    {
      blocks := [];
    }

    method ExAllocatePoolWithTag(size: u64, tag: u32, granted: bool) returns (p: Option<nat>)
      modifies this
      ensures granted ==> p == Some(|old(blocks)|) && blocks == old(blocks) + [Block(size, tag, [])]
      ensures !granted ==> p == None && blocks == old(blocks)
    {
      if !granted {
        return None;
      }
      p := Some(|blocks|);
      blocks := blocks + [Block(size, tag, [])];
    }

    method ExFreePoolWithTag(b: nat, tag: u32)
      modifies this
      ensures blocks == FreeBlock(old(blocks), b, tag)
      ensures forall k | 0 <= k < |old(blocks)| :: blocks[k] ==
                if k == b then old(blocks)[b].(freed := old(blocks)[b].freed + [tag]) else old(blocks)[k]
    {
      blocks := FreeBlock(blocks, b, tag);
    }
  }

  class KAlloc {
    var buffer: Option<nat>
    var size: u64
    var poolTag: u32
    const poolType: PoolType

    function View(): Owner
      reads this
    {
      Owner(buffer, size, poolTag, poolType)
    }

    constructor Fields(size: u64, tag: u32, poolType: PoolType)
      ensures View() == Owner(None, size, tag, poolType)
    {
      buffer, this.size, poolTag, this.poolType := None, size, tag, poolType;
    }

    /** The constructor; `None` is the exception for exhausted memory. */
    static method New(pool: Pool, size: u64, tag: u32, poolType: PoolType, granted: bool) returns (k: Option<KAlloc>)
      modifies pool
      ensures k.Some? ==> fresh(k.value)
      ensures var r := Constructed(old(pool.blocks), size, tag, poolType, granted);
              && pool.blocks == r.1
              && (k.Some? <==> r.0.Some?) && (k.Some? ==> k.value.View() == r.0.value)
      ensures 0 < size <= WORD - 16 && granted ==>
                && k.Some? && k.value.View() == Owner(Some(|old(pool.blocks)|), size, tag, poolType)
                && |pool.blocks| == |old(pool.blocks)| + 1 && pool.blocks[..|old(pool.blocks)|] == old(pool.blocks)
                && var block := pool.blocks[|old(pool.blocks)|];
                   && block.capacity % 16 == 0 && size <= block.capacity < size + 16
                   && block.tag == tag && block.freed == []
      ensures 0 < size <= WORD - 16 && !granted ==> k == None && pool.blocks == old(pool.blocks)
      ensures size == 0 || size > WORD - 16 ==>
                k.Some? && k.value.View() == Owner(None, size, tag, poolType) && pool.blocks == old(pool.blocks)
    {
      SixteenUp(size);
      hide AlignValue;
      var fields := new KAlloc.Fields(size, tag, poolType);
      if size != 0 {
        var status := fields.Allocate(pool, AlignValue(size, 0x10), granted);
        if status != Success {
          return None;
        }
      }
      return Some(fields);
    }

    method Allocate(pool: Pool, capacity: u64, granted: bool) returns (status: NtStatus)
      modifies this`buffer, pool
      ensures capacity == 0 || !granted ==> buffer == old(buffer) && pool.blocks == old(pool.blocks)
      ensures capacity > 0 && granted ==>
        buffer == Some(|old(pool.blocks)|) && pool.blocks == old(pool.blocks) + [Block(capacity, poolTag, [])]
      ensures status == if capacity == 0 || granted then Success else InsufficientResources
    {
      if capacity > 0 {
        var p := pool.ExAllocatePoolWithTag(capacity, poolTag, granted);
        if p.None? {
          return InsufficientResources;
        }
        buffer := p;
      }
      return Success;
    }

    method Free(pool: Pool)
      modifies this, pool
      ensures (View(), pool.blocks) == Freed(old(pool.blocks), old(View()))
      ensures if old(buffer).Some? && old(size) > 0
              then View() == Owner(None, 0, 0, poolType)
                   && pool.blocks == FreeBlock(old(pool.blocks), old(buffer).value, old(poolTag))
              else View() == old(View()) && pool.blocks == old(pool.blocks)
    {
      if buffer.Some? && size > 0 {
        pool.ExFreePoolWithTag(buffer.value, poolTag);
        buffer := None;
        poolTag := 0;
        size := 0;
      }
    }

    method Destroy(pool: Pool)
      modifies this, pool
      ensures pool.blocks == Destroyed(old(pool.blocks), old(View()))
      ensures pool.blocks == if old(buffer).Some? && old(size) > 0
                             then FreeBlock(old(pool.blocks), old(buffer).value, old(poolTag)) else old(pool.blocks)
    {
      if buffer.Some? && size > 0 {
        Free(pool);
      }
    }

    method MoveAssign(pool: Pool, other: KAlloc)
      modifies this, other, pool
      ensures this != other ==>
                (View(), other.View(), pool.blocks) == Moved(old(pool.blocks), old(View()), old(other.View()))
      ensures this != other ==>
                && buffer == old(other.buffer) && size == old(other.size) && poolTag == old(other.poolTag)
                && other.View() == Owner(None, 0, 0, other.poolType)
                && pool.blocks == if old(buffer).Some? && old(size) > 0
                                  then FreeBlock(old(pool.blocks), old(buffer).value, old(poolTag))
                                  else old(pool.blocks)
      ensures this == other ==> View() == old(View()) && pool.blocks == old(pool.blocks)
    {
      if this != other {
        Free(pool);
        buffer := other.buffer;
        poolTag := other.poolTag;
        size := other.size;
        other.size := 0;
        other.poolTag := 0;
        other.buffer := None;
      }
    }
  }

  // ----- runs -----

  /** The pool and the objects made so far; a destroyed object, or one whose constructor raised, is `None`. */
  datatype World = World(blocks: seq<Block>, objects: seq<Option<Owner>>)

  datatype Step =
    | Construct(size: u64, tag: u32, poolType: PoolType, granted: bool)
    | Move(target: nat, other: nat)
    | Destruct(k: nat)

  predicate Alive(w: World, k: nat) {
    k < |w.objects| && w.objects[k].Some?
  }

  /** A step on an object that does not exist changes nothing. */
  function Next(w: World, step: Step): World {
    match step
    case Construct(size, tag, poolType, granted) =>
      var (o, blocks) := Constructed(w.blocks, size, tag, poolType, granted);
      World(blocks, w.objects + [o])
    case Move(t, s) =>
      if t != s && Alive(w, t) && Alive(w, s) then
        var (target, other, blocks) := Moved(w.blocks, w.objects[t].value, w.objects[s].value);
        World(blocks, w.objects[t := Some(target)][s := Some(other)])
      else w
    case Destruct(k) =>
      if Alive(w, k) then World(Destroyed(w.blocks, w.objects[k].value), w.objects[k := None]) else w
  }

  function Run(w: World, steps: seq<Step>): World
    decreases |steps|
  {
    if steps == [] then w else Run(Next(w, steps[0]), steps[1..])
  }

  function Holds(o: Option<Owner>, b: nat): nat {
    if o.Some? && o.value.Owns(b) then 1 else 0
  }

  /** How many objects own a block. */
  function Owners(objects: seq<Option<Owner>>, b: nat): nat {
    if objects == [] then 0 else Holds(objects[0], b) + Owners(objects[1..], b)
  }

  /** Every block is owned once or has been freed once, under its own tag. */
  ghost predicate BlockOk(w: World, b: nat)
    requires b < |w.blocks|
  {
    && Owners(w.objects, b) + |w.blocks[b].freed| == 1
    && forall t | t in w.blocks[b].freed :: t == w.blocks[b].tag
  }

  /** A buffer is a block allocated under the owner's tag and at least as big as its size. */
  ghost predicate OwnerOk(blocks: seq<Block>, o: Owner) {
    o.buffer.Some? ==>
      o.buffer.value < |blocks| && blocks[o.buffer.value].tag == o.tag && 0 < o.size <= blocks[o.buffer.value].capacity
  }

  ghost predicate Inv(w: World) {
    && (forall b: nat | b < |w.blocks| :: BlockOk(w, b))
    && (forall k: nat | k < |w.objects| && w.objects[k].Some? :: OwnerOk(w.blocks, w.objects[k].value))
  }

  /** A step ends the object it destroys, empties the one it moves from, and adds at most the tag of
      the one buffer it frees. */
  lemma StepEffect(w: World, k: nat, t: nat, s: nat)
    ensures Alive(w, k) ==>
      var o, n := w.objects[k].value, Next(w, Destruct(k));
      && n.objects == w.objects[k := None]
      && n.blocks == if o.buffer.Some? && o.size > 0 then FreeBlock(w.blocks, o.buffer.value, o.tag) else w.blocks
    ensures t != s && Alive(w, t) && Alive(w, s) ==>
      var target, other, n := w.objects[t].value, w.objects[s].value, Next(w, Move(t, s));
      && n.objects == w.objects[t := Some(other.(poolType := target.poolType))]
                               [s := Some(Owner(None, 0, 0, other.poolType))]
      && n.blocks == if target.buffer.Some? && target.size > 0
                     then FreeBlock(w.blocks, target.buffer.value, target.tag) else w.blocks
    ensures !Alive(w, k) ==> Next(w, Destruct(k)) == w
    ensures t == s || !Alive(w, t) || !Alive(w, s) ==> Next(w, Move(t, s)) == w
    ensures forall size: u64, tag: u32, poolType: PoolType, granted: bool ::
      var n := Next(w, Construct(size, tag, poolType, granted));
      && |n.objects| == |w.objects| + 1 && n.objects[..|w.objects|] == w.objects
      && (n.objects[|w.objects|] == None <==> 0 < size <= WORD - 16 && !granted)
  {
    hide AlignValue;
    forall size: u64, tag: u32, poolType: PoolType, granted: bool
      ensures var n := Next(w, Construct(size, tag, poolType, granted));
              && |n.objects| == |w.objects| + 1 && n.objects[..|w.objects|] == w.objects
              && (n.objects[|w.objects|] == None <==> 0 < size <= WORD - 16 && !granted)
    {
      SixteenUp(size);
    }
  }

  // ----- counting owners -----

  lemma {:induction false} OwnersUpdate(objects: seq<Option<Owner>>, k: nat, o: Option<Owner>, b: nat)
    requires k < |objects|
    ensures Owners(objects[k := o], b) + Holds(objects[k], b) == Owners(objects, b) + Holds(o, b)
  {
    hide Holds;
    if k == 0 {
      assert objects[0 := o][1..] == objects[1..];
    } else {
      assert objects[k := o][1..] == objects[1..][k - 1 := o];
      OwnersUpdate(objects[1..], k - 1, o, b);
    }
  }

  lemma {:induction false} OwnersAppend(objects: seq<Option<Owner>>, o: Option<Owner>, b: nat)
    ensures Owners(objects + [o], b) == Owners(objects, b) + Holds(o, b)
  {
    hide Holds;
    if objects == [] {
      assert objects + [o] == [o];
    } else {
      assert (objects + [o])[1..] == objects[1..] + [o];
      OwnersAppend(objects[1..], o, b);
    }
  }

  lemma {:induction false} NoOwner(objects: seq<Option<Owner>>, b: nat)
    requires forall k | 0 <= k < |objects| :: Holds(objects[k], b) == 0
    ensures Owners(objects, b) == 0
  {
    if objects != [] {
      assert Holds(objects[0], b) == 0;
      NoOwner(objects[1..], b);
    }
  }

  lemma OwnerCounts(objects: seq<Option<Owner>>, k: nat, b: nat)
    requires k < |objects|
    ensures Owners(objects, b) >= Holds(objects[k], b)
  {
    OwnersUpdate(objects, k, None, b);
  }

  lemma TwoOwnersCount(objects: seq<Option<Owner>>, j: nat, k: nat, b: nat)
    requires j < |objects| && k < |objects| && j != k
    ensures Owners(objects, b) >= Holds(objects[j], b) + Holds(objects[k], b)
  {
    OwnersUpdate(objects, j, None, b);
    OwnerCounts(objects[j := None], k, b);
  }

  // ----- every step keeps the count -----

  /** No constructed object owns a block from outside the pool. */
  lemma NewBlockUnowned(w: World)
    requires Inv(w)
    ensures Owners(w.objects, |w.blocks|) == 0
  {
    NoOwner(w.objects, |w.blocks|);
  }

  /** A buffer is allocated exactly for sizes that do not round up past the end of the word; it is
      the least multiple of 16 that holds the size. */
  lemma ConstructExact(blocks: seq<Block>, size: u64, tag: u32, poolType: PoolType)
    ensures var (o, after) := Constructed(blocks, size, tag, poolType, true);
            && o.Some? && (o.value.Valid() <==> 0 < size <= WORD - 16)
            && (o.value.Valid() ==> OwnerOk(after, o.value) && after[..|blocks|] == blocks && |after| == |blocks| + 1)
            && (!o.value.Valid() ==> o.value.buffer == None && after == blocks)
            && o.value.size == size && o.value.tag == tag && o.value.poolType == poolType
            && (o.value.Valid() ==>
                  && o.value.buffer == Some(|blocks|)
                  && var block := after[|blocks|];
                     && block.capacity % 16 == 0 && size <= block.capacity < size + 16
                     && block.tag == tag && block.freed == [])
    ensures size > 0 ==> forall multiple: u64 | multiple % 16 == 0 && size <= multiple ::
              size <= AlignValue(size, 16) <= multiple
  {
    hide AlignValue;
    SixteenAligned(size);
    SixteenUp(size);
    forall multiple: u64 | multiple % 16 == 0 && size <= multiple ensures size <= AlignValue(size, 16) <= multiple {
      SixteenLeast(size, multiple);
    }
  }

  lemma SixteenAligned(size: u64)
    ensures size <= WORD - 16 ==> AlignValue(size, 16) >= size
    ensures size > WORD - 16 ==> AlignValue(size, 16) == 0
  {
    hide AlignValue;
    AlignExact(size, 4);
    assert Pow2(4) == 16;
  }

  /** The block holds the size with less than sixteen bytes to spare. */
  lemma SixteenUp(size: u64)
    ensures AlignValue(size, 16) % 16 == 0
    ensures size <= WORD - 16 ==> size <= AlignValue(size, 16) < size + 16
    ensures size > WORD - 16 ==> AlignValue(size, 16) == 0
  {
    hide AlignValue;
    SixteenAligned(size);
    AlignExact(size, 4);
    assert Pow2(4) == 16;
    if size <= WORD - 16 {
      var up := (size + 15) / 16 * 16;
      assert up % 16 == 0 && size <= up < size + 16;
      SixteenLeast(size, up);
    }
  }

  lemma SixteenLeast(size: u64, multiple: u64)
    requires multiple % 16 == 0 && size <= multiple
    ensures size <= AlignValue(size, 16) <= multiple
  {
    hide AlignValue;
    assert Pow2(4) == 16;
    AlignLeast(size, 4, multiple);
  }

  lemma ConstructKeeps(w: World, size: u64, tag: u32, poolType: PoolType, granted: bool)
    requires Inv(w)
    ensures Inv(Next(w, Construct(size, tag, poolType, granted)))
  {
    hide AlignValue, Owners;
    var n := Next(w, Construct(size, tag, poolType, granted));
    var o := n.objects[|w.objects|];
    SixteenAligned(size);
    NewBlockUnowned(w);
    forall b: nat | b < |n.blocks| ensures BlockOk(n, b) {
      OwnersAppend(w.objects, o, b);
      if b < |w.blocks| {
        assert BlockOk(w, b);
      }
    }
  }

  /** Freeing an owner's buffer in place. */
  function FreedIn(w: World, k: nat): World
    requires Alive(w, k)
  {
    var (o, blocks) := Freed(w.blocks, w.objects[k].value);
    World(blocks, w.objects[k := Some(o)])
  }

  lemma FreeKeeps(w: World, k: nat)
    requires Inv(w) && Alive(w, k)
    ensures Inv(FreedIn(w, k)) && FreedIn(w, k).objects[k].value.buffer == None
  {
    hide Owners;
    var n := FreedIn(w, k);
    forall b: nat | b < |n.blocks| ensures BlockOk(n, b) {
      assert BlockOk(w, b);
      OwnersUpdate(w.objects, k, n.objects[k], b);
      OwnerCounts(w.objects, k, b);
    }
  }

  /** Handing a buffer to an object that has none. */
  lemma TransferKeeps(w: World, t: nat, s: nat, target: Owner, other: Owner)
    requires Inv(w) && Alive(w, t) && Alive(w, s) && t != s && w.objects[t].value.buffer == None
    requires var x := w.objects[s].value; target.buffer == x.buffer && target.size == x.size && target.tag == x.tag
    requires other.buffer == None
    ensures Inv(World(w.blocks, w.objects[t := Some(target)][s := Some(other)]))
  {
    hide Owners;
    var n := World(w.blocks, w.objects[t := Some(target)][s := Some(other)]);
    forall b: nat | b < |n.blocks| ensures BlockOk(n, b) {
      assert BlockOk(w, b);
      OwnersUpdate(w.objects, t, Some(target), b);
      OwnersUpdate(w.objects[t := Some(target)], s, Some(other), b);
    }
  }

  lemma MoveKeeps(w: World, t: nat, s: nat)
    requires Inv(w)
    ensures Inv(Next(w, Move(t, s)))
  {
    hide Owners, Inv, Freed;
    if t != s && Alive(w, t) && Alive(w, s) {
      FreeKeeps(w, t);
      var m := FreedIn(w, t);
      var (target, other, blocks) := Moved(w.blocks, w.objects[t].value, w.objects[s].value);
      TransferKeeps(m, t, s, target, other);
      assert m.objects[t := Some(target)][s := Some(other)] == w.objects[t := Some(target)][s := Some(other)];
    }
  }

  lemma DropKeeps(w: World, k: nat)
    requires Inv(w) && Alive(w, k) && w.objects[k].value.buffer == None
    ensures Inv(World(w.blocks, w.objects[k := None]))
  {
    hide Owners;
    var n := World(w.blocks, w.objects[k := None]);
    forall b: nat | b < |n.blocks| ensures BlockOk(n, b) {
      assert BlockOk(w, b);
      OwnersUpdate(w.objects, k, None, b);
    }
  }

  lemma DestructKeeps(w: World, k: nat)
    requires Inv(w)
    ensures Inv(Next(w, Destruct(k)))
  {
    hide Owners, Inv;
    if Alive(w, k) {
      FreeKeeps(w, k);
      DropKeeps(FreedIn(w, k), k);
      assert FreedIn(w, k).objects[k := None] == w.objects[k := None];
    }
  }

  lemma {:induction false} RunKeeps(w: World, steps: seq<Step>)
    requires Inv(w)
    ensures Inv(Run(w, steps))
    decreases |steps|
  {
    hide Inv, Next;
    if steps != [] {
      match steps[0] {
        case Construct(size, tag, poolType, granted) => ConstructKeeps(w, size, tag, poolType, granted);
        case Move(t, s) => MoveKeeps(w, t, s);
        case Destruct(k) => DestructKeeps(w, k);
      }
      RunKeeps(Next(w, steps[0]), steps[1..]);
    }
  }

  /** After any run: a valid owner's block is not freed, carries its tag and holds its size; no two
      objects own the same block; and a block no object owns has been freed exactly once, under
      its own tag. */
  lemma EveryRun(steps: seq<Step>)
    ensures var w := Run(World([], []), steps);
            && (forall k: nat | Alive(w, k) && w.objects[k].value.Valid() ::
                  var o := w.objects[k].value;
                  && o.buffer.value < |w.blocks|
                  && var block := w.blocks[o.buffer.value];
                     block.freed == [] && block.tag == o.tag && o.size <= block.capacity)
            && (forall j: nat, k: nat | j != k && Alive(w, j) && Alive(w, k) && w.objects[j].value.buffer.Some? ::
                  w.objects[j].value.buffer != w.objects[k].value.buffer)
            && (forall b: nat | b < |w.blocks| && Owners(w.objects, b) == 0 ::
                  w.blocks[b].freed == [w.blocks[b].tag])
  {
    hide Owners, Run;
    var w := Run(World([], []), steps);
    RunKeeps(World([], []), steps);
    forall k: nat | Alive(w, k) && w.objects[k].value.Valid()
      ensures w.objects[k].value.buffer.value < |w.blocks| && w.blocks[w.objects[k].value.buffer.value].freed == []
    {
      OwnerCounts(w.objects, k, w.objects[k].value.buffer.value);
      assert BlockOk(w, w.objects[k].value.buffer.value);
    }
    forall j: nat, k: nat | j != k && Alive(w, j) && Alive(w, k) && w.objects[j].value.buffer.Some?
      ensures w.objects[j].value.buffer != w.objects[k].value.buffer
    {
      TwoOwnersCount(w.objects, j, k, w.objects[j].value.buffer.value);
      assert BlockOk(w, w.objects[j].value.buffer.value);
    }
    forall b: nat | b < |w.blocks| && Owners(w.objects, b) == 0 ensures w.blocks[b].freed == [w.blocks[b].tag] {
      assert BlockOk(w, b);
      assert w.blocks[b].freed[0] in w.blocks[b].freed;
    }
  }

  /** Once every object is gone the pool has everything back. */
  lemma NothingLeaks(steps: seq<Step>, w: World)
    requires w == Run(World([], []), steps) && forall k: nat | k < |w.objects| :: w.objects[k] == None
    ensures forall b: nat | b < |w.blocks| :: w.blocks[b].freed == [w.blocks[b].tag]
  {
    hide Run;
    EveryRun(steps);
    forall b: nat | b < |w.blocks| ensures w.blocks[b].freed == [w.blocks[b].tag] {
      NoOwner(w.objects, b);
    }
  }
}
