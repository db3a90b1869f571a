/** The size-class allocator: a sorted list of parts, each a chunk of equal blocks with a free list. */
module Allocator {
  import opened Base
  import opened Bytecode
  import opened Arith

  const CLASSES: nat := 14
  type Class = c: nat | c < 14
  // The size of a block's header.
  const HEADER: nat := 24

  // Block size, blocks to a part and user bytes of a part, by class.
  const SIZES: seq<nat> := [8, 16, 32, 64, 128, 256, 512, 1024, 2048, 4096, 8192, 16384, 32768, 65535]
  const TOTALS: seq<nat> := [128, 256, 512, 1024, 512, 256, 128, 64, 32, 16, 8, 4, 2, 1]
  const CAPACITIES: seq<nat> := [1024, 4096, 16384, 65536, 65536, 65536, 65536, 65536, 65536, 65536, 65536, 65536,
      65536, 65536]

  /** The classes in numbers: sizes double from 8, but for the last; parts have from 128 blocks up to 1024 and then
      down to one, and hold 64 KB from the fourth class on. A block has a header of 24 bytes before its user bytes. */
  lemma {:induction false} ClassesAre(c: Class, i: nat)
    ensures SIZES[c] == if c < 13 then 8 * Pow2(c) else 65535
    ensures TOTALS[c] == if c < 3 then 128 * Pow2(c) else Pow2(13 - c)
    ensures CAPACITIES[c] == if c < 3 then 1024 * Pow2(c) * Pow2(c) else 65536
    ensures Offset(c, i) == i * (SIZES[c] + 24) + 24
  {
    assert Pow2(4) == 16;
    assert Pow2(8) == 256;
    assert Pow2(12) == 4096;
  }

  /** The first class whose blocks are large enough; none for more than 65535 bytes. */
  function SizeClass(size: nat): Option<Class> {
    ClassFrom(size, 0)
  }

  function ClassFrom(size: nat, c: nat): (r: Option<Class>)
    requires c <= CLASSES
    ensures r.Some? ==> c <= r.value && size <= SIZES[r.value] && forall d :: c <= d < r.value ==> SIZES[d] < size
    ensures r.None? ==> forall d :: c <= d < CLASSES ==> SIZES[d] < size
    decreases CLASSES - c
  {
    if c == CLASSES then None else if size <= SIZES[c] then Some(c) else ClassFrom(size, c + 1)
  }

  /** Requests from 1 to 65535 bytes have a class, and the block is less than twice too large. */
  lemma {:induction false} ClassFits(size: nat)
    ensures SizeClass(size).Some? <==> size <= 65535
    ensures SizeClass(size).Some? ==>
              size <= SIZES[SizeClass(size).value] && (size > 8 ==> SIZES[SizeClass(size).value] < 2 * size)
  {
    var r := SizeClass(size);
    if r.Some? && r.value > 0 { assert SIZES[r.value - 1] < size; }
  }

  /** Where a block's user bytes lie in its part's chunk. */
  function Offset(c: Class, i: nat): nat {
    i * (HEADER + SIZES[c]) + HEADER
  }

  /** Blocks of one part, headers included, do not overlap and stay within the chunk. */
  lemma {:induction false} Disjoint(c: Class, i: nat, j: nat)
    requires i < j < TOTALS[c]
    ensures Offset(c, i) + SIZES[c] <= Offset(c, j) - HEADER
  {
    var w := HEADER + SIZES[c];
    assert (i + 1) * w <= j * w;
  }

  lemma {:induction false} InChunk(c: Class, i: nat)
    requires i < TOTALS[c]
    ensures Offset(c, i) + SIZES[c] <= CAPACITIES[c] + HEADER * TOTALS[c]
  {
    var w := HEADER + SIZES[c];
    assert (i + 1) * w <= TOTALS[c] * w;
    assert TOTALS[c] * SIZES[c] <= CAPACITIES[c];
  }

  /** The blocks of one part have disjoint user bytes, whichever two are taken. */
  lemma {:induction false} Apart(c: Class, i: nat, j: nat, x: nat)
    requires i < TOTALS[c] && j < TOTALS[c] && i != j && Offset(c, i) <= x < Offset(c, i) + SIZES[c]
    ensures !(Offset(c, j) <= x < Offset(c, j) + SIZES[c]) && x < CAPACITIES[c] + HEADER * TOTALS[c]
  {
    InChunk(c, i);
    if i < j { Disjoint(c, i, j); } else { Disjoint(c, j, i); }
  }

  /** A block's header: whether its part is recorded in it, whether it is in use, and the next free block. */
  datatype Block = Block(owned: bool, isUsed: bool, next: Option<nat>)

  ghost predicate Chain(blocks: seq<Block>, first: Option<nat>, free: seq<nat>)
    decreases |free|
  {
    if free == [] then first == None
    else first == Some(free[0]) && free[0] < |blocks| && Chain(blocks, blocks[free[0]].next, free[1..])
  }

  /** Changing a block that is not on the free list leaves the list as it is. */
  lemma {:induction false} ChainKeeps(blocks: seq<Block>, first: Option<nat>, free: seq<nat>, i: nat, b: Block)
    requires Chain(blocks, first, free) && i < |blocks| && i !in free
    ensures Chain(blocks[i := b], first, free)
    decreases |free|
  {
    if free != [] {
      assert free[0] in free;
      ChainKeeps(blocks, blocks[free[0]].next, free[1..], i, b);
    }
  }

  lemma {:induction false} ChainIn(blocks: seq<Block>, first: Option<nat>, free: seq<nat>, k: nat)
    requires Chain(blocks, first, free) && k < |free|
    ensures free[k] < |blocks|
    decreases k
  {
    if k > 0 { ChainIn(blocks, blocks[free[0]].next, free[1..], k - 1); }
  }

  /** The free list of a new part goes through its blocks in order. */
  lemma {:induction false} ChainInOrder(blocks: seq<Block>, i: nat)
    requires i < |blocks|
    requires forall k :: 0 <= k < |blocks| ==> blocks[k].next == if k + 1 < |blocks| then Some(k + 1) else None
    ensures Chain(blocks, Some(i), seq(|blocks| - i, k requires 0 <= k => i + k))
    decreases |blocks| - i
  {
    var free := seq(|blocks| - i, k requires 0 <= k => i + k);
    if i + 1 < |blocks| {
      ChainInOrder(blocks, i + 1);
      assert free[1..] == seq(|blocks| - (i + 1), k requires 0 <= k => i + 1 + k);
    } else {
      assert free[1..] == [];
    }
  }

  function Splice(bytes: seq<Byte>, at: nat, data: seq<Byte>): (r: seq<Byte>)
    requires at + |data| <= |bytes|
    ensures |r| == |bytes|
  {
    bytes[..at] + data + bytes[at + |data|..]
  }

  lemma {:induction false} SpliceHere(bytes: seq<Byte>, at: nat, data: seq<Byte>, n: nat)
    requires |data| <= n && at + n <= |bytes|
    ensures Splice(bytes, at, data)[at..at + n][..|data|] == data
  {
    var r := Splice(bytes, at, data);
    assert r[at..at + n][..|data|] == r[at..at + |data|];
  }

  lemma {:induction false} SpliceElsewhere(bytes: seq<Byte>, at: nat, data: seq<Byte>, b: nat, n: nat)
    requires at + |data| <= |bytes| && b + n <= |bytes| && (b + n <= at || at + |data| <= b)
    ensures Splice(bytes, at, data)[b..b + n] == bytes[b..b + n]
  {
  }

  class Part {
    const size: Class
    var used: nat
    var freeLink: Option<nat>
    var blocks: seq<Block>
    var bytes: seq<Byte>
    var next: Part?
    var prev: Part?
    ghost var free: seq<nat>

    /** Every block is either in use or on the free list once; each header but the last one's names the part. */
    ghost predicate Valid()
      reads `used, `freeLink, `blocks, `bytes, `free
    {
      && |blocks| == TOTALS[size] && |bytes| == CAPACITIES[size] + HEADER * TOTALS[size]
      && Chain(blocks, freeLink, free) && Distinct(free)
      && used + |free| == |blocks|
      && (forall i :: 0 <= i < |blocks| ==> (blocks[i].isUsed <==> i !in free))
      && (forall i :: 0 <= i < |blocks| ==> (blocks[i].owned <==> i + 1 < |blocks|))
    }

    /** A new part: all its blocks free, in order. */
    constructor (c: Class)
      ensures Valid() && size == c && used == 0 && next == null && prev == null && freeLink.Some?
      ensures forall i :: 0 <= i < |blocks| ==> !blocks[i].isUsed && free[i] == i
    {
      size, used, freeLink, next, prev := c, 0, Some(0), null, null;
      var n := TOTALS[c];
      blocks := seq(n, i requires 0 <= i < n => Block(i + 1 < n, false, if i + 1 < n then Some(i + 1) else None));
      bytes := seq(CAPACITIES[c] + HEADER * TOTALS[c], _ => 0);
      free := seq(n, k requires 0 <= k => 0 + k);
      new;
      ChainInOrder(blocks, 0);
      forall i | 0 <= i < n ensures i in free { assert free[i] == i; }
    }

    /** The user bytes of a block. */
    function UserBytes(i: nat): (r: seq<Byte>)
      reads `bytes
      ensures i < TOTALS[size] && |bytes| == CAPACITIES[size] + HEADER * TOTALS[size] ==> |r| == SIZES[size]
    {
      if i < TOTALS[size] && |bytes| == CAPACITIES[size] + HEADER * TOTALS[size] then
        InChunk(size, i);
        bytes[Offset(size, i)..Offset(size, i) + SIZES[size]]
      else []
    }

    /** The first free block is taken. */
    method Take() returns (i: nat)
      requires Valid() && freeLink.Some?
      modifies `used, `freeLink, `blocks, `free
      ensures Valid() && used == old(used) + 1 && i < |blocks| && !old(blocks[i].isUsed) && old(free) == [i] + free
      ensures forall j :: 0 <= j < |blocks| ==> blocks[j].isUsed == (old(blocks[j].isUsed) || j == i)
    {
      ghost var list := free;
      i := freeLink.value;
      freeLink := blocks[i].next;
      used := used + 1;
      blocks := blocks[i := blocks[i].(isUsed := true, next := None)];
      free := list[1..];
      assert i !in free;
      ChainKeeps(old(blocks), freeLink, free, i, blocks[i]);
      forall j | 0 <= j < |blocks| ensures j in free <==> j in list && j != i { }
    }

    /** Bytes written to the front of a block; every other block of the part keeps its own. */
    method Write(i: nat, data: seq<Byte>)
      requires Valid() && i < TOTALS[size] && |data| <= SIZES[size]
      modifies `bytes
      ensures Valid() && UserBytes(i)[..|data|] == data
      ensures forall j :: 0 <= j < TOTALS[size] && j != i ==> UserBytes(j) == old(UserBytes(j))
    {
      hide Offset, Chain, Distinct, Splice;
      InChunk(size, i);
      var at := Offset(size, i);
      ghost var before := bytes;
      bytes := Splice(bytes, at, data);
      SpliceHere(before, at, data, SIZES[size]);
      forall j | 0 <= j < TOTALS[size] && j != i ensures UserBytes(j) == old(UserBytes(j)) {
        InChunk(size, j);
        if i < j { Disjoint(size, i, j); } else { Disjoint(size, j, i); }
        SpliceElsewhere(before, at, data, Offset(size, j), SIZES[size]);
      }
    }

    /** A block in use goes to the front of the free list. */
    method Put(i: nat)
      requires Valid() && i < |blocks| && blocks[i].isUsed
      modifies `used, `freeLink, `blocks, `free
      ensures Valid() && used == old(used) - 1 && freeLink.Some? && free == [i] + old(free)
      ensures forall j :: 0 <= j < |blocks| ==> blocks[j].isUsed == (old(blocks[j].isUsed) && j != i)
    {
      FreeBound(blocks, freeLink, free, i);
      used := used - 1;
      blocks := blocks[i := blocks[i].(isUsed := false, next := freeLink)];
      ChainKeeps(old(blocks), freeLink, free, i, blocks[i]);
      freeLink := Some(i);
      free := [i] + free;
      assert free[1..] == old(free);
    }
  }

  /** The free list has no room for a block in use: it is shorter than the part. */
  lemma {:induction false} FreeBound(blocks: seq<Block>, first: Option<nat>, free: seq<nat>, i: nat)
    requires Chain(blocks, first, free) && Distinct(free) && i < |blocks| && i !in free
    ensures |free| < |blocks|
  {
    forall k | 0 <= k < |free| ensures free[k] < |blocks| { ChainIn(blocks, first, free, k); }
    DistinctFits(free + [i], |blocks|);
  }

  /** The part at a place of the list, or null past its ends. */
  ghost function Nth(parts: seq<Part>, i: int): Part? {
    if 0 <= i < |parts| then parts[i] else null
  }

  ghost predicate Linked(head: Part?, parts: seq<Part>)
    reads (set p | p in parts)`next, (set p | p in parts)`prev
  {
    && head == Nth(parts, 0)
    && (forall i {:trigger parts[i].next} :: 0 <= i < |parts| ==> parts[i].next == Nth(parts, i + 1))
    && (forall i {:trigger parts[i].prev} :: 0 <= i < |parts| ==> parts[i].prev == Nth(parts, i - 1))
  }

  ghost predicate Sorted(parts: seq<Part>) {
    forall i, j :: 0 <= i < j < |parts| ==> parts[i].size <= parts[j].size
  }

  ghost function Capacity(parts: seq<Part>): nat {
    if parts == [] then 0 else Capacity(parts[..|parts| - 1]) + CAPACITIES[parts[|parts| - 1].size]
  }

  lemma {:induction false} CapacityJoin(a: seq<Part>, b: seq<Part>)
    ensures Capacity(a + b) == Capacity(a) + Capacity(b)
    decreases |b|
  {
    if b == [] {
      assert a + b == a;
    } else {
      assert (a + b)[..|a + b| - 1] == a + b[..|b| - 1];
      CapacityJoin(a, b[..|b| - 1]);
    }
  }

  /** A part put into the list at place i. */
  ghost function Inserted(parts: seq<Part>, i: nat, p: Part): seq<Part>
    requires i <= |parts|
  {
    parts[..i] + [p] + parts[i..]
  }

  /** A part put after the parts of its size and smaller ones and before the larger ones. */
  ghost predicate Placed(parts: seq<Part>, p: Part, all: seq<Part>) {
    exists i: nat :: Place(parts, i, p.size) && all == Inserted(parts, i, p)
  }

  ghost predicate Place(parts: seq<Part>, i: nat, c: Class) {
    && i <= |parts|
    && (forall k :: 0 <= k < i ==> parts[k].size <= c)
    && (forall k :: i <= k < |parts| ==> parts[k].size > c)
  }

  ghost function Removed(parts: seq<Part>, i: nat): seq<Part>
    requires i < |parts|
  {
    parts[..i] + parts[i + 1..]
  }

  /** A user pointer: a block of a part. */
  datatype Pointer = Pointer(part: Part, index: nat)

  datatype Outcome = Null | Given(p: Pointer) | TooBig | OutOfMemory

  class Heap {
    var head: Part?
    var totalCapacity: nat
    ghost var parts: seq<Part>

    /** The linked parts in order of size, each of them valid. */
    ghost predicate Valid()
      reads this, parts
    {
      && Linked(head, parts) && Distinct(parts) && Sorted(parts)
      && (forall p :: p in parts ==> p.Valid())
      && totalCapacity == Capacity(parts)
    }

    /** No part is kept whose blocks are all free. */
    ghost predicate Busy()
      reads this, parts
    {
      forall p :: p in parts ==> p.used > 0
    }

    /** The blocks that have been given out and not been freed. */
    ghost function Live(): set<Pointer>
      reads this, parts
    {
      set p, i | p in parts && 0 <= i < |p.blocks| && p.blocks[i].isUsed :: Pointer(p, i)
    }

    constructor ()
      ensures Valid() && Busy() && parts == [] && totalCapacity == 0
    {
      head, totalCapacity, parts := null, 0, [];
    }

    // Whether a part can give out a block of the class.
    ghost predicate HasRoom(p: Part, c: Class)
      reads p`freeLink
    {
      p.size == c && p.freeLink.Some?
    }

    /** The first part from a place on that has a free block of the class. */
    method Search(from: Part?, ghost at: nat, c: Class) returns (part: Part?)
      requires Valid() && at <= |parts| && from == Nth(parts, at)
      ensures part != null ==>
                exists k: nat :: at <= k < |parts| && parts[k] == part && HasRoom(part, c)
                                 && forall j :: at <= j < k ==> !HasRoom(parts[j], c)
      ensures part == null ==> forall k :: at <= k < |parts| ==> !HasRoom(parts[k], c)
    {
      part := from;
      ghost var i := at;
      while part != null
        invariant at <= i <= |parts| && part == Nth(parts, i)
        invariant forall k :: at <= k < i ==> !HasRoom(parts[k], c)
        decreases |parts| - i
      {
        if part.size == c && part.freeLink.Some? { return; }
        part := part.next;
        i := i + 1;
      }
    }

    /** A block of the smallest class that fits. Running out of memory is not an outcome. */
    method AllocateMemory(size: nat) returns (r: Outcome)
      requires Valid() && Busy()
      modifies this, set p | p in parts
      ensures Valid() && Busy() && !r.OutOfMemory?
      ensures r == Null <==> size == 0
      ensures r == TooBig <==> size > 65535
      ensures r.Given? ==> r.p !in old(Live()) && Live() == old(Live()) + {r.p} && size <= SIZES[r.p.part.size]
      ensures r.Given? && r.p.part.size > 0 ==> SIZES[r.p.part.size - 1] < size
      ensures r.Given? && r.p.part in old(parts) ==>
                parts == old(parts) && old(r.p.part.free) == [r.p.index] + r.p.part.free
      ensures r.Given? && r.p.part in old(parts) ==>
                var c := r.p.part.size;
                exists k: nat :: k < |parts| && parts[k] == r.p.part
                                 && forall j :: 0 <= j < k ==> !old(HasRoom(parts[j], c))
      ensures r.Given? && r.p.part !in old(parts) ==>
                && fresh(r.p.part) && r.p.index == 0 && Placed(old(parts), r.p.part, parts)
                && var c := r.p.part.size; forall q :: q in old(parts) ==> !old(HasRoom(q, c))
      ensures !r.Given? ==> parts == old(parts) && Live() == old(Live())
      ensures forall p :: p in old(parts) ==> p in parts && p.bytes == old(p.bytes)
      ensures forall p :: p in old(parts) && !(r.Given? && p == r.p.part) ==> p.free == old(p.free)
      ensures forall p :: p in parts ==> p in old(parts) || fresh(p)
    {
      hide Linked, Capacity, Sorted, Distinct, Chain, Live;
      ClassFits(size);
      if size == 0 { return Null; }
      var c := SizeClass(size);
      if c.None? { return TooBig; }
      var part := FindRoom(c.value);
      if part == null { return OutOfMemory; }
      var index := TakeFrom(part);
      r := Given(Pointer(part, index));
    }

    /** A part with a free block: one of those there are, or a new one put where its size belongs. */
    method FindRoom(c: Class) returns (part: Part?)
      requires Valid() && Busy()
      modifies this, (set p | p in parts)`next, (set p | p in parts)`prev
      ensures Valid() && Live() == old(Live())
      ensures part != null && part in parts && part.size == c && part.freeLink.Some?
      ensures part in old(parts) ==>
                parts == old(parts) && exists k: nat :: k < |parts| && parts[k] == part
                                                        && forall j :: 0 <= j < k ==> !old(HasRoom(parts[j], c))
      ensures part !in old(parts) ==>
                && fresh(part) && part.free != [] && part.free[0] == 0 && Placed(old(parts), part, parts)
                && forall q :: q in old(parts) ==> !old(HasRoom(q, c))
      ensures forall p :: p in parts ==> p == part || p.used > 0
      ensures forall p :: p in old(parts) ==> p in parts
      ensures forall p :: p in parts ==> p in old(parts) || fresh(p)
    {
      hide Linked, Capacity, Sorted, Distinct, Chain, Placed;
      LinkedAt(head, parts);
      part := Search(head, 0, c);
      if part == null {
        ghost var i;
        part, i := NewRoom(c);
        assert HasRoom(parts[i], c);
        part := Search(part, i, c);
      }
    }

    method NewRoom(c: Class) returns (made: Part, ghost i: nat)
      requires Valid() && Busy()
      modifies this, (set p | p in parts)`next, (set p | p in parts)`prev
      ensures Valid() && Live() == old(Live()) && fresh(made) && made.size == c && made.freeLink.Some?
      ensures i < |parts| && parts[i] == made && made == Nth(parts, i)
      ensures made.free != [] && made.free[0] == 0 && Placed(old(parts), made, parts)
      ensures forall p :: p in parts <==> p in old(parts) || p == made
      ensures forall p :: p in parts ==> p == made || p.used > 0
    {
      hide Linked, Capacity, Sorted, Distinct, Chain;
      made := new Part(c);
      AddPart(made);
      ghost var k: nat :| Place(old(parts), k, made.size) && parts == Inserted(old(parts), k, made);
      i := k;
      InsertedIn(old(parts), i, made);
    }

    method TakeFrom(part: Part) returns (index: nat)
      requires Valid() && part in parts && part.freeLink.Some? && forall p :: p in parts ==> p == part || p.used > 0
      modifies part`used, part`freeLink, part`blocks, part`free
      ensures Valid() && Busy() && Pointer(part, index) !in old(Live())
              && Live() == old(Live()) + {Pointer(part, index)} && old(part.free) == [index] + part.free
    {
      hide Linked, Capacity, Sorted, Distinct, Chain;
      index := part.Take();
    }

    /** A block goes back to its part, and a part with no block in use goes back to the system. A block that is not in
        use is refused. The block's header must name its part. */
    method FreeMemory(p: Pointer) returns (ok: bool)
      requires Valid() && Busy() && p.part in parts && p.index < |p.part.blocks| && p.part.blocks[p.index].owned
      modifies this, set q | q in parts
      ensures Valid() && Busy() && ok == (p in old(Live()))
      ensures Live() == old(Live()) - {p}
      ensures forall q :: q in old(parts) ==> q.bytes == old(q.bytes)
      ensures forall q :: q in old(parts) && q in parts ==>
                q.free == (if ok && q == p.part then [p.index] else []) + old(q.free)
      ensures forall q :: q in parts <==> q in old(parts) && (q == p.part && ok ==> old(q.used) > 1)
    {
      hide Linked, Capacity, Sorted, Distinct, Chain;
      if !p.part.blocks[p.index].isUsed { return false; }
      PutBack(p);
      ok := true;
      if p.part.used == 0 {
        NoneLive(p.part);
        ghost var before := parts;
        RemovePart(p.part);
        ghost var i: nat :| i < |before| && before[i] == p.part && parts == Removed(before, i);
        RemovedIn(before, i);
      }
    }

    method PutBack(p: Pointer)
      requires Valid() && Busy() && p in Live()
      modifies p.part`used, p.part`freeLink, p.part`blocks, p.part`free
      ensures Valid() && Live() == old(Live()) - {p} && p.part.used == old(p.part.used) - 1
              && p.part.free == [p.index] + old(p.part.free)
    {
      hide Linked, Capacity, Sorted, Distinct, Chain;
      p.part.Put(p.index);
    }

    /** Moves a block's bytes to a block of another size. Nothing is freed when the new size is refused. */
    method ReallocateMemory(memory: Option<Pointer>, newSize: nat) returns (r: Outcome)
      requires Valid() && Busy()
      requires memory.Some? ==> memory.value in Live() && memory.value.part.blocks[memory.value.index].owned
      modifies this, set q | q in parts
      ensures Valid() && Busy() && !r.OutOfMemory?
      ensures r == Null <==> newSize == 0
      ensures r == TooBig <==> newSize > 65535
      ensures r == Null && memory.Some? ==> Live() == old(Live()) - {memory.value}
      ensures r == TooBig || (r == Null && memory.None?) ==> Live() == old(Live())
      ensures r.Given? ==>
                r.p !in old(Live()) && Live() == old(Live()) - (if memory.Some? then {memory.value} else {}) + {r.p}
      ensures r.Given? && memory.Some? ==>
                var n := if newSize < SIZES[memory.value.part.size] then newSize else SIZES[memory.value.part.size];
                n <= |r.p.part.UserBytes(r.p.index)|
                && r.p.part.UserBytes(r.p.index)[..n] == old(memory.value.part.UserBytes(memory.value.index))[..n]
      ensures forall q ::
              q in old(Live()) && memory != Some(q) ==> q.part.UserBytes(q.index) == old(q.part.UserBytes(q.index))
    {
      hide Linked, Capacity, Sorted, Distinct, Chain, Part.UserBytes;
      if newSize == 0 {
        if memory.Some? { var _ := FreeMemory(memory.value); }
        return Null;
      }
      r := AllocateMemory(newSize);
      if memory.None? || !r.Given? { return; }
      Copy(memory.value, r.p, newSize);
      var _ := FreeMemory(memory.value);
    }

    /** The common prefix of two blocks' user bytes. */
    method Copy(from: Pointer, to: Pointer, newSize: nat)
      requires Valid() && Busy() && from in Live() && to in Live() && from != to && newSize <= SIZES[to.part.size]
      modifies to.part`bytes
      ensures Valid() && Busy() && Live() == old(Live())
      ensures var n := if newSize < SIZES[from.part.size] then newSize else SIZES[from.part.size];
              n <= |to.part.UserBytes(to.index)| && n <= old(|from.part.UserBytes(from.index)|)
              && to.part.UserBytes(to.index)[..n] == old(from.part.UserBytes(from.index))[..n]
      ensures forall q :: q in Live() && q != to ==> q.part.UserBytes(q.index) == old(q.part.UserBytes(q.index))
    {
      hide Linked, Capacity, Sorted, Distinct, Chain, Part.UserBytes;
      var n := if newSize < SIZES[from.part.size] then newSize else SIZES[from.part.size];
      to.part.Write(to.index, from.part.UserBytes(from.index)[..n]);
    }

    /** Sorted insertion, after the parts of the same size. */
    method AddPart(part: Part)
      requires Valid() && part !in parts && part.Valid() && part.next == null && part.prev == null
      modifies this, part`next, part`prev, (set p | p in parts)`next, (set p | p in parts)`prev
      ensures Valid() && Placed(old(parts), part, parts)
    {
      hide Linked, Capacity, Sorted, Part.Valid, Distinct;
      ghost var before := parts;
      ghost var i: nat;
      var prev, current;
      prev, current, i := FindPlace(part);
      LinkIn(part, prev, current, i);
      totalCapacity := totalCapacity + CAPACITIES[part.size];
      parts := Inserted(before, i, part);
      InsertedCapacity(before, i, part);
      InsertedOnce(before, i, part);
    }

    method LinkIn(part: Part, prev: Part?, current: Part?, ghost i: nat)
      requires Linked(head, parts) && Distinct(parts) && part !in parts && part.next == null && part.prev == null
      requires i <= |parts| && current == Nth(parts, i) && prev == Nth(parts, i - 1)
      modifies `head, part`next, part`prev, (set p | p in parts)`next, (set p | p in parts)`prev
      ensures Linked(head, Inserted(parts, i, part))
    {
      LinkedAt(head, parts);
      hide Linked, Inserted;
      NthIn(parts, i);
      if prev == null {
        part.next := current;
        head := part;
        if current != null { current.prev := part; }
      } else {
        part.next := prev.next;
        prev.next := part;
        part.prev := prev;
        if part.next != null { part.next.prev := part; }
      }
      InsertedLinked(head, parts, i, part);
    }

    /** Where a part belongs: before the first larger one. */
    method FindPlace(part: Part) returns (prev: Part?, current: Part?, ghost i: nat)
      requires Valid() && part !in parts
      ensures i <= |parts| && current == Nth(parts, i) && prev == Nth(parts, i - 1) && Sorted(Inserted(parts, i, part))
              && Place(parts, i, part.size)
    {
      prev, current, i := null, head, 0;
      while current != null
        invariant i <= |parts| && current == Nth(parts, i) && prev == Nth(parts, i - 1)
        invariant forall k :: 0 <= k < i ==> parts[k].size <= part.size
        decreases |parts| - i
      {
        if part.size < current.size { break; }
        prev, current := current, current.next;
        i := i + 1;
      }
    }

    method RemovePart(part: Part)
      requires Valid() && part in parts
      modifies this, (set p | p in parts)`next, (set p | p in parts)`prev
      ensures Valid() && exists i: nat :: i < |old(parts)| && old(parts)[i] == part && parts == Removed(old(parts), i)
    {
      hide Linked, Capacity, Sorted, Part.Valid, Distinct;
      ghost var before := parts;
      ghost var i :| 0 <= i < |before| && before[i] == part;
      LinkOut(part, i);
      RemovedCapacity(before, i);
      totalCapacity := totalCapacity - CAPACITIES[part.size];
      parts := Removed(before, i);
      RemovedOnce(before, i);
    }

    method LinkOut(part: Part, ghost i: nat)
      requires Linked(head, parts) && Distinct(parts) && i < |parts| && parts[i] == part
      modifies `head, (set p | p in parts)`next, (set p | p in parts)`prev
      ensures Linked(head, Removed(parts, i))
    {
      LinkedAt(head, parts);
      hide Linked, Removed;
      NthIn(parts, i + 1);
      NthIn(parts, i);
      var next, prev := part.next, part.prev;
      if next != null { next.prev := prev; }
      if prev != null { prev.next := next; } else { head := next; }
      RemovedLinked(head, parts, i);
    }
  }

  /** Neighbours in the list are parts of it, each different from all others. */
  lemma {:induction false} NthIn(parts: seq<Part>, i: nat)
    requires Distinct(parts) && i <= |parts|
    ensures Nth(parts, i) != null ==>
              i < |parts| && forall k :: 0 <= k < |parts| ==> (parts[k] == Nth(parts, i) <==> k == i)
    ensures Nth(parts, i - 1) != null ==>
              i > 0 && forall k :: 0 <= k < |parts| ==> (parts[k] == Nth(parts, i - 1) <==> k == i - 1)
  {
  }

  lemma {:induction false} InsertedOnce(parts: seq<Part>, i: nat, p: Part)
    requires Distinct(parts) && i <= |parts| && p !in parts
    ensures Distinct(Inserted(parts, i, p)) && forall q :: q in Inserted(parts, i, p) <==> q in parts || q == p
  {
    InsertedIn(parts, i, p);
  }

  lemma {:induction false} InsertedIn(parts: seq<Part>, i: nat, p: Part)
    requires i <= |parts|
    ensures forall q :: q in Inserted(parts, i, p) <==> q in parts || q == p
  {
    assert parts == parts[..i] + parts[i..];
  }

  lemma {:induction false} RemovedIn(parts: seq<Part>, i: nat)
    requires i < |parts| && Distinct(parts)
    ensures forall q :: q in Removed(parts, i) <==> q in parts && q != parts[i]
  {
    assert parts == parts[..i] + [parts[i]] + parts[i + 1..];
  }

  /** A part with no block in use has every block on its free list. */
  lemma {:induction false} NoneLive(p: Part)
    requires p.Valid() && p.used == 0
    ensures forall i :: 0 <= i < |p.blocks| ==> !p.blocks[i].isUsed
  {
    forall i | 0 <= i < |p.blocks| ensures !p.blocks[i].isUsed {
      if p.blocks[i].isUsed { FreeBound(p.blocks, p.freeLink, p.free, i); }
    }
  }

  lemma {:induction false} RemovedOnce(parts: seq<Part>, i: nat)
    requires Distinct(parts) && i < |parts|
    ensures Distinct(Removed(parts, i)) && forall q :: q in Removed(parts, i) <==> q in parts && q != parts[i]
    ensures Sorted(parts) ==> Sorted(Removed(parts, i))
  {
    assert parts == parts[..i] + [parts[i]] + parts[i + 1..];
  }

  lemma {:induction false} LinkedAt(head: Part?, parts: seq<Part>)
    requires Linked(head, parts)
    ensures head == Nth(parts, 0)
    ensures forall i {:trigger parts[i].next} :: 0 <= i < |parts| ==> parts[i].next == Nth(parts, i + 1)
    ensures forall i {:trigger parts[i].prev} :: 0 <= i < |parts| ==> parts[i].prev == Nth(parts, i - 1)
  {
  }

  lemma {:induction false} InsertedLinked(head: Part?, before: seq<Part>, i: nat, p: Part)
    requires i <= |before| && head == Nth(Inserted(before, i, p), 0)
    requires forall k {:trigger before[k].next} ::
             0 <= k < |before| ==> before[k].next == if k + 1 == i then p else Nth(before, k + 1)
    requires forall k {:trigger before[k].prev} ::
             0 <= k < |before| ==> before[k].prev == if k == i then p else Nth(before, k - 1)
    requires p.next == Nth(before, i) && p.prev == Nth(before, i - 1)
    ensures Linked(head, Inserted(before, i, p))
  {
    var all := Inserted(before, i, p);
    forall k | 0 <= k < |all| ensures all[k].next == Nth(all, k + 1) && all[k].prev == Nth(all, k - 1) {
      if k < i { assert all[k] == before[k]; } else if k > i { assert all[k] == before[k - 1]; }
    }
  }

  lemma {:induction false} InsertedCapacity(before: seq<Part>, i: nat, p: Part)
    requires i <= |before|
    ensures Capacity(Inserted(before, i, p)) == Capacity(before) + CAPACITIES[p.size]
  {
    CapacityJoin(before[..i] + [p], before[i..]);
    CapacityJoin(before[..i], [p]);
    CapacityJoin(before[..i], before[i..]);
    assert before == before[..i] + before[i..];
    assert Capacity([p]) == CAPACITIES[p.size] by { assert [p][..0] == []; }
  }

  lemma {:induction false} RemovedCapacity(before: seq<Part>, i: nat)
    requires i < |before|
    ensures Capacity(Removed(before, i)) + CAPACITIES[before[i].size] == Capacity(before)
  {
    InsertedCapacity(Removed(before, i), i, before[i]);
    assert Inserted(Removed(before, i), i, before[i]) == before;
  }

  lemma {:induction false} RemovedLinked(head: Part?, before: seq<Part>, i: nat)
    requires i < |before| && head == Nth(Removed(before, i), 0)
    requires forall k {:trigger before[k].next} ::
               0 <= k < |before| && k != i ==>
                   before[k].next == if k + 1 == i then Nth(before, i + 1) else Nth(before, k + 1)
    requires forall k {:trigger before[k].prev} ::
               0 <= k < |before| && k != i ==>
                   before[k].prev == if k == i + 1 then Nth(before, i - 1) else Nth(before, k - 1)
    ensures Linked(head, Removed(before, i))
  {
    var all := Removed(before, i);
    forall k | 0 <= k < |all| ensures all[k].next == Nth(all, k + 1) && all[k].prev == Nth(all, k - 1) {
      if k < i { assert all[k] == before[k]; } else { assert all[k] == before[k + 1]; }
    }
  }

  /** The last block of a part has no owner in its header, so it can be given out but not freed; for requests of more
      than 32768 bytes that is the part's only block. */
  lemma {:induction false} NeverFreed(p: Part, size: nat)
    requires p.Valid() && SizeClass(size) == Some(p.size)
    ensures !p.blocks[|p.blocks| - 1].owned
    ensures size > 32768 <==> forall i :: 0 <= i < |p.blocks| ==> !p.blocks[i].owned
  {
    ClassFits(size);
    if size <= 32768 {
      assert p.size < 13;
      assert p.blocks[0].owned;
    } else {
      assert p.size == 13;
    }
  }
}
