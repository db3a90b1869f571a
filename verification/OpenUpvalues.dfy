/** Captured variables at run time: open upvalues point into the stack, closed ones hold their value. */
module OpenUpvalues {
  import opened Base
  import opened Syntax
  import opened Bytecode
  import Closures

  class Upvalue {
    var location: nat
    var isClosed: bool
    var closed: Value
    var next: Upvalue?

    constructor (slot: nat, rest: Upvalue?)
      ensures location == slot && !isClosed && next == rest
    {
      location, isClosed, closed, next := slot, false, Nil, rest;
    }

    /** The order of the list compares addresses; a closed upvalue points into the heap, above every stack slot. */
    predicate Above(slot: nat)
      reads `isClosed, `location
    {
      isClosed || location > slot
    }
  }

  class Captures {
    const stack: array<Value>
    var open: Upvalue?
    ghost var list: seq<Upvalue>

    constructor (capacity: nat)
      ensures Valid() && fresh(stack) && stack.Length == capacity && list == []
    {
      stack, open, list := new Value[capacity](_ => Nil), null, [];
    }

    /** The linked nodes are list; closed ones come first, then open ones in strictly descending order of slot. */
    ghost predicate Valid()
      reads this, list
    {
      Linked(open, list) && Ordered(list) && InStack(list, stack.Length)
    }

    /** The value a captured variable has now. */
    ghost function Read(u: Upvalue): Value
      requires !u.isClosed ==> u.location < stack.Length
      reads this, u, stack
    {
      if u.isClosed then u.closed else stack[u.location]
    }

    /** The place of a slot in the list: everything before it lies above, nothing from it on does. */
    method Find(slot: nat) returns (prev: Upvalue?, curr: Upvalue?, ghost i: nat)
      requires Valid()
      ensures i <= |list| && curr == Nth(list, i) && prev == (if i == 0 then null else list[i - 1])
      ensures forall k :: 0 <= k < i ==> list[k].Above(slot)
      ensures i < |list| ==> !list[i].Above(slot)
    {
      prev, curr, i := null, open, 0;
      while curr != null && curr.Above(slot)
        invariant i <= |list| && curr == Nth(list, i) && prev == (if i == 0 then null else list[i - 1])
        invariant forall k :: 0 <= k < i ==> list[k].Above(slot)
        decreases |list| - i
      {
        prev, curr := curr, curr.next;
        i := i + 1;
      }
    }

    /** Finds the open upvalue of a slot, or links a new one where the order puts it. */
    method Capture(slot: nat) returns (u: Upvalue)
      requires Valid() && slot < stack.Length
      modifies this`open, this`list, set v | v in list
      ensures Valid() && u in list && !u.isClosed && u.location == slot
      ensures u in old(list) <==> exists v :: v in old(list) && !old(v.isClosed) && old(v.location) == slot
      ensures u in old(list) ==> list == old(list)
      ensures u !in old(list) ==> fresh(u) && forall v :: v in list <==> v in old(list) || v == u
      ensures forall v :: v in old(list) ==>
                v.isClosed == old(v.isClosed) && v.location == old(v.location) && v.closed == old(v.closed)
    {
      hide Ordered, Linked;
      ghost var i: nat;
      var prev, curr;
      prev, curr, i := Find(slot);
      SlotPlace(list, slot, i);
      if curr != null && curr.location == slot {
        return curr;
      }
      u := new Upvalue(slot, curr);
      Link(prev, u, slot, i);
    }

    method Link(prev: Upvalue?, u: Upvalue, slot: nat, ghost i: nat)
      requires Valid() && slot < stack.Length && u !in list && i <= |list|
      requires !u.isClosed && u.location == slot && u.next == Nth(list, i)
      requires prev == (if i == 0 then null else list[i - 1])
      requires forall k :: 0 <= k < i ==> list[k].Above(slot)
      requires i < |list| ==> !list[i].Above(slot) && list[i].location != slot
      modifies this`open, this`list, (set v | v in list)`next
      ensures Valid() && list == old(list)[..i] + [u] + old(list)[i..]
      ensures forall v :: v in old(list) || v == u ==>
                v.isClosed == old(v.isClosed) && v.location == old(v.location) && v.closed == old(v.closed)
    {
      hide Linked, Ordered, InStack;
      ghost var before := list;
      NotAgain(before, i - 1);
      LinkedParts(open, before);
      list := before[..i] + [u] + before[i..];
      if prev == null {
        open := u;
      } else {
        prev.next := u;
      }
      InsertOrdered(before, i, u, slot, stack.Length);
      InsertLinked(before, i, u, open);
    }

    /** Every upvalue of a slot strictly above last takes its value with it. */
    method Close(last: nat)
      requires Valid()
      modifies list
      ensures Valid()
      ensures forall u :: u in list ==>
                u.location == old(u.location) && u.isClosed == old(u.isClosed || u.location > last)
      ensures forall u :: u in list ==> Read(u) == old(Read(u))
    {
      hide Linked;
      ghost var n := CloseFront(last);
    }

    /** The walk of close_upvalues: it closes the nodes before the first one not above last. */
    method CloseFront(last: nat) returns (ghost n: nat)
      requires Valid()
      modifies (set u | u in list)`isClosed, (set u | u in list)`closed
      ensures n <= |list| && (n < |list| ==> !old(list[n].Above(last)))
      ensures forall k ::
              0 <= k < n ==> old(list[k].Above(last)) && list[k].isClosed && list[k].closed == old(Read(list[k]))
      ensures forall k ::
              n <= k < |list| ==> list[k].isClosed == old(list[k].isClosed) && list[k].closed == old(list[k].closed)
    {
      NoneTwice(list);
      LinkedParts(open, list);
      hide Ordered, Linked;
      var curr := open;
      n := 0;
      while curr != null && curr.Above(last)
        invariant n <= |list| && curr == Nth(list, n)
        invariant forall k ::
                  0 <= k < n ==> old(list[k].Above(last)) && list[k].isClosed && list[k].closed == old(Read(list[k]))
        invariant forall k ::
                  n <= k < |list| ==> list[k].isClosed == old(list[k].isClosed) && list[k].closed == old(list[k].closed)
        decreases |list| - n
      {
        if !curr.isClosed {
          curr.closed := stack[curr.location];
          curr.isClosed := true;
        }
        curr := curr.next;
        n := n + 1;
      }
    }

    method SetLocal(slot: nat, v: Value)
      requires Valid() && slot < stack.Length
      modifies stack
      ensures Valid() && stack[slot] == v
      ensures forall u :: u in list ==> Read(u) == if !u.isClosed && u.location == slot then v else old(Read(u))
    {
      stack[slot] := v;
    }

    /** op_get_upvalue: the slot while it is open, the upvalue's own value afterwards. */
    method GetUpvalue(u: Upvalue) returns (v: Value)
      requires Valid() && u in list
      ensures v == Read(u)
    {
      v := if u.isClosed then u.closed else stack[u.location];
    }

    /** Assignment through an upvalue: to the slot while it is open, to the upvalue itself afterwards. */
    method SetUpvalue(u: Upvalue, v: Value)
      requires Valid() && u in list
      modifies stack, u`closed
      ensures Valid() && Read(u) == v
      ensures forall w :: w in list && w != u ==> Read(w) == old(Read(w))
    {
      OneOpen(list, u);
      if u.isClosed {
        u.closed := v;
      } else {
        stack[u.location] := v;
      }
    }

    /** op_return: the frame's slots are given up, its result takes their place. Every upvalue of a slot strictly
        above the frame's base keeps its variable's value; one of the base slot itself is left open and now reads the
        result. */
    method Return(base: nat, top: nat) returns (newTop: nat)
      requires Valid() && base < top <= stack.Length
      modifies stack, list
      ensures Valid() && newTop == base + 1 && stack[base] == old(stack[top - 1])
      ensures forall u :: u in list && old(u.isClosed || u.location != base) ==> Read(u) == old(Read(u))
      ensures forall u :: u in list && old(!u.isClosed && u.location > base) ==> u.isClosed
      ensures forall u ::
              u in list && old(!u.isClosed && u.location == base) ==> !u.isClosed && Read(u) == old(stack[top - 1])
    {
      hide Linked, Ordered;
      var result := stack[top - 1];
      Close(base);
      SetLocal(base, result);
      newTop := base + 1;
    }

    /** op_close_upvalue at the end of a block closes what lies strictly above the slot it pops, so never that slot. */
    method CloseTop(top: nat) returns (newTop: nat)
      requires Valid() && 0 < top <= stack.Length
      modifies list
      ensures Valid() && newTop == top - 1
      ensures forall u :: u in list ==> Read(u) == old(Read(u)) && u.location == old(u.location)
      ensures forall u :: u in list ==> u.isClosed == old(u.isClosed || u.location > top - 1)
    {
      hide Linked, Ordered;
      Close(top - 1);
      newTop := top - 1;
    }

    /** op_closure: each descriptor becomes an upvalue, captured from the running frame or handed on from its closure.
        When the running closure's upvalues are the cells of the variables its descriptors lead to, so are the new
        one's, the running frame's captured slots having become cells as well. */
    method MakeClosure(base: nat, levels: seq<Closures.Level>, k: nat, mine: seq<Upvalue>,
        ghost cells: map<Closures.Variable, Upvalue>)
      returns (ptrs: seq<Upvalue>, ghost inner: map<Closures.Variable, Upvalue>)
      requires Valid() && 0 < k < |levels| && Closures.Valid(levels) && |mine| == |levels[k - 1].upvalues|
      requires base + |levels[k - 1].locals| <= stack.Length && CellsOf(cells, k - 1, list)
      requires forall i :: 0 <= i < |mine| ==> Mine(levels, k - 1, i, mine[i], cells)
      modifies this`open, this`list, set v | v in list
      ensures Valid() && |ptrs| == |levels[k].upvalues| && CellsOf(inner, k, list)
      ensures forall u :: u in old(list) ==> u in list
      ensures forall u :: u in list ==> u in old(list) || fresh(u)
      ensures forall u :: u in old(list) ==>
                u.isClosed == old(u.isClosed) && u.location == old(u.location) && u.closed == old(u.closed)
      ensures forall i :: 0 <= i < |ptrs| ==> ptrs[i] in list && Mine(levels, k, i, ptrs[i], inner)
      ensures Added(cells, inner, k - 1, base)
    {
      hide Linked, Ordered, InStack, Closures.WellFormed, Closures.Follow, Closures.Unpack, Mine, CellsOf, Added;
      ptrs, inner := [], cells;
      CellsWiden(cells, k, list);
      NoneAdded(cells, k - 1, base);
      while |ptrs| < |levels[k].upvalues|
        invariant |ptrs| <= |levels[k].upvalues| && Valid() && CellsOf(inner, k, list)
                  && Added(cells, inner, k - 1, base)
        invariant CellsOf(cells, k - 1, list)
        invariant forall u :: u in old(list) ==> u in list
        invariant forall u :: u in list ==> u in old(list) || fresh(u)
        invariant forall u :: u in old(list) ==>
          u.isClosed == old(u.isClosed) && u.location == old(u.location) && u.closed == old(u.closed)
        invariant forall i :: 0 <= i < |ptrs| ==> ptrs[i] in list && Mine(levels, k, i, ptrs[i], inner)
        decreases |levels[k].upvalues| - |ptrs|
      {
        ghost var before := list;
        var u;
        u, inner := FillOne(base, levels, k, |ptrs|, mine, cells, inner);
        CellsGrow(cells, k - 1, before, list);
        ptrs := ptrs + [u];
      }
    }

    /** Closures made one inside the other, each by the function of the one before, all of whose frames are live: at any
        depth, every upvalue is the open cell of the slot of the variable that its descriptors lead to. */
    method Nest(bases: seq<nat>, levels: seq<Closures.Level>) returns (closures: seq<seq<Upvalue>>)
      requires Valid() && Closures.Valid(levels) && 0 < |levels| == |bases|
      requires forall k :: 0 <= k < |levels| ==> bases[k] + |levels[k].locals| <= stack.Length
      modifies this`open, this`list, set v | v in list
      ensures Valid() && |closures| == |levels|
      ensures forall k :: 0 <= k < |levels| ==> Denotes(levels, k, closures[k], bases, list)
    {
      hide Linked, Ordered, InStack, Closures.WellFormed, Closures.Follow, Closures.Unpack, Mine;
      var mine: seq<Upvalue> := [];
      closures := [mine];
      ghost var cells: map<Closures.Variable, Upvalue> := map[];
      NoCells(levels);
      for k := 1 to |levels|
        invariant Valid() && |closures| == k && |mine| == |levels[k - 1].upvalues|
        invariant forall u :: u in list ==> u in old(list) || fresh(u)
        invariant CellsOf(cells, k - 1, list) && Placed(cells, bases)
        invariant forall i :: 0 <= i < |mine| ==> Mine(levels, k - 1, i, mine[i], cells)
        invariant forall j :: 0 <= j < k ==> Denotes(levels, j, closures[j], bases, list)
      {
        mine, cells := MakeClosure(bases[k - 1], levels, k, mine, cells);
        MadeDenotes(levels, k, mine, bases, cells, list);
        closures := closures + [mine];
      }
    }

    /** One descriptor. A slot that already has a cell is captured again as that very cell. */
    method FillOne(base: nat, levels: seq<Closures.Level>, k: nat, i: nat, mine: seq<Upvalue>,
                   ghost cells: map<Closures.Variable, Upvalue>, ghost inner: map<Closures.Variable, Upvalue>)
      returns (u: Upvalue, ghost more: map<Closures.Variable, Upvalue>)
      requires Valid() && 0 < k < |levels| && Closures.Valid(levels) && |mine| == |levels[k - 1].upvalues|
      requires i < |levels[k].upvalues| && base + |levels[k - 1].locals| <= stack.Length
      requires CellsOf(cells, k - 1, list) && CellsOf(inner, k, list) && Added(cells, inner, k - 1, base)
      requires forall j :: 0 <= j < |mine| ==> Mine(levels, k - 1, j, mine[j], cells)
      modifies this`open, this`list, set v | v in list
      ensures Valid() && forall w :: w in old(list) ==> w in list
      ensures forall w :: w in list ==> w in old(list) || fresh(w)
      ensures forall w :: w in old(list) ==>
                w.isClosed == old(w.isClosed) && w.location == old(w.location) && w.closed == old(w.closed)
      ensures CellsOf(more, k, list) && Added(cells, more, k - 1, base)
      ensures u in list && Mine(levels, k, i, u, more)
      ensures forall j, w ::
              0 <= j < |levels[k].upvalues| && Mine(levels, k, j, w, inner) ==> Mine(levels, k, j, w, more)
    {
      hide Linked, Ordered, InStack, Closures.WellFormed, Closures.Follow, Closures.Unpack;
      DescriptorLeads(levels, k, i);
      var d := Closures.Unpack(levels[k].upvalues[i]);
      ghost var v := Closures.Follow(levels, k, levels[k].upvalues[i]);
      if d.isLocal {
        u := Capture(base + d.index);
        OneOpen(list, u);
        more := if v in inner then inner else inner[v := u];
      } else {
        u := mine[d.index];
        assert Mine(levels, k - 1, d.index, u, cells);
        more := inner;
      }
    }
  }

  /** An upvalue a running closure holds is the cell of the variable its descriptor leads to. */
  ghost predicate Mine(levels: seq<Closures.Level>, k: nat, i: nat, u: Upvalue, cells: map<Closures.Variable, Upvalue>)
    requires Closures.WellFormed(levels) && k < |levels| && i < |levels[k].upvalues|
  {
    var v := Closures.Follow(levels, k, levels[k].upvalues[i]);
    v in cells && cells[v] == u
  }

  /** Cells of variables that functions around function k declare. */
  ghost predicate CellsOf(cells: map<Closures.Variable, Upvalue>, k: nat, list: seq<Upvalue>) {
    forall v :: v in cells ==> v.level < k && cells[v] in list
  }

  /** The new cells are open upvalues of slots of function k's frame; the cells there were before are as they were. */
  ghost predicate Added(cells: map<Closures.Variable, Upvalue>, inner: map<Closures.Variable, Upvalue>, k: nat,
      base: nat)
    reads inner.Values
  {
    && (forall v :: v in cells ==> v in inner && inner[v] == cells[v])
    && (forall v ::
        v in inner && v !in cells ==> v.level == k && !inner[v].isClosed && inner[v].location == base + v.slot)
  }

  /** Every cell is the open upvalue of its variable's slot. */
  ghost predicate Placed(cells: map<Closures.Variable, Upvalue>, bases: seq<nat>)
    reads cells.Values
  {
    forall v :: v in cells ==> v.level < |bases| && !cells[v].isClosed && cells[v].location == bases[v.level] + v.slot
  }

  /** A closure's upvalues are the open cells of the slots of the variables that its function's descriptors lead to. */
  ghost predicate Denotes(levels: seq<Closures.Level>, k: nat, ptrs: seq<Upvalue>, bases: seq<nat>, list: seq<Upvalue>)
    requires Closures.WellFormed(levels) && k < |levels|
    reads ptrs
  {
    && |ptrs| == |levels[k].upvalues|
    && forall i :: 0 <= i < |ptrs| ==>
         var v := Closures.Follow(levels, k, levels[k].upvalues[i]);
         ptrs[i] in list && !ptrs[i].isClosed && v.level < |bases| && ptrs[i].location == bases[v.level] + v.slot
  }

  lemma {:induction false} MadeDenotes(levels: seq<Closures.Level>, k: nat, ptrs: seq<Upvalue>, bases: seq<nat>,
                                       cells: map<Closures.Variable, Upvalue>, list: seq<Upvalue>)
    requires Closures.WellFormed(levels) && k < |levels| && |ptrs| == |levels[k].upvalues| && Placed(cells, bases)
    requires forall i :: 0 <= i < |ptrs| ==> ptrs[i] in list && Mine(levels, k, i, ptrs[i], cells)
    ensures Denotes(levels, k, ptrs, bases, list)
  {
    forall i | 0 <= i < |ptrs|
      ensures var v := Closures.Follow(levels, k, levels[k].upvalues[i]);
              !ptrs[i].isClosed && v.level < |bases| && ptrs[i].location == bases[v.level] + v.slot
    {
      assert Mine(levels, k, i, ptrs[i], cells);
    }
  }

  /** The outermost function has nothing to capture. */
  lemma {:induction false} NoCells(levels: seq<Closures.Level>)
    requires Closures.Valid(levels) && levels != []
    ensures levels[0].upvalues == []
  {
    assert levels[0].upvalues == [] || Closures.Grounded(levels, 0, levels[0].upvalues[0]);
  }

  lemma {:induction false} CellsWiden(cells: map<Closures.Variable, Upvalue>, k: nat, list: seq<Upvalue>)
    requires k > 0 && CellsOf(cells, k - 1, list)
    ensures CellsOf(cells, k, list)
  {
  }

  lemma {:induction false} CellsGrow(cells: map<Closures.Variable, Upvalue>, k: nat, before: seq<Upvalue>,
      list: seq<Upvalue>)
    requires CellsOf(cells, k, before) && forall u :: u in before ==> u in list
    ensures CellsOf(cells, k, list)
  {
  }

  lemma {:induction false} NoneAdded(cells: map<Closures.Variable, Upvalue>, k: nat, base: nat)
    ensures Added(cells, cells, k, base)
  {
  }

  lemma {:induction false} DescriptorLeads(levels: seq<Closures.Level>, k: nat, i: nat)
    requires 0 < k < |levels| && Closures.Valid(levels) && i < |levels[k].upvalues|
    ensures Closures.WellFormed(levels) && Closures.Grounded(levels, k, levels[k].upvalues[i])
    ensures var d := Closures.Unpack(levels[k].upvalues[i]);
            var v := Closures.Follow(levels, k, levels[k].upvalues[i]);
            if d.isLocal then d.index < |levels[k - 1].locals| && v == Closures.Variable(k - 1, d.index)
            else
              d.index < |levels[k - 1].upvalues| && k - 1 > 0
                  && v == Closures.Follow(levels, k - 1, levels[k - 1].upvalues[d.index])
              && v.level < k - 1
  {
    var d := Closures.Unpack(levels[k].upvalues[i]);
    assert Closures.Grounded(levels, k, levels[k].upvalues[i]);
    if !d.isLocal {
      assert Closures.Grounded(levels, k - 1, levels[k - 1].upvalues[d.index]);
      FollowsOut(levels, k - 1, levels[k - 1].upvalues[d.index]);
    }
  }

  lemma {:induction false} FollowsOut(levels: seq<Closures.Level>, k: nat, b: Byte)
    requires Closures.WellFormed(levels) && Closures.Grounded(levels, k, b)
    ensures Closures.Follow(levels, k, b).level < k
    decreases k
  {
    var d := Closures.Unpack(b);
    if !d.isLocal { FollowsOut(levels, k - 1, levels[k - 1].upvalues[d.index]); }
  }

  /** An open slot has one upvalue. */
  lemma {:induction false} OneOpen(list: seq<Upvalue>, u: Upvalue)
    requires Ordered(list) && u in list
    ensures forall w :: w in list && w != u && !w.isClosed && !u.isClosed ==> w.location != u.location
  {
    var i :| 0 <= i < |list| && list[i] == u;
    forall w | w in list && w != u && !w.isClosed && !u.isClosed ensures w.location != u.location {
      var j :| 0 <= j < |list| && list[j] == w;
    }
  }

  /** The nodes of list are linked in that order from head. */
  ghost predicate Linked(head: Upvalue?, list: seq<Upvalue>)
    reads (set u | u in list)`next
  {
    && head == Nth(list, 0)
    && forall i {:trigger list[i].next} :: 0 <= i < |list| ==> list[i].next == Nth(list, i + 1)
  }

  /** The node at a place of the list, or null past its end. */
  ghost function Nth(list: seq<Upvalue>, i: nat): Upvalue? {
    if i < |list| then list[i] else null
  }

  ghost predicate InStack(list: seq<Upvalue>, size: nat)
    reads (set u | u in list)`isClosed, (set u | u in list)`location
  {
    forall i :: 0 <= i < |list| && !list[i].isClosed ==> list[i].location < size
  }

  /** No node twice, closed before open, open ones strictly descending. */
  ghost predicate Ordered(list: seq<Upvalue>)
    reads (set u | u in list)`isClosed, (set u | u in list)`location
  {
    forall i, j :: 0 <= i < j < |list| ==>
      && list[i] != list[j]
      && (list[j].isClosed ==> list[i].isClosed)
      && (!list[i].isClosed && !list[j].isClosed ==> list[i].location > list[j].location)
  }

  lemma {:induction false} NotAgain(list: seq<Upvalue>, i: int)
    requires Ordered(list)
    ensures 0 <= i < |list| ==> forall k :: 0 <= k < |list| && k != i ==> list[k] != list[i]
  {
  }

  lemma {:induction false} NoneTwice(list: seq<Upvalue>)
    requires Ordered(list)
    ensures Distinct(list)
  {
  }

  /** Below the place of a slot, only the very first node can be an open upvalue of it. */
  lemma {:induction false} SlotPlace(list: seq<Upvalue>, slot: nat, i: nat)
    requires Ordered(list) && i <= |list|
    requires forall k :: 0 <= k < i ==> list[k].Above(slot)
    requires i < |list| ==> !list[i].Above(slot)
    ensures forall v :: v in list && !v.isClosed && v.location == slot ==> i < |list| && v == list[i]
  {
    forall v | v in list && !v.isClosed && v.location == slot ensures i < |list| && v == list[i] {
      var k :| 0 <= k < |list| && list[k] == v;
    }
  }

  lemma {:induction false} LinkedParts(head: Upvalue?, list: seq<Upvalue>)
    requires Linked(head, list)
    ensures head == Nth(list, 0)
    ensures forall i {:trigger list[i].next} :: 0 <= i < |list| ==> list[i].next == Nth(list, i + 1)
  {
  }

  lemma {:induction false} InsertLinked(before: seq<Upvalue>, i: nat, u: Upvalue, head: Upvalue?)
    requires i <= |before| && u.next == Nth(before, i)
    requires head == if i == 0 then u else Nth(before, 0)
    requires forall k {:trigger before[k].next} ::
             0 <= k < |before| && k != i - 1 ==> before[k].next == Nth(before, k + 1)
    requires i > 0 ==> before[i - 1].next == u
    ensures Linked(head, before[..i] + [u] + before[i..])
  {
    var after := before[..i] + [u] + before[i..];
    forall k {:trigger after[k].next} | 0 <= k < |after| ensures after[k].next == Nth(after, k + 1) {
      if k < i {
        assert after[k] == before[k];
      } else if k > i {
        assert after[k] == before[k - 1];
      }
    }
  }

  lemma {:induction false} InsertOrdered(before: seq<Upvalue>, i: nat, u: Upvalue, slot: nat, size: nat)
    requires InStack(before, size) && slot < size && Ordered(before) && i <= |before| && u !in before && !u.isClosed
             && u.location == slot
    requires forall k :: 0 <= k < i ==> before[k].Above(slot)
    requires i < |before| ==> !before[i].Above(slot) && before[i].location != slot
    ensures Ordered(before[..i] + [u] + before[i..]) && InStack(before[..i] + [u] + before[i..], size)
  {
    var after := before[..i] + [u] + before[i..];
    forall a, b | 0 <= a < b < |after|
      ensures after[a] != after[b] && (after[b].isClosed ==> after[a].isClosed)
      ensures !after[a].isClosed && !after[b].isClosed ==> after[a].location > after[b].location
    {
      if b == i {
        assert after[a] == before[a];
      } else if a == i {
        assert after[b] == before[b - 1];
      } else {
        assert after[a] == before[if a < i then a else a - 1];
        assert after[b] == before[if b < i then b else b - 1];
      }
    }
  }
}
