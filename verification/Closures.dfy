/** Lexical addressing: which variable a function's descriptors lead to, through any number of enclosing functions. */
module Closures {
  import opened Base
  import opened Syntax
  import opened Bytecode

  const UPVALUES_MAX: nat := 128

  // depth -1 marks a variable whose initialiser is being compiled. CodeGen's record, which is for one function, has no
  // captured flag.
  datatype Local = Local(name: Name, depth: int, captured: bool)

  /** One function being compiled: its locals and the descriptors of the outer variables it uses. */
  datatype Level = Level(locals: seq<Local>, upvalues: seq<Byte>)

  datatype Descriptor = Descriptor(isLocal: bool, index: nat)

  /** The flag is or-ed over the index's high bit. */
  function Pack(d: Descriptor): Byte
    requires d.index < 256
  {
    if d.isLocal && d.index < 128 then d.index + 128 else d.index
  }

  function Unpack(b: Byte): Descriptor {
    Descriptor(b >= 128, b % 128)
  }

  /** The packed form is read back exactly for indices of seven bits, and for no others. */
  lemma {:induction false} PackExact(d: Descriptor)
    requires d.index < 256
    ensures Unpack(Pack(d)) == d <==> d.index < 128
  {
  }

  /** The newest local of a name. */
  function Newest(locals: seq<Local>, x: Name): (r: Option<nat>)
    ensures r.Some? ==> r.value < |locals| && locals[r.value].name == x
    ensures r.Some? ==> forall i :: r.value < i < |locals| ==> locals[i].name != x
    ensures r.None? ==> forall i :: 0 <= i < |locals| ==> locals[i].name != x
  {
    if locals == [] then None
    else if locals[|locals| - 1].name == x then Some(|locals| - 1)
    else Newest(locals[..|locals| - 1], x)
  }

  // A variable: the function that declares it, counted from the outermost, and its slot there.
  datatype Variable = Variable(level: nat, slot: nat)

  /** The innermost declaration of x in the functions around function k. */
  function Innermost(levels: seq<Level>, k: nat, x: Name): (r: Option<Variable>)
    requires k < |levels|
    ensures r.Some? ==> r.value.level < k && r.value.slot < |levels[r.value.level].locals|
                        && levels[r.value.level].locals[r.value.slot].name == x
  {
    if k == 0 then None
    else
      var i := Newest(levels[k - 1].locals, x);
      if i.Some? then Some(Variable(k - 1, i.value)) else Innermost(levels, k - 1, x)
  }

  /** Every descriptor names a local or a descriptor of the function just outside. */
  ghost predicate WellFormed(levels: seq<Level>) {
    forall k, u :: 0 <= k < |levels| && 0 <= u < |levels[k].upvalues| ==> Grounded(levels, k, levels[k].upvalues[u])
  }

  ghost predicate Grounded(levels: seq<Level>, k: nat, b: Byte) {
    && 0 < k <= |levels|
    && var d := Unpack(b);
       if d.isLocal then d.index < |levels[k - 1].locals| else d.index < |levels[k - 1].upvalues|
  }

  /** The variable a descriptor of function k leads to. */
  function Follow(levels: seq<Level>, k: nat, b: Byte): Variable
    requires WellFormed(levels) && Grounded(levels, k, b)
    decreases k
  {
    var d := Unpack(b);
    if d.isLocal then Variable(k - 1, d.index) else Follow(levels, k - 1, levels[k - 1].upvalues[d.index])
  }

  /** Descriptors never name more than a function can have, and no function has one twice. */
  ghost predicate Valid(levels: seq<Level>) {
    && WellFormed(levels)
    && forall k ::
        0 <= k < |levels| ==>
            |levels[k].upvalues| <= UPVALUES_MAX && Distinct(levels[k].upvalues) && |levels[k].locals| <= 256
  }

  /** Locals keep their names and depths; a function's descriptors are only ever added to. */
  ghost predicate Extends(a: seq<Level>, b: seq<Level>) {
    && |a| == |b|
    && forall k :: 0 <= k < |a| ==> SameLocals(a[k].locals, b[k].locals) && a[k].upvalues <= b[k].upvalues
  }

  ghost predicate SameLocals(a: seq<Local>, b: seq<Local>) {
    |a| == |b| && forall i :: 0 <= i < |a| ==> a[i].name == b[i].name && a[i].depth == b[i].depth
  }

  /** As seen from function k: the functions around it have the locals they had, and no descriptor up to it is lost. */
  ghost predicate Keeps(a: seq<Level>, b: seq<Level>, k: nat) {
    && k < |a| && k < |b|
    && (forall j :: 0 <= j < k ==> SameLocals(a[j].locals, b[j].locals))
    && (forall j :: 0 <= j <= k ==> a[j].upvalues <= b[j].upvalues)
  }

  /** Every function that is being compiled before and after is kept. */
  ghost predicate KeepsAll(a: seq<Level>, b: seq<Level>) {
    forall k: nat :: k < |a| && k < |b| ==> Keeps(a, b, k)
  }

  lemma {:induction false} ExtendsKeeps(a: seq<Level>, b: seq<Level>)
    requires Extends(a, b)
    ensures KeepsAll(a, b)
  {
  }

  lemma {:induction false} KeepsTrans(a: seq<Level>, b: seq<Level>, c: seq<Level>, k: nat)
    requires Keeps(a, b, k) && Keeps(b, c, k)
    ensures Keeps(a, c, k)
  {
  }

  /** One thing that can happen to the chain: a function is begun, the innermost one finished or its locals changed, or
      functions get descriptors. */
  ghost predicate Happens(a: seq<Level>, b: seq<Level>) {
    || (exists x :: b == a + [Fresh(x)])
    || (|a| > 1 && b == a[..|a| - 1])
    || (a != [] && exists locals :: b == Relocal(a, locals))
    || Extends(a, b)
  }

  lemma {:induction false} HappensKeeps(a: seq<Level>, b: seq<Level>)
    requires Happens(a, b)
    ensures KeepsAll(a, b)
  {
  }

  /** A history of the chain, during all of which function k is being compiled. */
  ghost predicate History(h: seq<seq<Level>>, k: nat) {
    && h != []
    && (forall i :: 0 <= i < |h| ==> WellFormed(h[i]) && k < |h[i]|)
    && (forall i :: 0 <= i < |h| - 1 ==> Happens(h[i], h[i + 1]))
  }

  lemma {:induction false} HistoryKeeps(h: seq<seq<Level>>, k: nat)
    requires History(h, k)
    ensures Keeps(h[0], h[|h| - 1], k)
    decreases |h|
  {
    hide WellFormed, Happens, Keeps;
    if |h| == 1 {
      KeepsSame(h[0], k);
    } else {
      HistoryKeeps(h[..|h| - 1], k);
      HappensKeeps(h[|h| - 2], h[|h| - 2 + 1]);
      KeepsTrans(h[0], h[|h| - 2], h[|h| - 1], k);
    }
  }

  lemma {:induction false} KeepsSame(a: seq<Level>, k: nat)
    requires k < |a|
    ensures Keeps(a, a, k)
  {
  }

  /** Over any history a descriptor of a function that is being compiled all the while leads where it did at first. */
  lemma {:induction false} FollowForever(h: seq<seq<Level>>, k: nat, d: Byte)
    requires History(h, k) && Grounded(h[0], k, d)
    ensures Grounded(h[|h| - 1], k, d) && Follow(h[|h| - 1], k, d) == Follow(h[0], k, d)
  {
    hide Happens, Keeps;
    HistoryKeeps(h, k);
    FollowStable(h[0], h[|h| - 1], k, d);
  }

  /** As long as function k is being compiled, nothing done since changes what one of its descriptors leads to. */
  lemma {:induction false} FollowStable(a: seq<Level>, b: seq<Level>, k: nat, d: Byte)
    requires WellFormed(a) && WellFormed(b) && Keeps(a, b, k) && Grounded(a, k, d)
    ensures Grounded(b, k, d) && Follow(b, k, d) == Follow(a, k, d)
    decreases k
  {
    var u := Unpack(d);
    if !u.isLocal {
      assert b[k - 1].upvalues[u.index] == a[k - 1].upvalues[u.index];
      FollowStable(a, b, k - 1, a[k - 1].upvalues[u.index]);
    }
  }

  datatype Ended = Ended(locals: seq<Local>, bytes: seq<Byte>)

  /** The locals left when a scope ends, and what is emitted for each local it drops, newest first: the captured ones
      are closed, the others popped. */
  function ScopeEnd(locals: seq<Local>, depth: int): (r: Ended)
    ensures r.locals <= locals && |r.bytes| == |locals| - |r.locals|
    ensures forall i :: |r.locals| <= i < |locals| ==> locals[i].depth > depth
    ensures r.locals != [] ==> r.locals[|r.locals| - 1].depth <= depth
    ensures forall i :: 0 <= i < |r.bytes| ==> r.bytes[i] == if locals[|locals| - 1 - i].captured then 45 else 0
  {
    if locals == [] || locals[|locals| - 1].depth <= depth then Ended(locals, [])
    else
      var last := |locals| - 1;
      var rest := ScopeEnd(locals[..last], depth);
      Ended(rest.locals, [if locals[last].captured then 45 else 0] + rest.bytes)
  }

  datatype Resolved = Found(index: nat) | NotFound | Fails

  lemma {:induction false} ScopeStep(locals: seq<Local>, depth: int)
    ensures locals == [] || locals[|locals| - 1].depth <= depth ==> ScopeEnd(locals, depth) == Ended(locals, [])
    ensures locals != [] && locals[|locals| - 1].depth > depth ==>
              var last := |locals| - 1;
              var rest := ScopeEnd(locals[..last], depth);
              ScopeEnd(locals, depth) == Ended(rest.locals, [if locals[last].captured then 45 else 0] + rest.bytes)
  {
  }

  lemma {:induction false} Regroup(a: seq<Byte>, b: Byte, c: seq<Byte>)
    ensures a + ([b] + c) == a + [b] + c
  {
  }

  lemma {:induction false} NothingBefore(a: seq<Byte>)
    ensures [] + a == a && a + [] == a
  {
  }

  function Fresh(slot0: Name): Level {
    Level([Local(slot0, 0, false)], [])
  }

  /** The innermost function's locals replaced. */
  function Relocal(levels: seq<Level>, locals: seq<Local>): seq<Level>
    requires levels != []
  {
    levels[|levels| - 1 := levels[|levels| - 1].(locals := locals)]
  }

  /** The chain of compilers, outermost first; function k is enclosed by function k - 1. */
  class Compilers {
    var levels: seq<Level>

    /** The script: its slot 0 is reserved. */
    constructor ()
      ensures Valid(levels) && levels == [Level([Local("", 0, false)], [])]
    {
      levels := [Fresh("")];
    }

    /** An inner function begins with slot 0 only, which is its receiver in a method. */
    method Enter(receiver: bool)
      requires Valid(levels)
      modifies this
      ensures Valid(levels)
      ensures levels == old(levels) + [Level([Local(if receiver then "self" else "", 0, false)], [])]
      ensures Happens(old(levels), levels)
    {
      EnterValid(levels, if receiver then "self" else "");
      levels := levels + [Fresh(if receiver then "self" else "")];
    }

    /** The innermost function is finished; its descriptors are what op_closure will read. */
    method Leave() returns (descriptors: seq<Byte>)
      requires Valid(levels) && |levels| > 1
      modifies this
      ensures Valid(levels) && levels == old(levels)[..|old(levels)| - 1] && Happens(old(levels), levels)
      ensures descriptors == old(levels)[|old(levels)| - 1].upvalues
    {
      LeaveValid(levels);
      descriptors := levels[|levels| - 1].upvalues;
      levels := levels[..|levels| - 1];
    }

    /** A new local of the innermost function, not yet defined; there is room for 256. */
    method DeclareLocal(x: Name) returns (ok: bool)
      requires Valid(levels) && levels != []
      modifies this
      ensures Valid(levels) && Happens(old(levels), levels)
      ensures var last := |old(levels)| - 1;
              && ok == (|old(levels)[last].locals| < 256)
              && levels == if ok then
                             var f := old(levels)[last];
                             old(levels)[last := Level(f.locals + [Local(x, -1, false)], f.upvalues)]
                           else old(levels)
    {
      var locals := levels[|levels| - 1].locals;
      if |locals| == 256 { return false; }
      RelocalValid(levels, locals + [Local(x, -1, false)]);
      levels := Relocal(levels, locals + [Local(x, -1, false)]);
      ok := true;
    }

    /** The newest local becomes usable. */
    method DefineLocal(depth: nat)
      requires Valid(levels) && levels != [] && levels[|levels| - 1].locals != []
      modifies this
      ensures Valid(levels) && Happens(old(levels), levels)
      ensures var last := |old(levels)| - 1;
              var f, i := old(levels)[last], |old(levels)[last].locals| - 1;
              levels == old(levels)[last := Level(f.locals[i := f.locals[i].(depth := depth)], f.upvalues)]
    {
      var locals := levels[|levels| - 1].locals;
      var defined := locals[|locals| - 1 := locals[|locals| - 1].(depth := depth)];
      RelocalValid(levels, defined);
      levels := Relocal(levels, defined);
    }

    /** The locals of the scope that ends are dropped. */
    method EndScope(depth: nat) returns (bytes: seq<Byte>)
      requires Valid(levels) && levels != []
      modifies this
      ensures Valid(levels) && Happens(old(levels), levels)
      ensures var last := |old(levels)| - 1;
              var r := ScopeEnd(old(levels)[last].locals, depth);
              levels == old(levels)[last := Level(r.locals, old(levels)[last].upvalues)] && bytes == r.bytes
    {
      var locals;
      locals, bytes := DropLocals(levels[|levels| - 1].locals, depth);
      RelocalValid(levels, locals);
      levels := Relocal(levels, locals);
    }

    static method DropLocals(whole: seq<Local>, depth: nat) returns (locals: seq<Local>, bytes: seq<Byte>)
      ensures Ended(locals, bytes) == ScopeEnd(whole, depth)
    {
      hide ScopeEnd;
      locals, bytes := whole, [];
      NothingBefore(ScopeEnd(whole, depth).bytes);
      while locals != [] && locals[|locals| - 1].depth > depth
        invariant locals <= whole && ScopeEnd(whole, depth).locals == ScopeEnd(locals, depth).locals
        invariant ScopeEnd(whole, depth).bytes == bytes + ScopeEnd(locals, depth).bytes
        decreases |locals|
      {
        ScopeStep(locals, depth);
        var byte := if locals[|locals| - 1].captured then 45 else 0;
        Regroup(bytes, byte, ScopeEnd(locals[..|locals| - 1], depth).bytes);
        bytes := bytes + [byte];
        locals := locals[..|locals| - 1];
      }
      ScopeStep(locals, depth);
      NothingBefore(bytes);
    }

    /** The index of the newest local of that name, whether or not it is defined yet. */
    method ResolveLocal(k: nat, x: Name) returns (r: Option<nat>)
      requires k < |levels|
      ensures r == Newest(levels[k].locals, x)
    {
      var locals := levels[k].locals;
      var i := |locals| - 1;
      while i >= 0
        invariant -1 <= i < |locals|
        invariant forall j :: i < j < |locals| ==> locals[j].name != x
      {
        if locals[i].name == x {
          NewestIs(locals, x, i);
          return Some(i);
        }
        i := i - 1;
      }
      r := None;
      var _ := Newest(locals, x);
    }

    /** Finds the descriptor among function k's, or adds it at the end. A full table is refused before it is searched.
        */
    method AddUpvalue(k: nat, info: Byte) returns (r: Option<nat>)
      requires k < |levels| && Valid(levels) && Grounded(levels, k, info)
      modifies this
      ensures Valid(levels) && Extends(old(levels), levels)
      ensures r.Some? ==> r.value < |levels[k].upvalues| && levels[k].upvalues[r.value] == info
      ensures r.None? <==> |old(levels)[k].upvalues| == 128
      ensures r.None? ==>
                levels == old(levels) && forall n: nat :: |levels[k].upvalues| <= n < 256 ==>
                  Unpack(Pack(Descriptor(false, n))) != Descriptor(false, n)
      ensures levels == old(levels)
              || levels == old(levels)[k := old(levels)[k].(upvalues := old(levels)[k].upvalues + [info])]
    {
      var ups := levels[k].upvalues;
      if |ups| == UPVALUES_MAX { return None; }
      var i := 0;
      while i < |ups|
        invariant 0 <= i <= |ups| && info !in ups[..i]
      {
        if ups[i] == info { return Some(i); }
        assert ups[..i + 1] == ups[..i] + [ups[i]];
        i := i + 1;
      }
      assert ups[..|ups|] == ups;
      AddValid(levels, k, info);
      levels := levels[k := levels[k].(upvalues := ups + [info])];
      r := Some(i);
    }

    method MarkCaptured(k: nat, i: nat)
      requires k < |levels| && i < |levels[k].locals| && Valid(levels)
      modifies this
      ensures Valid(levels) && Extends(old(levels), levels) && levels[k].locals[i].captured
      ensures forall j :: 0 <= j < |levels| ==> levels[j].upvalues == old(levels)[j].upvalues
      ensures forall j :: 0 <= j < |levels| && j != k ==> levels[j] == old(levels)[j]
      ensures Marks(old(levels), levels, Variable(k, i))
    {
      MarkValid(levels, k, i);
      levels := levels[k := levels[k].(locals := levels[k].locals[i := levels[k].locals[i].(captured := true)])];
    }

    /** A local of the function just outside, whose newest declaration of x is at slot i. */
    method CaptureLocal(k: nat, x: Name, i: nat) returns (r: Resolved)
      requires 0 < k < |levels| && Valid(levels) && Newest(levels[k - 1].locals, x) == Some(i)
      modifies this
      ensures Valid(levels) && Extends(old(levels), levels)
      ensures r.Found? <==> old(levels)[k - 1].locals[i].depth != -1 && |old(levels)[k].upvalues| < 128
      ensures r.Found? ==> r.index < |levels[k].upvalues| && Leads(old(levels), levels, k, r.index, x)
      ensures !r.NotFound? && forall j :: k < j < |levels| ==> levels[j] == old(levels)[j]
      ensures if old(levels)[k - 1].locals[i].depth == -1 then levels == old(levels)
              else Marks(old(levels), levels, Variable(k - 1, i)) && Adds(old(levels), levels, k - 1, k)
    {
      hide WellFormed, Leads, Marks;
      if levels[k - 1].locals[i].depth == -1 { return Fails; }
      ghost var before := levels;
      MarkCaptured(k - 1, i);
      ghost var marked := levels;
      LocalGrounded(levels, k, i);
      var u := AddUpvalue(k, Pack(Descriptor(true, i)));
      MarksThen(before, marked, levels, Variable(k - 1, i));
      if u.None? { return Fails; }
      r := Found(u.value);
      ExtendsTrans(before, marked, levels);
      LocalLeads(before, levels, k, u.value, x);
    }

    /** resolve_upvalue: looks for x in the functions around function k and gives function k a descriptor for it. That
        works exactly if the innermost declaration is defined and no function from there to k has all of 128. */
    method ResolveUpvalue(k: nat, x: Name) returns (r: Resolved)
      requires k < |levels| && Valid(levels)
      modifies this
      ensures Valid(levels) && Extends(old(levels), levels)
      ensures r.NotFound? <==> Innermost(old(levels), k, x).None?
      ensures r.Found? <==>
                && Innermost(old(levels), k, x).Some? && !Undefined(old(levels), k, x)
                && forall j :: Innermost(old(levels), k, x).value.level < j <= k ==> |old(levels)[j].upvalues| < 128
      ensures r.Found? ==> r.index < |levels[k].upvalues| && Leads(old(levels), levels, k, r.index, x)
      ensures forall j :: k < j < |levels| ==> levels[j] == old(levels)[j]
      ensures var v := Innermost(old(levels), k, x);
              if v.None? || Undefined(old(levels), k, x) then levels == old(levels)
              else Marks(old(levels), levels, v.value) && Adds(old(levels), levels, v.value.level, k)
      decreases k
    {
      hide WellFormed, Leads, Extends, Marks, Adds;
      if k == 0 {
        ExtendsSame(levels);
        return NotFound;
      }
      ghost var before := levels;
      var local := ResolveLocal(k - 1, x);
      if local.Some? {
        r := CaptureLocal(k, x, local.value);
      } else {
        var up := ResolveUpvalue(k - 1, x);
        if !up.Found? {
          AddsMore(before, levels, Innermost(before, k, x), k);
          return up;
        }
        SameSize(before, levels);
        r := PassOn(k, x, up.index, before);
      }
    }

    /** A descriptor for what the function just outside has a descriptor for. */
    method PassOn(k: nat, x: Name, index: nat, ghost before: seq<Level>) returns (r: Resolved)
      requires 0 < k < |levels| && Valid(levels) && Extends(before, levels) && |before| == |levels|
      requires Newest(before[k - 1].locals, x).None? && Innermost(before, k, x).Some?
      requires index < |levels[k - 1].upvalues| && Leads(before, levels, k - 1, index, x)
      requires var v := Innermost(before, k, x).value;
               v.level < k - 1 && Marks(before, levels, v) && Adds(before, levels, v.level, k - 1)
      modifies this
      ensures Valid(levels) && Extends(before, levels) && !r.NotFound? && |levels| == |before|
      ensures r.Found? <==> |old(levels)[k].upvalues| < 128
      ensures r.Found? ==> r.index < |levels[k].upvalues| && Leads(before, levels, k, r.index, x)
      ensures forall j :: k < j < |levels| ==> levels[j] == old(levels)[j]
      ensures var v := Innermost(before, k, x).value; Marks(before, levels, v) && Adds(before, levels, v.level, k)
    {
      hide WellFormed, Leads, Extends, Marks, Adds;
      ghost var inner, v := levels, Innermost(before, k, x).value;
      UpvalueGrounded(levels, k, index);
      var u := AddUpvalue(k, Pack(Descriptor(false, index)));
      ExtendsTrans(before, inner, levels);
      MarksThen(before, inner, levels, v);
      AddsThen(before, inner, levels, v.level, k);
      if u.None? { return Fails; }
      r := Found(u.value);
      UpvalueLeads(before, inner, levels, k, index, u.value, x);
    }
  }

  /** The variable, and no other, has become a captured one. */
  ghost predicate Marks(a: seq<Level>, b: seq<Level>, v: Variable) {
    && |a| == |b|
    && forall j :: 0 <= j < |a| ==>
         && |a[j].locals| == |b[j].locals|
         && forall i :: 0 <= i < |a[j].locals| ==>
              b[j].locals[i] == if v == Variable(j, i) then a[j].locals[i].(captured := true) else a[j].locals[i]
  }

  /** Only the functions between have new descriptors, each at most one. */
  ghost predicate Adds(a: seq<Level>, b: seq<Level>, low: nat, k: nat) {
    && |a| == |b|
    && forall j :: 0 <= j < |a| ==>
         if low < j <= k then a[j].upvalues <= b[j].upvalues && |b[j].upvalues| <= |a[j].upvalues| + 1
         else b[j].upvalues == a[j].upvalues
  }

  lemma {:induction false} MarksThen(a: seq<Level>, b: seq<Level>, c: seq<Level>, v: Variable)
    requires Marks(a, b, v) && |b| == |c| && forall j :: 0 <= j < |b| ==> c[j].locals == b[j].locals
    ensures Marks(a, c, v)
  {
  }

  lemma {:induction false} AddsThen(a: seq<Level>, b: seq<Level>, c: seq<Level>, low: nat, k: nat)
    requires low < k < |a| && Adds(a, b, low, k - 1)
    requires c == b || exists info :: c == b[k := b[k].(upvalues := b[k].upvalues + [info])]
    ensures Adds(a, c, low, k)
  {
  }

  lemma {:induction false} AddsMore(a: seq<Level>, b: seq<Level>, v: Option<Variable>, k: nat)
    ensures v.Some? && k > 0 && Adds(a, b, v.value.level, k - 1) ==> Adds(a, b, v.value.level, k)
  {
  }

  lemma {:induction false} ExtendsSame(a: seq<Level>)
    ensures Extends(a, a)
  {
  }

  lemma {:induction false} SameSize(a: seq<Level>, b: seq<Level>)
    requires Extends(a, b)
    ensures |a| == |b|
  {
  }

  /** The variable resolution stops at is declared but not yet defined. */
  ghost predicate Undefined(levels: seq<Level>, k: nat, x: Name)
    requires k < |levels|
  {
    var v := Innermost(levels, k, x);
    v.Some? && levels[v.value.level].locals[v.value.slot].depth == -1
  }

  /** The descriptor leads to the innermost declaration, given that its slot fits in seven bits; a slot that does not
      leads 128 slots too low. */
  ghost predicate Leads(before: seq<Level>, after: seq<Level>, k: nat, u: nat, x: Name)
    requires k < |before| && WellFormed(after) && k < |after| && u < |after[k].upvalues|
  {
    var v := Innermost(before, k, x);
    v.Some? && Follow(after, k, after[k].upvalues[u]) == Variable(v.value.level, v.value.slot % 128)
  }

  /** A resolved name leads to its innermost declaration exactly when that declaration's slot is below 128. */
  lemma {:induction false} AddressedRight(before: seq<Level>, after: seq<Level>, k: nat, u: nat, x: Name)
    requires k < |before| && WellFormed(after) && k < |after| && u < |after[k].upvalues|
             && Leads(before, after, k, u, x)
    ensures Innermost(before, k, x).Some?
    ensures Follow(after, k, after[k].upvalues[u]) == Innermost(before, k, x).value <==>
              Innermost(before, k, x).value.slot < 128
  {
  }

  lemma {:induction false} EnterValid(levels: seq<Level>, slot0: Name)
    requires Valid(levels)
    ensures Valid(levels + [Fresh(slot0)])
  {
    var b := levels + [Fresh(slot0)];
    forall k, u | 0 <= k < |b| && 0 <= u < |b[k].upvalues| ensures Grounded(b, k, b[k].upvalues[u]) {
      assert Grounded(levels, k, levels[k].upvalues[u]);
    }
  }

  lemma {:induction false} LeaveValid(levels: seq<Level>)
    requires Valid(levels) && levels != []
    ensures var b := levels[..|levels| - 1]; Valid(b)
  {
    var b := levels[..|levels| - 1];
    forall k, u | 0 <= k < |b| && 0 <= u < |b[k].upvalues| ensures Grounded(b, k, b[k].upvalues[u]) {
      assert Grounded(levels, k, levels[k].upvalues[u]);
    }
  }

  /** No descriptor names a local of the innermost function, so its locals may change freely. */
  lemma {:induction false} RelocalValid(levels: seq<Level>, locals: seq<Local>)
    requires Valid(levels) && levels != [] && |locals| <= 256
    ensures Valid(Relocal(levels, locals))
  {
    var b := Relocal(levels, locals);
    forall k, u | 0 <= k < |b| && 0 <= u < |b[k].upvalues| ensures Grounded(b, k, b[k].upvalues[u]) {
      assert Grounded(levels, k, levels[k].upvalues[u]);
    }
  }

  lemma {:induction false} NewestIs(locals: seq<Local>, x: Name, i: nat)
    requires i < |locals| && locals[i].name == x && forall j :: i < j < |locals| ==> locals[j].name != x
    ensures Newest(locals, x) == Some(i)
  {
  }

  lemma {:induction false} AddValid(levels: seq<Level>, k: nat, info: Byte)
    requires k < |levels| && Valid(levels) && Grounded(levels, k, info)
    requires |levels[k].upvalues| < UPVALUES_MAX && info !in levels[k].upvalues
    ensures var b := levels[k := levels[k].(upvalues := levels[k].upvalues + [info])]; Valid(b) && Extends(levels, b)
  {
    var b := levels[k := levels[k].(upvalues := levels[k].upvalues + [info])];
    forall j, u | 0 <= j < |b| && 0 <= u < |b[j].upvalues| ensures Grounded(b, j, b[j].upvalues[u]) {
      if j != k || u < |levels[k].upvalues| { assert Grounded(levels, j, levels[j].upvalues[u]); }
    }
  }

  lemma {:induction false} MarkValid(levels: seq<Level>, k: nat, i: nat)
    requires k < |levels| && i < |levels[k].locals| && Valid(levels)
    ensures var b := levels[k := levels[k].(locals := levels[k].locals[i := levels[k].locals[i].(captured := true)])];
            Valid(b) && Extends(levels, b)
  {
    var b := levels[k := levels[k].(locals := levels[k].locals[i := levels[k].locals[i].(captured := true)])];
    forall j, u | 0 <= j < |b| && 0 <= u < |b[j].upvalues| ensures Grounded(b, j, b[j].upvalues[u]) {
      assert Grounded(levels, j, levels[j].upvalues[u]);
    }
  }

  lemma {:induction false} ExtendsTrans(a: seq<Level>, b: seq<Level>, c: seq<Level>)
    requires Extends(a, b) && Extends(b, c)
    ensures Extends(a, c)
  {
  }

  lemma {:induction false} LocalGrounded(levels: seq<Level>, k: nat, i: nat)
    requires 0 < k < |levels| && i < |levels[k - 1].locals| <= 256
    ensures Grounded(levels, k, Pack(Descriptor(true, i)))
            && Unpack(Pack(Descriptor(true, i))) == Descriptor(true, i % 128)
  {
  }

  lemma {:induction false} UpvalueGrounded(levels: seq<Level>, k: nat, u: nat)
    requires 0 < k < |levels| && u < |levels[k - 1].upvalues| <= UPVALUES_MAX
    ensures Grounded(levels, k, Pack(Descriptor(false, u)))
            && Unpack(Pack(Descriptor(false, u))) == Descriptor(false, u)
  {
  }

  lemma {:induction false} LocalLeads(before: seq<Level>, after: seq<Level>, k: nat, u: nat, x: Name)
    requires 0 < k < |before| && Extends(before, after) && Valid(after) && Newest(before[k - 1].locals, x).Some?
    requires |before[k - 1].locals| <= 256
    requires u < |after[k].upvalues| && after[k].upvalues[u] ==
               Pack(Descriptor(true, Newest(before[k - 1].locals, x).value))
    ensures Leads(before, after, k, u, x)
  {
    LocalGrounded(before, k, Newest(before[k - 1].locals, x).value);
    assert Grounded(after, k, after[k].upvalues[u]);
  }

  lemma {:induction false} UpvalueLeads(before: seq<Level>, inner: seq<Level>, after: seq<Level>, k: nat, v: nat,
      u: nat, x: Name)
    requires 0 < k < |before| && Extends(before, inner) && Extends(inner, after) && Valid(inner) && Valid(after)
    requires Newest(before[k - 1].locals, x).None?
    requires v < |inner[k - 1].upvalues| && Leads(before, inner, k - 1, v, x)
    requires u < |after[k].upvalues| && after[k].upvalues[u] == Pack(Descriptor(false, v))
    ensures Leads(before, after, k, u, x)
  {
    assert Grounded(inner, k - 1, inner[k - 1].upvalues[v]);
    assert Grounded(after, k, after[k].upvalues[u]);
    UpvalueGrounded(inner, k, v);
    ExtendsKeeps(inner, after);
    FollowStable(inner, after, k - 1, inner[k - 1].upvalues[v]);
    assert after[k - 1].upvalues[v] == inner[k - 1].upvalues[v];
  }
}
