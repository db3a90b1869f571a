/** Emitted bytes are whole instructions, and every jump among them lands where one starts. */
module Boundaries {
  import opened Base
  import opened Syntax
  import opened Bytecode
  import opened CodeGen

  /** From a position on, the bytes are instructions one after the other, none of them cut off. */
  ghost predicate Whole(code: seq<Byte>, from: nat)
    decreases |code| - from
  {
    from == |code| || (Decode(code, from).Some? && Whole(code, from + Width(code[from])))
  }

  /** An instruction starts at t, or the code ends there, when read from a position on. */
  ghost predicate Start(code: seq<Byte>, from: nat, t: int)
    decreases |code| - from
  {
    t == from || (from < t && Decode(code, from).Some? && Start(code, from + Width(code[from]), t))
  }

  /** Where an instruction at p may send the machine, other than to the next one. */
  function Leaves(i: Instr, p: int): Option<int> {
    match i
    case IJumpIfFalse(off) => Some(p + 3 + off)
    case IJumpIfNeq(off) => Some(p + 3 + off)
    case IJump(off) => Some(p + 3 + off)
    case IBreak(off) => Some(p + 3 + off)
    case IMatch(off) => Some(p + 3 + off)
    case ILoop(off) => Some(p + 3 - off)
    case IContinue(off) => Some(p + 3 - off)
    case _ => None
  }

  function Target(code: seq<Byte>, p: nat): Option<int> {
    var i :- Decode(code, p);
    Leaves(i, p)
  }

  /** An instruction's jump, if it has one, goes to another instruction of the code or to one of the places left
      open. */
  ghost predicate Jumps(code: seq<Byte>, p: nat, open: set<int>) {
    var t := Target(code, p);
    t.Some? ==> Start(code, 0, t.value) || t.value in open
  }

  /** Whole instructions whose jumps are right, but for the break whose operand is still to be patched. */
  ghost predicate Good(o: Out, open: set<int>) {
    && Whole(o.code, 0)
    && (forall p: nat :: p < |o.code| && Start(o.code, 0, p) && p + 1 != o.hole ==> Jumps(o.code, p, open))
    && (o.hole >= 0 ==> 1 <= o.hole < |o.code| && Start(o.code, 0, o.hole - 1) && o.code[o.hole - 1] == 48)
  }

  lemma {:induction false} StartWithin(code: seq<Byte>, from: nat, t: int)
    requires Start(code, from, t) && from <= |code|
    ensures from <= t <= |code|
    decreases |code| - from
  {
    if t != from { StartWithin(code, from + Width(code[from]), t); }
  }

  /** An instruction that starts in whole code is decoded, and another starts right after it. */
  lemma {:induction false} NextStart(code: seq<Byte>, from: nat, t: int)
    requires Whole(code, from) && Start(code, from, t) && t < |code|
    ensures t >= 0 && Decode(code, t).Some? && Start(code, from, t + Width(code[t]))
    decreases |code| - from
  {
    var next := from + Width(code[from]);
    if t == from {
      assert Start(code, next, next);
    } else {
      NextStart(code, next, t);
    }
  }

  lemma {:induction false} EndIsStart(code: seq<Byte>, from: nat)
    requires Whole(code, from)
    ensures Start(code, from, |code|)
    decreases |code| - from
  {
    if from != |code| { EndIsStart(code, from + Width(code[from])); }
  }

  /** Decoding looks only at the instruction's own bytes, wherever they lie. */
  lemma {:induction false} DecodeMoves(a: seq<Byte>, b: seq<Byte>, c: seq<Byte>, p: nat)
    requires Decode(b, p).Some?
    ensures Decode(a + b + c, |a| + p) == Decode(b, p) && (a + b + c)[|a| + p] == b[p]
  {
    var code := a + b + c;
    assert code[|a| + p] == b[p];
    var w := Width(b[p]);
    if w >= 2 { assert code[|a| + p + 1] == b[p + 1]; }
    if w == 3 { assert code[|a| + p + 2] == b[p + 2]; }
  }

  lemma {:induction false} DecodePrefix(a: seq<Byte>, b: seq<Byte>, p: nat)
    requires Decode(a, p).Some?
    ensures Decode(a + b, p) == Decode(a, p) && (a + b)[p] == a[p]
  {
    DecodeMoves([], a, b, p);
    assert [] + a + b == a + b;
  }

  lemma {:induction false} DecodeSuffix(a: seq<Byte>, b: seq<Byte>, p: nat)
    requires Decode(b, p).Some?
    ensures Decode(a + b, |a| + p) == Decode(b, p) && (a + b)[|a| + p] == b[p]
  {
    DecodeMoves(a, b, [], p);
    assert a + b + [] == a + b;
  }

  /** Appending code keeps every start before it, and adds the appended code's own. */
  lemma {:induction false} PrefixStarts(a: seq<Byte>, b: seq<Byte>, from: nat, t: int)
    requires Whole(a, from) && from <= |a|
    ensures t <= |a| ==> Start(a + b, from, t) == Start(a, from, t)
    ensures t >= |a| ==> Start(a + b, from, t) == Start(a + b, |a|, t)
    decreases |a| - from
  {
    if from < |a| {
      DecodePrefix(a, b, from);
      PrefixStarts(a, b, from + Width(a[from]), t);
      if t == |a| {
        EndIsStart(a, from);
      }
    }
  }

  lemma {:induction false} SuffixStarts(a: seq<Byte>, b: seq<Byte>, from: nat, t: int)
    requires Whole(b, from) && from <= |b|
    ensures Start(a + b, |a| + from, |a| + t) == Start(b, from, t)
    decreases |b| - from
  {
    if from < |b| {
      DecodeSuffix(a, b, from);
      SuffixStarts(a, b, from + Width(b[from]), t);
    }
  }

  lemma {:induction false} WholeSuffix(a: seq<Byte>, b: seq<Byte>, from: nat)
    requires Whole(b, from) && from <= |b|
    ensures Whole(a + b, |a| + from)
    decreases |b| - from
  {
    if from < |b| {
      DecodeSuffix(a, b, from);
      WholeSuffix(a, b, from + Width(b[from]));
    }
  }

  lemma {:induction false} WholeJoin(a: seq<Byte>, b: seq<Byte>, from: nat)
    requires Whole(a, from) && Whole(b, 0) && from <= |a|
    ensures Whole(a + b, from)
    decreases |a| - from
  {
    if from < |a| {
      DecodePrefix(a, b, from);
      WholeJoin(a, b, from + Width(a[from]));
    } else {
      WholeSuffix(a, b, 0);
    }
  }

  /** The starts of two pieces of whole code put together. */
  lemma {:induction false} JoinStarts(a: seq<Byte>, b: seq<Byte>, t: int)
    requires Whole(a, 0) && Whole(b, 0)
    ensures Whole(a + b, 0)
    ensures Start(a + b, 0, t) == if t < |a| then Start(a, 0, t) else Start(b, 0, t - |a|)
  {
    WholeJoin(a, b, 0);
    PrefixStarts(a, b, 0, t);
    SuffixStarts(a, b, 0, t - |a|);
  }

  lemma {:induction false} TargetMoves(a: seq<Byte>, b: seq<Byte>, p: nat)
    ensures Decode(a, p).Some? ==> Target(a + b, p) == Target(a, p)
    ensures Decode(b, p).Some? ==>
              Target(a + b, |a| + p) == (if Target(b, p).Some? then Some(|a| + Target(b, p).value) else None)
  {
    if Decode(a, p).Some? { DecodePrefix(a, b, p); }
    if Decode(b, p).Some? { DecodeSuffix(a, b, p); }
  }

  /** What starts in either piece starts in both together; the end of the first is the start of the second. */
  lemma {:induction false} JoinStartAt(a: seq<Byte>, b: seq<Byte>, t: int)
    requires Whole(a, 0) && Whole(b, 0)
    ensures Start(a, 0, t) || Start(b, 0, t - |a|) ==> Start(a + b, 0, t)
  {
    JoinStarts(a, b, t);
    if Start(a, 0, t) { StartWithin(a, 0, t); }
    if Start(b, 0, t - |a|) { StartWithin(b, 0, t - |a|); }
    assert Start(b, 0, 0);
  }

  /** Two pieces together: a place that either leaves open starts an instruction of the whole, or stays open. */
  lemma {:induction false} JoinGoodAny(a: Out, ta: set<int>, b: Out, tb: set<int>, open: set<int>)
    requires Good(a, ta) && Good(b, tb) && (a.hole < 0 || b.hole < 0)
    requires forall t :: t in ta ==> t in open || Start(a.code + b.code, 0, t)
    requires forall t :: t in tb ==> t + |a.code| in open || Start(a.code + b.code, 0, t + |a.code|)
    ensures Good(Join(a, b), open)
  {
    hide Whole, Start, Target;
    var o, n := Join(a, b), |a.code|;
    JoinStarts(a.code, b.code, 0);
    forall p: nat | p < |o.code| && Start(o.code, 0, p) && p + 1 != o.hole ensures Jumps(o.code, p, open) {
      JoinStarts(a.code, b.code, p);
      if p < n {
        NextStart(a.code, 0, p);
        TargetMoves(a.code, b.code, p);
        assert Jumps(a.code, p, ta);
        if Target(a.code, p).Some? { JoinStartAt(a.code, b.code, Target(a.code, p).value); }
      } else {
        NextStart(b.code, 0, p - n);
        TargetMoves(a.code, b.code, p - n);
        assert Jumps(b.code, p - n, tb);
        if Target(b.code, p - n).Some? { JoinStartAt(a.code, b.code, Target(b.code, p - n).value + n); }
      }
    }
    if o.hole >= 0 { JoinStarts(a.code, b.code, o.hole - 1); }
  }

  /** The usual case: a later place is in the second piece, an earlier one in the first. */
  lemma {:induction false} JoinGood(a: Out, ta: set<int>, b: Out, tb: set<int>, open: set<int>)
    requires Good(a, ta) && Good(b, tb) && (a.hole < 0 || b.hole < 0)
    requires forall t :: t in ta ==> t in open || (t >= |a.code| && Start(b.code, 0, t - |a.code|))
    requires forall t :: t in tb ==> t + |a.code| in open || (t < 0 && Start(a.code, 0, t + |a.code|))
    ensures Good(Join(a, b), open)
  {
    hide Start, Whole, Jumps, Join;
    forall t | t in ta && t !in open ensures Start(a.code + b.code, 0, t) { JoinStartAt(a.code, b.code, t); }
    forall t | t in tb && t + |a.code| !in open ensures Start(a.code + b.code, 0, t + |a.code|) {
      JoinStartAt(a.code, b.code, t + |a.code|);
    }
    JoinGoodAny(a, ta, b, tb, open);
  }

  /** A place at which an instruction starts need not be called open. */
  lemma {:induction false} MoreOpen(o: Out, small: set<int>, large: set<int>)
    requires Good(o, small) && forall t :: t in small ==> t in large || Start(o.code, 0, t)
    ensures Good(o, large)
  {
    hide Whole, Start, Target;
    forall p: nat | p < |o.code| && Start(o.code, 0, p) && p + 1 != o.hole ensures Jumps(o.code, p, large) {
      assert Jumps(o.code, p, small);
    }
  }

  /** One instruction by itself; if it jumps, its target is still open. */
  lemma {:induction false} OneGood(i: Instr, o: Out)
    requires (i.IConst? ==> i.k < 65535) && o.code == Encode(i) && o.hole < 0
    ensures Good(o, if Leaves(i, 0).Some? then {Leaves(i, 0).value} else {})
  {
    DecodeEncode(o.code, 0, i);
    hide Encode, Decode, Leaves;
    assert Whole(o.code, |o.code|);
    forall p: nat | p < |o.code| && Start(o.code, 0, p) ensures p == 0 {
      if p > 0 { StartWithin(o.code, |o.code|, p); }
    }
  }

  function Bare(code: seq<Byte>): Out {
    Out(code, [], [], -1)
  }

  lemma {:induction false} Append(a: seq<Byte>, ta: set<int>, b: seq<Byte>, tb: set<int>, open: set<int>)
    requires Good(Bare(a), ta) && Good(Bare(b), tb)
    requires forall t :: t in ta ==> t in open || (t >= |a| && Start(b, 0, t - |a|))
    requires forall t :: t in tb ==> t + |a| in open || (t < 0 && Start(a, 0, t + |a|))
    ensures Good(Bare(a + b), open)
  {
    hide Good, Start;
    JoinGood(Bare(a), ta, Bare(b), tb, open);
    assert Join(Bare(a), Bare(b)) == Bare(a + b);
  }

  /** The end of good code is a place to jump to. */
  lemma {:induction false} GoodEnd(o: Out, open: set<int>)
    requires Good(o, open)
    ensures Start(o.code, 0, |o.code|) && Start(o.code, 0, 0)
  {
    EndIsStart(o.code, 0);
  }

  lemma {:induction false} Emitted(i: Instr)
    requires i.IConst? ==> i.k < 65535
    ensures Good(Bare(Encode(i)), if Leaves(i, 0).Some? then {Leaves(i, 0).value} else {})
    ensures Start(Encode(i), 0, |Encode(i)|)
  {
    OneGood(i, Bare(Encode(i)));
    GoodEnd(Bare(Encode(i)), if Leaves(i, 0).Some? then {Leaves(i, 0).value} else {});
  }

  lemma {:induction false} PopGood()
    ensures Good(Bare(POP), {}) && Start(POP, 0, 0) && Start(POP, 0, 1)
  {
    Emitted(IPop);
  }

  /** A forward jump, a pop, and code up to and past the place it jumps to. */
  lemma {:induction false} OverGood(a: seq<Byte>, ta: set<int>, j: Instr, b: seq<Byte>, open: set<int>)
    requires j.IJump? || j.IJumpIfFalse?
    requires Good(Bare(a), ta) && Good(Bare(b), {})
    requires j.off == 1 + |b| || |a| + 3 + j.off in open
    requires forall t :: t in ta ==> t in open || t == |a| + 3
    ensures Good(Bare(a + Encode(j) + POP + b), open)
  {
    hide Good, Start;
    var to := |a| + 3 + j.off;
    Emitted(j);
    Emitted(IPop);
    GoodEnd(Bare(b), {});
    Append(a, ta, Encode(j), {3 + j.off}, open + {to});
    Append(a + Encode(j), open + {to}, POP, {}, open + {to});
    Append(a + Encode(j) + POP, open + {to}, b, {}, open);
  }

  lemma {:induction false} TailGood(a: seq<Byte>, i: Instr)
    requires Good(Bare(a), {}) && (i.IConst? ==> i.k < 65535) && Leaves(i, 0).None?
    ensures Good(Bare(a + Encode(i)), {})
  {
    hide Good, Start, Encode;
    Emitted(i);
    Append(a, {}, Encode(i), {}, {});
  }

  /** The code of an expression is whole, and none of its jumps leaves it. */
  lemma {:induction false} ExprGood(e: Expr, locals: seq<Local>, k: nat)
    requires CodeE(e, locals, k).Some?
    ensures Good(Bare(CodeE(e, locals, k).value), {})
    decreases e, 1
  {
    hide Good, Start, Encode, Resolve, Consts;
    match e
    case Int(_) => Emitted(IConst(k));
    case BoolLit(b) => Emitted(if b then ITrue else IFalse);
    case NoneLit => Emitted(INone);
    case Var(x) => Emitted(IGetLocal(Resolve(locals, x).value));
    case Assign(x, e1) =>
      ExprGood(e1, locals, k);
      TailGood(CodeE(e1, locals, k).value, ISetLocal(Resolve(locals, x).value));
    case Unary(op, e1) =>
      ExprGood(e1, locals, k);
      TailGood(CodeE(e1, locals, k).value, IUnary(op));
    case Binary(op, l, r) =>
      ExprGood(l, locals, k);
      ExprGood(r, locals, k + |Consts(l)|);
      var a, b := CodeE(l, locals, k).value, CodeE(r, locals, k + |Consts(l)|).value;
      Append(a, {}, b, {}, {});
      TailGood(a + b, IBinary(op));
    case _ => ShortGood(e, locals, k);
  }

  /** The forms that jump over an operand. */
  lemma {:induction false} ShortGood(e: Expr, locals: seq<Local>, k: nat)
    requires (e.And? || e.Or? || e.Cond?) && CodeE(e, locals, k).Some?
    ensures Good(Bare(CodeE(e, locals, k).value), {})
    decreases e, 0
  {
    hide Good, Start, Encode, Resolve, Consts;
    match e
    case And(l, r) =>
      ExprGood(l, locals, k);
      ExprGood(r, locals, k + |Consts(l)|);
      var b := CodeE(r, locals, k + |Consts(l)|).value;
      OverGood(CodeE(l, locals, k).value, {}, IJumpIfFalse(1 + |b|), b, {});
    case Or(l, r) =>
      ExprGood(l, locals, k);
      ExprGood(r, locals, k + |Consts(l)|);
      OrGood(CodeE(l, locals, k).value, CodeE(r, locals, k + |Consts(l)|).value);
    case Cond(c, t, f) =>
      ExprGood(c, locals, k);
      ExprGood(t, locals, k + |Consts(c)|);
      ExprGood(f, locals, k + |Consts(c)| + |Consts(t)|);
      CondGood(CodeE(c, locals, k).value, CodeE(t, locals, k + |Consts(c)|).value,
               CodeE(f, locals, k + |Consts(c)| + |Consts(t)|).value);
  }

  lemma {:induction false} OrGood(a: seq<Byte>, b: seq<Byte>)
    requires Good(Bare(a), {}) && Good(Bare(b), {}) && 1 + |b| <= JUMP_MAX
    ensures Good(Bare(a + Encode(IJumpIfFalse(3)) + Encode(IJump(1 + |b|)) + POP + b), {})
  {
    hide Good, Start;
    var j := IJumpIfFalse(3);
    Emitted(j);
    Append(a, {}, Encode(j), {6}, {|a| + 6});
    OverGood(a + Encode(j), {|a| + 6}, IJump(1 + |b|), b, {});
  }

  lemma {:induction false} CondGood(a: seq<Byte>, b: seq<Byte>, d: seq<Byte>)
    requires Good(Bare(a), {}) && Good(Bare(b), {}) && Good(Bare(d), {}) && 1 + |b| + 3 <= JUMP_MAX
             && 1 + |d| <= JUMP_MAX
    ensures Good(Bare(a + Encode(IJumpIfFalse(1 + |b| + 3)) + POP + b + Encode(IJump(1 + |d|)) + POP + d), {})
  {
    hide Good, Start;
    var to := |a| + 7 + |b|;
    OverGood(a, {}, IJumpIfFalse(1 + |b| + 3), b, {to});
    OverGood(a + Encode(IJumpIfFalse(1 + |b| + 3)) + POP + b, {to}, IJump(1 + |d|), d, {});
  }

  /** Where code may still jump to outside itself: only to the start of the loop it stands in. */
  function Open(cx: Cx): set<int> {
    if cx.loop.InLoop? then {0 - cx.loop.back} else {}
  }

  lemma {:induction false} FragmentGood(e: Expr, cx: Cx)
    requires Fragment(e, cx).Some?
    ensures Good(Fragment(e, cx).value, {})
  {
    hide Whole, Start;
    ExprGood(e, cx.locals, cx.k);
    SameGood(Bare(CodeE(e, cx.locals, cx.k).value), Fragment(e, cx).value, {});
  }

  lemma {:induction false} SameGood(a: Out, b: Out, open: set<int>)
    requires Good(a, open) && a.code == b.code && a.hole < 0 && b.hole < 0
    ensures Good(b, open)
  {
    hide Whole, Start;
    forall p: nat | p < |b.code| && Start(b.code, 0, p) ensures Jumps(b.code, p, open) {
      assert p + 1 != a.hole;
    }
  }

  lemma {:induction false} NothingGood(o: Out)
    requires o.code == [] && o.hole < 0
    ensures Good(o, {})
  {
  }

  lemma {:induction false} PopsGood(n: nat, cx: Cx)
    ensures Good(Plain(Pops(n), [], cx), {})
    decreases n
  {
    hide Whole, Start;
    if n > 0 {
      PopsGood(n - 1, cx);
      SameGood(Plain(Pops(n - 1), [], cx), Bare(Pops(n - 1)), {});
      TailGood(Pops(n - 1), IPop);
      SameGood(Bare(Pops(n)), Plain(Pops(n), [], cx), {});
    } else {
      NothingGood(Plain(Pops(n), [], cx));
    }
  }

  /** Filling in a break's operand moves no instruction and changes no other one. */
  lemma {:induction false} PatchStarts(code: seq<Byte>, at: nat, off: Short, from: nat, t: int)
    requires Whole(code, 0) && 1 <= at && at + 2 <= |code| && Start(code, 0, at - 1) && Width(code[at - 1]) == 3
             && code[at - 1] != 3
    requires Start(code, 0, from) && from <= |code| && Whole(code, from)
    ensures Start(Offset(code, at, off), from, t) == Start(code, from, t) && Whole(Offset(code, at, off), from)
    decreases |code| - from
  {
    if from < |code| {
      NextStart(code, 0, from);
      PatchDecode(code, at, off, from);
      PatchStarts(code, at, off, from + Width(code[from]), t);
    }
  }

  lemma {:induction false} PatchDecode(code: seq<Byte>, at: nat, off: Short, p: nat)
    requires Whole(code, 0) && 1 <= at && at + 2 <= |code| && Start(code, 0, at - 1) && Width(code[at - 1]) == 3
             && code[at - 1] != 3
    requires Start(code, 0, p) && p < |code|
    ensures var r := Offset(code, at, off);
            && Decode(r, p).Some? && r[p] == code[p]
            && (p + 1 != at ==> Decode(r, p) == Decode(code, p))
            && (p + 1 == at ==> Decode(r, p) == DecodeShort(code[p], off))
  {
    hide Whole, Start;
    NextStart(code, 0, p);
    NextStart(code, 0, at - 1);
    Apart(code, p, at - 1, 0);
  }

  /** Two instructions of the same code do not overlap. */
  lemma {:induction false} Apart(code: seq<Byte>, p: nat, q: nat, from: nat)
    requires Start(code, from, p) && Start(code, from, q) && p < |code| && q < |code| && from <= |code|
    requires Decode(code, p).Some? && Decode(code, q).Some?
    ensures p + Width(code[p]) <= q || q + Width(code[q]) <= p || p == q
    decreases |code| - from
  {
    if p != from && q != from { Apart(code, p, q, from + Width(code[from])); }
    else if p == from && q != from { StartWithin(code, from + Width(code[from]), q); }
    else if q == from && p != from { StartWithin(code, from + Width(code[from]), p); }
  }

  /** The end of a loop: its break, now patched, goes to where the loop's code ends. */
  lemma {:induction false} CloseGood(o: Out, open: set<int>)
    requires o.Valid() && Good(o, open) && Close(o).Some?
    ensures Good(Close(o).value, open)
  {
    hide Whole, Start, Decode, Offset;
    if o.hole >= 0 {
      var off: Short := |o.code| - o.hole - 2;
      var c := Close(o).value;
      AllStarts(o.code, o.hole, off);
      forall p: nat | p < |c.code| && Start(c.code, 0, p) ensures Jumps(c.code, p, open) {
        PatchDecode(o.code, o.hole, off, p);
        if p + 1 == o.hole {
          EndIsStart(o.code, 0);
        } else {
          assert Jumps(o.code, p, open);
        }
      }
    }
  }

  lemma {:induction false} AllStarts(code: seq<Byte>, at: nat, off: Short)
    requires Whole(code, 0) && 1 <= at && at + 2 <= |code| && Start(code, 0, at - 1) && code[at - 1] == 48
    ensures var r := Offset(code, at, off); Whole(r, 0) && forall t :: Start(r, 0, t) == Start(code, 0, t)
  {
    forall t ensures Start(Offset(code, at, off), 0, t) == Start(code, 0, t) {
      PatchStarts(code, at, off, 0, t);
    }
    PatchStarts(code, at, off, 0, 0);
  }

  /** Places open in a later piece are open, that much further on, in the whole. */
  ghost predicate Moved(small: set<int>, n: nat, large: set<int>) {
    forall t :: t in small ==> t + n in large
  }

  /** A jump followed by a pop. */
  lemma {:induction false} JumpPop(j: Instr, cx: Cx)
    requires j.IJump? || j.IJumpIfFalse? || j.ILoop?
    ensures var o := Plain(Encode(j) + POP, [], cx);
            && Good(o, {Leaves(j, 0).value}) && |o.code| == 4
            && Start(o.code, 0, 0) && Start(o.code, 0, 3) && Start(o.code, 0, 4)
  {
    Emitted(j);
    Emitted(IPop);
    var o := Plain(Encode(j) + POP, [], cx);
    Append(Encode(j), {Leaves(j, 0).value}, POP, {}, {Leaves(j, 0).value});
    SameGood(Bare(o.code), o, {Leaves(j, 0).value});
    GoodEnd(o, {Leaves(j, 0).value});
    JoinStartAt(Encode(j), POP, 3);
  }

  lemma {:induction false} IfGood(cx: Cx, a: Out, b: Out, tb: set<int>, d: Out, td: set<int>, open: set<int>)
    requires a.Valid() && b.Valid() && d.Valid() && a.hole == -1 && (b.hole < 0 || d.hole < 0)
    requires Good(a, {}) && Good(b, tb) && Good(d, td) && IfOut(cx, a, b, d).Some?
    requires Moved(tb, |a.code| + 4, open) && Moved(td, |a.code| + |b.code| + 8, open)
    ensures Good(IfOut(cx, a, b, d).value, open)
  {
    hide Good, Start, Encode;
    var j1, j2 := IJumpIfFalse(1 + |b.code| + 3), IJump(1 + |d.code|);
    var p1, p2 := Plain(Encode(j1) + POP, [], cx), Plain(Encode(j2) + POP, [], cx);
    JumpPop(j1, cx);
    JumpPop(j2, cx);
    GoodEnd(d, td);
    var t1 := |a.code| + 7 + |b.code|;
    var t2 := t1 + 1 + |d.code|;
    JoinGood(a, {}, p1, {7 + |b.code|}, open + {t1});
    JoinGood(Join(a, p1), open + {t1}, b, tb, open + {t1});
    JoinGood(Join(Join(a, p1), b), open + {t1}, p2, {4 + |d.code|}, open + {t2});
    JoinGood(Join(Join(Join(a, p1), b), p2), open + {t2}, d, td, open);
  }

  lemma {:induction false} WhileGood(cx: Cx, a: Out, b: Out, tb: set<int>)
    requires a.Valid() && b.Valid() && a.hole == -1 && Good(a, {}) && Good(b, tb) && WhileOut(cx, a, b).Some?
    requires forall t :: t in tb ==> t + |a.code| + 4 == 0
    ensures Good(WhileOut(cx, a, b).value, {})
  {
    hide Good, Start, Encode, Close;
    var j, l := IJumpIfFalse(1 + |b.code| + 3), ILoop(|a.code| + 4 + |b.code| + 3);
    var p1, p2 := Plain(Encode(j) + POP, [], cx), Plain(Encode(l) + POP, [], cx);
    JumpPop(j, cx);
    JumpPop(l, cx);
    var to := |a.code| + 7 + |b.code|;
    JoinGood(a, {}, p1, {7 + |b.code|}, {to});
    var o1 := Join(a, p1);
    GoodEnd(o1, {to});
    JoinGood(o1, {to}, b, tb, {to});
    var o2 := Join(o1, b);
    GoodEnd(o2, {to});
    JoinGood(o2, {to}, p2, {Leaves(l, 0).value}, {});
    CloseGood(Join(o2, p2), {});
  }

  lemma {:induction false} LoopGood(cx: Cx, b: Out, tb: set<int>)
    requires b.Valid() && Good(b, tb) && LoopOut(cx, b).Some? && forall t :: t in tb ==> t == 0
    ensures Good(LoopOut(cx, b).value, {})
  {
    hide Good, Start, Encode, Close;
    var l := ILoop(|b.code| + 3);
    var p := Plain(Encode(l), [], cx);
    OneGood(l, p);
    GoodEnd(b, tb);
    MoreOpen(b, tb, {});
    JoinStart(b, {}, p, {0 - |b.code|}, 0);
    JoinGoodAny(b, {}, p, {0 - |b.code|}, {});
    CloseGood(Join(b, p), {});
  }

  /** What starts in one of two good pieces starts in both together. */
  lemma {:induction false} JoinStart(a: Out, ta: set<int>, b: Out, tb: set<int>, t: int)
    requires Good(a, ta) && Good(b, tb) && (Start(a.code, 0, t) || Start(b.code, 0, t - |a.code|))
    ensures Start(a.code + b.code, 0, t)
  {
    hide Start, Whole;
    JoinStartAt(a.code, b.code, t);
  }

  /** The increment of a `for`: the hop over it ends where it ends, and its own jump goes to the start of the loop. */
  lemma {:induction false} StepGood(cx: Cx, i: Out, head: nat)
    requires i.Valid() && i.hole == -1 && Good(i, {}) && ForStep(cx, i, head).Some?
    ensures Good(ForStep(cx, i, head).value, {0 - head}) && Start(ForStep(cx, i, head).value.code, 0, 3)
  {
    hide Good, Start, Encode;
    var j, l := IJump(|i.code| + 4), ILoop(head + 3 + |i.code| + 1 + 3);
    var p, q := Plain(Encode(j), [], cx), Plain(POP + Encode(l), [], cx);
    OneGood(j, p);
    GoodEnd(p, {|i.code| + 7});
    PopGood();
    Emitted(l);
    Append(POP, {}, Encode(l), {3 - l.off}, {4 - l.off});
    SameGood(Bare(q.code), q, {4 - l.off});
    GoodEnd(q, {4 - l.off});
    JoinGood(p, {|i.code| + 7}, i, {}, {|i.code| + 7});
    JoinStart(p, {|i.code| + 7}, i, {}, 3);
    JoinStart(Join(p, i), {|i.code| + 7}, q, {4 - l.off}, 3);
    JoinGood(Join(p, i), {|i.code| + 7}, q, {4 - l.off}, {0 - head});
  }

  lemma {:induction false} HeadGood(cx: Cx, cond: bool, a: Out, off: nat)
    requires a.Valid() && a.hole == -1 && Good(a, {}) && ForHead(cx, cond, a, off).Some?
    ensures Good(ForHead(cx, cond, a, off).value, if cond then {|a.code| + 3 + off} else {})
    ensures ForHead(cx, cond, a, off).value.hole == -1
  {
    hide Good, Start, Encode;
    if cond {
      var j := IJumpIfFalse(off);
      JumpPop(j, cx);
      JoinGood(a, {}, Plain(Encode(j) + POP, [], cx), {3 + off}, {|a.code| + 3 + off});
    }
  }

  lemma {:induction false} ForGood(cx: Cx, cond: bool, a: Out, i: Out, b: Out, tb: set<int>)
    requires a.Valid() && i.Valid() && b.Valid() && a.hole == -1 && i.hole == -1
    requires Good(a, {}) && Good(i, {}) && Good(b, tb) && ForOut(cx, cond, a, i, b).Some?
    requires forall t :: t in tb ==> t + |i.code| + 4 == 0
    ensures Good(ForOut(cx, cond, a, i, b).value, {})
  {
    hide Good, Start, Encode, Close, ForHead, ForStep;
    var h := ForHead(cx, cond, a, 1 + |i.code| + 7 + |b.code| + 3).value;
    var step := ForStep(cx, i, |h.code|).value;
    var th := if cond then {|h.code| + |i.code| + 7 + |b.code| + 3} else {};
    HeadGood(cx, cond, a, 1 + |i.code| + 7 + |b.code| + 3);
    StepGood(cx, i, |h.code|);
    GoodEnd(h, th);
    JoinStart(h, th, step, {0 - |h.code|}, 0);
    JoinStart(h, th, step, {0 - |h.code|}, |h.code| + 3);
    JoinGoodAny(h, th, step, {0 - |h.code|}, th);
    var o := Join(h, step);
    assert Start(o.code, 0, |h.code| + 3) && o.hole < 0;
    ForTail(cx, cond, o, th, |h.code| + 3, b, tb);
  }

  /** The body of a `for` and the jump after it, both going back to the increment at `back`. */
  lemma {:induction false} ForTail(cx: Cx, cond: bool, o: Out, th: set<int>, back: nat, b: Out, tb: set<int>)
    requires o.Valid() && b.Valid() && o.hole < 0 && Good(o, th) && Good(b, tb)
    requires back <= |o.code| && Start(o.code, 0, back) && |o.code| - back + |b.code| + 3 <= JUMP_MAX
    requires th == if cond then {|o.code| + |b.code| + 3} else {}
    requires forall t :: t in tb ==> t + |o.code| == back
    ensures var l := Encode(ILoop(|o.code| - back + |b.code| + 3)) + (if cond then POP else []);
            var w := Join(Join(o, b), Plain(l, [], cx));
            Close(w).Some? ==> Good(Close(w).value, {})
  {
    hide Good, Start, Encode, Close;
    var l := ILoop(|o.code| - back + |b.code| + 3);
    var tail := Plain(Encode(l) + (if cond then POP else []), [], cx);
    if cond { JumpPop(l, cx); } else { assert tail.code == Encode(l); OneGood(l, tail); GoodEnd(tail, {3 - l.off}); }
    var n := |o.code|;
    forall t | t in tb ensures Start(o.code + b.code, 0, t + n) { JoinStart(o, th, b, tb, back); }
    JoinGoodAny(o, th, b, tb, th);
    var ob := Join(o, b);
    JoinStart(o, th, b, tb, back);
    JoinStart(ob, th, tail, {3 - l.off}, back);
    forall t | t in th ensures Start(ob.code + tail.code, 0, t) { JoinStart(ob, th, tail, {3 - l.off}, t); }
    JoinGoodAny(ob, th, tail, {3 - l.off}, {});
    if Close(Join(ob, tail)).Some? { CloseGood(Join(ob, tail), {}); }
  }

  lemma {:induction false} MatchGood(cx: Cx, a: Out, b: Out, tb: set<int>, open: set<int>)
    requires a.Valid() && b.Valid() && a.hole == -1 && Good(a, {}) && Good(b, tb) && MatchOut(cx, a, b).Some?
    requires Moved(tb, |a.code| + 3, open)
    ensures Good(MatchOut(cx, a, b).value, open)
  {
    hide Good, Start;
    var m := IMatch(|b.code|);
    assert |Encode(m)| == 3;
    hide Encode;
    var p, q := Plain(Encode(m), [], cx), Plain(POP, [], cx);
    OneGood(m, p);
    PopGood();
    SameGood(Bare(POP), q, {});
    var to := |a.code| + 3 + |b.code|;
    JoinGood(a, {}, p, {3 + |b.code|}, {to});
    JoinGood(Join(a, p), {to}, b, tb, open + {to});
    JoinGood(Join(Join(a, p), b), open + {to}, q, {}, open);
  }

  /** A jump over n bytes that pops come after, all or some of them jumped over. */
  lemma {:induction false} TailPops(off: Short, n: nat, cx: Cx)
    ensures var o := Plain(Encode(IJump(off)) + Pops(n), [], cx);
            Good(o, {3 + off}) && Start(o.code, 0, 3)
  {
    hide Good, Start;
    var p, q := Plain(Encode(IJump(off)), [], cx), Plain(Pops(n), [], cx);
    assert |Encode(IJump(off))| == 3;
    hide Encode;
    OneGood(IJump(off), p);
    PopsGood(n, cx);
    GoodEnd(p, {3 + off});
    JoinGood(p, {3 + off}, q, {}, {3 + off});
    JoinStart(p, {3 + off}, q, {}, 3);
    SameGood(Join(p, q), Plain(Encode(IJump(off)) + Pops(n), [], cx), {3 + off});
  }

  /** One arm: its failed test lands on the pops after its end jump, which is still open. */
  lemma {:induction false} ArmGood(p: Out, b: Out, tb: set<int>, n: Short, cx: Cx, open: set<int>)
    requires p.Valid() && b.Valid() && p.hole == -1 && Good(p, {}) && Good(b, tb)
    requires |cx.locals| <= |b.locals| && |b.code| + 3 <= JUMP_MAX && Moved(tb, |p.code| + 3, open)
    ensures Good(ArmOut(p, b, [41, Hi(n), Lo(n)], cx), open + {|p.code| + 6 + |b.code| + n})
  {
    hide Good, Start;
    var off := |b.code| + 3;
    var t := Plain([40, Hi(off), Lo(off)], [], cx);
    var k := |b.locals| - |cx.locals|;
    var e := Plain([41, Hi(n), Lo(n)] + Pops(k), [], cx);
    assert Encode(IJumpIfNeq(off)) == t.code && Encode(IJump(n)) == [41, Hi(n), Lo(n)];
    hide Encode, Pops;
    OneGood(IJumpIfNeq(off), t);
    TailPops(n, k, cx);
    var to, end := |p.code| + 3 + off, |p.code| + 6 + |b.code| + n;
    JoinGood(p, {}, t, {3 + off}, {to});
    JoinGood(Join(p, t), {to}, b, tb, open + {to});
    JoinGood(Join(Join(p, t), b), open + {to}, e, {3 + n}, open + {end});
  }

  lemma {:induction false} DefaultGood(b: Out, tb: set<int>, n: Short, cx: Cx)
    requires b.Valid() && Good(b, tb)
    ensures Good(Join(b, Plain([41, Hi(n), Lo(n)] + Pops(n), [], cx)), tb)
  {
    hide Good, Start;
    var e := Plain([41, Hi(n), Lo(n)] + Pops(n), [], cx);
    assert Encode(IJump(n)) == [41, Hi(n), Lo(n)];
    hide Encode, Pops;
    TailPops(n, n, cx);
    GoodEnd(e, {3 + n});
    MoreOpen(e, {3 + n}, {});
    JoinGood(b, tb, e, {}, tb);
  }

  lemma {:induction false} NoArmsGood(cx: Cx)
    ensures Good(Plain([41, 0, 0], [], cx), {})
  {
    var o := Plain([41, 0, 0], [], cx);
    assert Encode(IJump(0)) == [41, 0, 0];
    OneGood(IJump(0), o);
    GoodEnd(o, {3});
    MoreOpen(o, {3}, {});
  }

  lemma {:induction false} BreakGood(cx: Cx)
    ensures Good(Out([48, 255, 255], [], cx.locals, 1), {})
  {
    var i := IBreak(65535);
    assert Encode(i) == [48, 255, 255];
    DecodeEncode([48, 255, 255], 0, i);
    assert Whole([48, 255, 255], 3);
    forall p: nat | p < 3 && Start([48, 255, 255], 0, p) ensures p == 0 {
      if p > 0 { StartWithin([48, 255, 255], 3, p); }
    }
  }

  /** The code of a statement is whole instructions; only to the start of its loop may it jump outside itself. */
  lemma {:induction false} StmtGood(s: Stmt, cx: Cx)
    requires CodeS(s, cx).Some?
    ensures Good(CodeS(s, cx).value, Open(cx))
    decreases s, 0
  {
    hide Good, Start, Encode, Fragment, CodeDs, CodeArms, IfOut, WhileOut, LoopOut, ForOut, ForCond, MatchOut, Pops;
    match s
    case ExprS(e) =>
      var a := Fragment(e, cx).value;
      FragmentGood(e, cx);
      PopGood();
      SameGood(Bare(POP), Plain(POP, [], cx), {});
      JoinGood(a, {}, Plain(POP, [], cx), {}, Open(cx));
    case Block(ds) =>
      var icx := cx.(depth := cx.depth + 1);
      var o := CodeDs(ds, icx).value;
      DeclsGood(ds, icx);
      PopsGood(|o.locals| - |cx.locals|, cx);
      JoinGood(o, Open(cx), Plain(Pops(|o.locals| - |cx.locals|), [], cx), {}, Open(cx));
    case If(c, t, f) =>
      IfStmtGood(c, t, f, cx);
    case While(c, body) =>
      var a := Fragment(c, cx).value;
      var bcx := BodyCx(cx, |a.consts|, |a.code| + 4);
      FragmentGood(c, cx);
      StmtGood(body, bcx);
      WhileGood(cx, a, CodeS(body, bcx).value, Open(bcx));
      MoreOpen(WhileOut(cx, a, CodeS(body, bcx).value).value, {}, Open(cx));
    case Loop(body) =>
      var bcx := BodyCx(cx, 0, 0);
      StmtGood(body, bcx);
      LoopGood(cx, CodeS(body, bcx).value, Open(bcx));
      MoreOpen(LoopOut(cx, CodeS(body, bcx).value).value, {}, Open(cx));
    case ForLoop(cond, inc, body) =>
      ForLoopGood(cond, inc, body, cx);
    case Match(e, arms) =>
      MatchStmtGood(e, arms, cx);
    case Break =>
      if cx.loop.broken { NothingGood(Plain([], [], cx)); MoreOpen(Plain([], [], cx), {}, Open(cx)); }
      else { BreakGood(cx); MoreOpen(Out([48, 255, 255], [], cx.locals, 1), {}, Open(cx)); }
    case Continue =>
      OneGood(IContinue(cx.loop.back + 3), CodeS(s, cx).value);
  }

  lemma {:induction false} IfStmtGood(c: Expr, t: Stmt, f: Stmt, cx: Cx)
    requires CodeS(If(c, t, f), cx).Some?
    ensures Good(CodeS(If(c, t, f), cx).value, Open(cx))
    decreases If(c, t, f), -1
  {
    hide Good, Start, Encode, Fragment, CodeDs, CodeArms, IfOut, WhileOut, LoopOut, ForOut, ForCond, MatchOut, Pops;
    var a := Fragment(c, cx).value;
    FragmentGood(c, cx);
    var cx1 := After(cx, Join(a, Plain([39, 255, 255] + POP, [], cx)));
    var b := CodeS(t, cx1).value;
    StmtGood(t, cx1);
    var cx2 := After(After(cx1, b), Plain([41, 255, 255] + POP, [], cx));
    StmtGood(f, cx2);
    IfGood(cx, a, b, Open(cx1), CodeS(f, cx2).value, Open(cx2), Open(cx));
  }

  lemma {:induction false} MatchStmtGood(e: Expr, arms: Arms, cx: Cx)
    requires CodeS(Match(e, arms), cx).Some?
    ensures Good(CodeS(Match(e, arms), cx).value, Open(cx))
    decreases Match(e, arms), -1
  {
    hide Good, Start, Encode, Fragment, CodeDs, CodeArms, IfOut, WhileOut, LoopOut, ForOut, ForCond, MatchOut, Pops;
    var cx0 := cx.(depth := cx.depth + 1);
    var a := Fragment(e, cx0).value;
    var acx := After(cx0, Join(a, Plain([50, 255, 255], [], cx0)));
    FragmentGood(e, cx0);
    ArmsGood(arms, acx);
    MatchGood(cx, a, CodeArms(arms, acx).value, Open(acx), Open(cx));
  }

  lemma {:induction false} ForLoopGood(cond: Option<Expr>, inc: Expr, body: Stmt, cx: Cx)
    requires CodeS(ForLoop(cond, inc, body), cx).Some?
    ensures Good(CodeS(ForLoop(cond, inc, body), cx).value, Open(cx))
    decreases ForLoop(cond, inc, body), -1
  {
    hide Good, Start, Encode, Fragment, ForOut, CodeDs, CodeArms, IfOut, WhileOut, LoopOut, MatchOut, Pops, Join;
    var a := ForCond(cond, cx).value;
    var icx := cx.(k := cx.k + |a.consts|);
    var i := Fragment(inc, icx).value;
    var bcx := BodyCx(cx, |a.consts| + |i.consts|, |i.code| + 4);
    if cond.Some? { FragmentGood(cond.value, cx); } else { NothingGood(a); }
    FragmentGood(inc, icx);
    StmtGood(body, bcx);
    var b := CodeS(body, bcx).value;
    ForGood(cx, cond.Some?, a, i, b, Open(bcx));
    MoreOpen(ForOut(cx, cond.Some?, a, i, b).value, {}, Open(cx));
  }

  lemma {:induction false} ArmsGood(arms: Arms, cx: Cx)
    requires CodeArms(arms, cx).Some?
    ensures Good(CodeArms(arms, cx).value, Open(cx))
    decreases arms, 0
  {
    hide Good, Start, Encode, Fragment, CodeArmBody, ArmOut, Pops, Join, PatternCx;
    match arms
    case NoMore =>
      NoArmsGood(cx);
      MoreOpen(Plain([41, 0, 0], [], cx), {}, Open(cx));
    case Default(body) =>
      BodyGood(body, cx);
      var b := CodeArmBody(body, cx).value;
      DefaultGood(b, Open(cx), |b.locals| - |cx.locals|, cx);
    case Arm(pattern, body, rest) =>
      var pcx := cx.(depth := cx.depth + 1);
      var p := Fragment(pattern, pcx).value;
      var bcx := PatternCx(p, cx);
      var b := CodeArmBody(body, bcx).value;
      var rcx := After(cx, ArmOut(p, b, [41, 255, 255], cx));
      var d := CodeArms(rest, rcx).value;
      var n := |b.locals| - |cx.locals| + |d.code|;
      FragmentGood(pattern, pcx);
      BodyGood(body, bcx);
      ArmsGood(rest, rcx);
      OpenPattern(p, cx);
      ArmGood(p, b, Open(bcx), n, cx, Open(cx));
      ArmsJoin(p, b, n, d, cx, rcx);
  }

  lemma {:induction false} OpenPattern(p: Out, cx: Cx)
    ensures Moved(Open(PatternCx(p, cx)), |p.code| + 3, Open(cx))
  {
  }

  lemma {:induction false} ArmsJoin(p: Out, b: Out, n: Short, d: Out, cx: Cx, rcx: Cx)
    requires |cx.locals| <= |b.locals| && |b.code| + 3 <= JUMP_MAX && n == |b.locals| - |cx.locals| + |d.code|
    requires rcx == After(cx, ArmOut(p, b, [41, 255, 255], cx)) && p.Valid() && b.Valid() && p.hole == -1
    requires Good(ArmOut(p, b, [41, Hi(n), Lo(n)], cx), Open(cx) + {|p.code| + 6 + |b.code| + n}) && Good(d, Open(rcx))
    requires d.hole >= 0 ==> rcx.loop.InLoop? && !rcx.loop.broken
    ensures Good(Join(ArmOut(p, b, [41, Hi(n), Lo(n)], cx), d), Open(cx))
  {
    hide Good, Start, Pops;
    GoodEnd(d, Open(rcx));
    JoinGood(ArmOut(p, b, [41, Hi(n), Lo(n)], cx), Open(cx) + {|p.code| + 6 + |b.code| + n}, d, Open(rcx), Open(cx));
  }

  lemma {:induction false} BodyGood(body: Stmt, cx: Cx)
    requires CodeArmBody(body, cx).Some?
    ensures Good(CodeArmBody(body, cx).value, Open(cx))
    decreases body, 1
  {
    hide Good, CodeS, CodeDs;
    var inner := cx.(depth := cx.depth + 1);
    if body.Block? { DeclsGood(body.ds, inner); } else { StmtGood(body, inner); }
  }

  lemma {:induction false} DeclsGood(ds: Decls, cx: Cx)
    requires CodeDs(ds, cx).Some?
    ensures Good(CodeDs(ds, cx).value, Open(cx))
    decreases ds, 0
  {
    hide Good, Start, CodeE, CodeS;
    match ds
    case End =>
      NothingGood(Plain([], [], cx));
      MoreOpen(Plain([], [], cx), {}, Open(cx));
    case VarD(x, init, rest) =>
      var locals := cx.locals + [Local(x, -1)];
      var a := CodeE(init, locals, cx.k).value;
      var o := Out(a, Consts(init), cx.locals + [Local(x, cx.depth)], -1);
      ExprGood(init, locals, cx.k);
      SameGood(Bare(a), o, {});
      DeclsGood(rest, After(cx, o));
      JoinGood(o, {}, CodeDs(rest, After(cx, o)).value, Open(After(cx, o)), Open(cx));
    case StmtD(s, rest) =>
      var o := CodeS(s, cx).value;
      StmtGood(s, cx);
      DeclsGood(rest, After(cx, o));
      JoinGood(o, Open(cx), CodeDs(rest, After(cx, o)).value, Open(After(cx, o)), Open(cx));
  }

  /** A finished program: every jump lands on an instruction of it or on its end. */
  lemma {:induction false} ProgramGood(ds: Decls, cx: Cx)
    requires CodeDs(ds, cx).Some? && cx.loop.NoLoop?
    ensures var code := CodeDs(ds, cx).value.code;
            && Whole(code, 0)
            && forall p: nat ::
                p < |code| && Start(code, 0, p) && Target(code, p).Some? ==> Start(code, 0, Target(code, p).value)
  {
    hide Whole, Start, CodeDs, Target;
    DeclsGood(ds, cx);
    var o := CodeDs(ds, cx).value;
    forall p: nat | p < |o.code| && Start(o.code, 0, p) && Target(o.code, p).Some?
        ensures Start(o.code, 0, Target(o.code, p).value) {
      assert Jumps(o.code, p, {});
    }
  }

  /** Over every run of a finished program, however it ends, the machine stands at the start of an instruction or at
      the end. */
  lemma {:induction false} AlwaysAtStart(ds: Decls, cx: Cx, p: Program, a: State, n: nat, b: State)
    requires CodeDs(ds, cx).Some? && cx.loop.NoLoop? && p.code == CodeDs(ds, cx).value.code
    requires Start(p.code, 0, a.ip) && Runs(p, a, n, b)
    ensures Start(p.code, 0, b.ip) && 0 <= b.ip <= |p.code| && (b.ip < |p.code| ==> Decode(p.code, b.ip).Some?)
    decreases n
  {
    hide Whole, Start, CodeDs, Target, Decode;
    ProgramGood(ds, cx);
    if n > 0 {
      StepStart(p, a);
      AlwaysAtStart(ds, cx, p, Step(p, a).value, n - 1, b);
    } else {
      StartWithin(p.code, 0, b.ip);
      if b.ip < |p.code| { NextStart(p.code, 0, b.ip); }
    }
  }

  lemma {:induction false} StepStart(p: Program, st: State)
    requires Whole(p.code, 0) && Start(p.code, 0, st.ip) && Step(p, st).Some?
    requires forall q: nat ::
             q < |p.code| && Start(p.code, 0, q) && Target(p.code, q).Some? ==>
                 Start(p.code, 0, Target(p.code, q).value)
    ensures Start(p.code, 0, Step(p, st).value.ip)
  {
    hide Whole, Start;
    StartWithin(p.code, 0, st.ip);
    NextStart(p.code, 0, st.ip);
    assert Target(p.code, st.ip).Some? ==> Start(p.code, 0, Target(p.code, st.ip).value);
    NextOrTarget(p, st);
  }

  /** A step goes on to the next instruction or takes the jump. */
  lemma {:induction false} NextOrTarget(p: Program, st: State)
    requires Step(p, st).Some?
    ensures var ip := Step(p, st).value.ip;
            st.ip >= 0 && st.ip < |p.code| && (ip == st.ip + Width(p.code[st.ip]) || Target(p.code, st.ip) == Some(ip))
  {
  }
}
