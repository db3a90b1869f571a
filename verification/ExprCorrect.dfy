/** Expression code does to the stack what the tree says, or faults where the tree does. */
module ExprCorrect {
  import opened Base
  import opened Syntax
  import opened Bytecode
  import opened CodeGen
  import opened StackSemantics
  import Arith

  /** From a to the position with the stack given, or to a fault when none is given. */
  ghost predicate Ends(p: Program, a: State, ip: int, r: Option<seq<Value>>) {
    match r
    case Some(t) => Reaches(p, a, State(ip, t))
    case None => Jams(p, a)
  }

  lemma {:induction false} EndsLater(p: Program, a: State, b: State, ip: int, r: Option<seq<Value>>)
    requires Reaches(p, a, b) && Ends(p, b, ip, r)
    ensures Ends(p, a, ip, r)
  {
    hide Reaches, Jams;
    if r.Some? { ReachTrans(p, a, b, State(ip, r.value)); } else { JamsLater(p, a, b); }
  }

  lemma {:induction false} JumpStep(p: Program, pc: nat, off: Short, st: seq<Value>)
    requires At(p.code, pc, Encode(IJump(off)))
    ensures Reaches(p, State(pc, st), State(pc + 3 + off, st))
  {
    hide Reaches, At, Passes;
    StepAt(p, pc, IJump(off), st);
  }

  lemma {:induction false} PopStep(p: Program, pc: nat, st: seq<Value>)
    requires st != [] && At(p.code, pc, POP)
    ensures Reaches(p, State(pc, st), State(pc + 1, Rest(st)))
  {
    hide Reaches, At, Passes;
    StepAt(p, pc, IPop, st);
  }

  /** The conditional jump leaves the condition in place, whichever way it goes, and faults on what is not a bool. */
  lemma {:induction false} BranchStep(p: Program, pc: nat, off: Short, st: seq<Value>)
    requires st != [] && At(p.code, pc, Encode(IJumpIfFalse(off)))
    ensures !Top(st).Bool? ==> Jams(p, State(pc, st))
    ensures Top(st).Bool? ==> Reaches(p, State(pc, st), State(if Top(st).b then pc + 3 else pc + 3 + off, st))
  {
    hide Reaches, At, Passes, Jams;
    StepAt(p, pc, IJumpIfFalse(off), st);
  }

  /** A condition, its jump and its pop: a true condition falls through without it. */
  lemma {:induction false} TestTrue(p: Program, pc: nat, off: Short, st: seq<Value>)
    requires st != [] && Top(st) == Bool(true) && At(p.code, pc, Encode(IJumpIfFalse(off)) + POP)
    ensures Reaches(p, State(pc, st), State(pc + 4, Rest(st)))
  {
    hide Reaches, At;
    AtSplit(p.code, pc, Encode(IJumpIfFalse(off)), POP);
    BranchStep(p, pc, off, st);
    PopStep(p, pc + 3, st);
    ReachTrans(p, State(pc, st), State(pc + 3, st), State(pc + 4, Rest(st)));
  }

  /** A false condition lands on the pop at the jump's target. */
  lemma {:induction false} TestFalse(p: Program, pc: nat, off: Short, st: seq<Value>)
    requires st != [] && Top(st) == Bool(false)
    requires At(p.code, pc, Encode(IJumpIfFalse(off))) && At(p.code, pc + 3 + off, POP)
    ensures Reaches(p, State(pc, st), State(pc + 4 + off, Rest(st)))
  {
    hide Reaches, At;
    BranchStep(p, pc, off, st);
    PopStep(p, pc + 3 + off, st);
    ReachTrans(p, State(pc, st), State(pc + 3 + off, st), State(pc + 4 + off, Rest(st)));
  }

  ghost predicate Placed(e: Expr, locals: seq<Local>, k: nat, p: Program, pc: nat) {
    && CodeE(e, locals, k).Some?
    && At(p.code, pc, CodeE(e, locals, k).value)
    && At(p.consts, k, Consts(e))
  }

  /** What is claimed of the code of e at pc. */
  ghost predicate Computes(e: Expr, locals: seq<Local>, k: nat, st: seq<Value>, p: Program, pc: nat)
    requires CodeE(e, locals, k).Some?
  {
    Ends(p, State(pc, st), pc + |CodeE(e, locals, k).value|, EvalOn(e, locals, st))
  }

  /** Every expression, placed anywhere, over any stack: its code does what the tree does. */
  lemma {:induction false} ExprMoves(e: Expr, locals: seq<Local>, k: nat, st: seq<Value>, p: Program, pc: nat)
    requires Placed(e, locals, k, p, pc)
    ensures Computes(e, locals, k, st, p, pc)
    decreases e
  {
    match e
    case Int(n) => IntMoves(n, locals, k, st, p, pc);
    case BoolLit(b) =>
      hide Reaches, At, Passes, Jams;
      StepAt(p, pc, if b then ITrue else IFalse, st);
    case NoneLit =>
      hide Reaches, At, Passes, Jams;
      StepAt(p, pc, INone, st);
    case Var(x) =>
      hide Reaches, At, Passes, Jams;
      StepAt(p, pc, IGetLocal(Resolve(locals, x).value), st);
    case Assign(x, e1) => AssignMoves(x, e1, locals, k, st, p, pc);
    case Unary(op, e1) => UnaryMoves(op, e1, locals, k, st, p, pc);
    case Binary(op, l, r) => BinaryMoves(op, l, r, locals, k, st, p, pc);
    case And(l, r) => AndMoves(l, r, locals, k, st, p, pc);
    case Or(l, r) => OrMoves(l, r, locals, k, st, p, pc);
    case Cond(c, t, f) => CondMoves(c, t, f, locals, k, st, p, pc);
  }

  lemma {:induction false} IntMoves(n: Literal, locals: seq<Local>, k: nat, st: seq<Value>, p: Program, pc: nat)
    requires Placed(Int(n), locals, k, p, pc)
    ensures Computes(Int(n), locals, k, st, p, pc)
  {
    hide Reaches, Passes, Jams;
    assert p.consts[k] == I32(n) by { assert p.consts[k + 0] == Consts(Int(n))[0]; }
    StepAt(p, pc, IConst(k), st);
  }

  lemma {:induction false} AssignMoves(x: Name, e: Expr, locals: seq<Local>, k: nat, st: seq<Value>, p: Program,
                                       pc: nat)
    requires Placed(Assign(x, e), locals, k, p, pc)
    ensures Computes(Assign(x, e), locals, k, st, p, pc)
    decreases Assign(x, e), 0
  {
    hide Reaches, At, Passes, Jams;
    var i := Resolve(locals, x).value;
    var a := CodeE(e, locals, k).value;
    AtSplit(p.code, pc, a, Encode(ISetLocal(i)));
    ExprMoves(e, locals, k, st, p, pc);
    var t := EvalOn(e, locals, st);
    if t.Some? {
      StepAt(p, pc + |a|, ISetLocal(i), t.value);
      EndsLater(p, State(pc, st), State(pc + |a|, t.value), pc + |a| + 2, EvalOn(Assign(x, e), locals, st));
    }
  }

  lemma {:induction false} UnaryMoves(op: UnOp, e: Expr, locals: seq<Local>, k: nat, st: seq<Value>, p: Program,
                                      pc: nat)
    requires Placed(Unary(op, e), locals, k, p, pc)
    ensures Computes(Unary(op, e), locals, k, st, p, pc)
    decreases Unary(op, e), 0
  {
    hide Reaches, At, Passes, Jams, Arith.UnaryValue;
    var a := CodeE(e, locals, k).value;
    AtSplit(p.code, pc, a, Encode(IUnary(op)));
    ExprMoves(e, locals, k, st, p, pc);
    var t := EvalOn(e, locals, st);
    if t.Some? {
      StepAt(p, pc + |a|, IUnary(op), t.value);
      EndsLater(p, State(pc, st), State(pc + |a|, t.value), pc + |a| + 1, EvalOn(Unary(op, e), locals, st));
    }
  }

  lemma {:induction false} BinaryMoves(op: BinOp, l: Expr, r: Expr, locals: seq<Local>, k: nat, st: seq<Value>,
                                       p: Program, pc: nat)
    requires Placed(Binary(op, l, r), locals, k, p, pc)
    ensures Computes(Binary(op, l, r), locals, k, st, p, pc)
    decreases Binary(op, l, r), 0
  {
    hide Reaches, At, Encode, Operated, Passes, Jams;
    var a := CodeE(l, locals, k).value;
    var b := CodeE(r, locals, k + |Consts(l)|).value;
    BinaryParts(p.code, pc, a, b, op);
    AtSplit(p.consts, k, Consts(l), Consts(r));
    ExprMoves(l, locals, k, st, p, pc);
    var t := EvalOn(l, locals, st);
    if t.Some? {
      ExprMoves(r, locals, k + |Consts(l)|, t.value, p, pc + |a|);
      var u := EvalOn(r, locals, t.value);
      var w := EvalOn(Binary(op, l, r), locals, st);
      var m := State(pc + |a|, t.value);
      if u.Some? {
        OperatorStep(p, pc + |a| + |b|, op, u.value);
        EndsLater(p, m, State(pc + |a| + |b|, u.value), pc + |a| + |b| + 1, w);
      }
      EndsLater(p, State(pc, st), m, pc + |a| + |b| + 1, w);
    }
  }

  lemma {:induction false} OperatorStep(p: Program, pc: nat, op: BinOp, st: seq<Value>)
    requires |st| >= 2 && At(p.code, pc, Encode(IBinary(op)))
    ensures Ends(p, State(pc, st), pc + 1, Operated(op, st))
  {
    hide Reaches, At, Arith.BinaryValue, Passes, Jams;
    StepAt(p, pc, IBinary(op), st);
    assert Rest(Rest(st)) == st[..|st| - 2];
  }

  lemma {:induction false} BinaryParts(code: seq<Byte>, pc: nat, a: seq<Byte>, b: seq<Byte>, op: BinOp)
    requires At(code, pc, a + b + Encode(IBinary(op)))
    ensures At(code, pc, a) && At(code, pc + |a|, b) && At(code, pc + |a| + |b|, Encode(IBinary(op)))
    ensures |a + b + Encode(IBinary(op))| == |a| + |b| + 1
  {
    hide At;
    AtSplit(code, pc, a + b, Encode(IBinary(op)));
    AtSplit(code, pc, a, b);
  }

  lemma {:induction false} AndMoves(l: Expr, r: Expr, locals: seq<Local>, k: nat, st: seq<Value>, p: Program, pc: nat)
    requires Placed(And(l, r), locals, k, p, pc)
    ensures Computes(And(l, r), locals, k, st, p, pc)
    decreases And(l, r), 0
  {
    hide Reaches, At, Encode, Passes, Jams;
    var a := CodeE(l, locals, k).value;
    var b := CodeE(r, locals, k + |Consts(l)|).value;
    AndParts(p.code, pc, a, b);
    AtSplit(p.consts, k, Consts(l), Consts(r));
    ExprMoves(l, locals, k, st, p, pc);
    var t := EvalOn(l, locals, st);
    var q := pc + |a|;
    if t.Some? {
      var w := EvalOn(And(l, r), locals, st);
      var m := State(q, t.value);
      BranchStep(p, q, 1 + |b|, t.value);
      if Top(t.value) == Bool(true) {
        TestTrue(p, q, 1 + |b|, t.value);
        ExprMoves(r, locals, k + |Consts(l)|, Rest(t.value), p, q + 4);
        EndsLater(p, m, State(q + 4, Rest(t.value)), q + 4 + |b|, w);
      }
      EndsLater(p, State(pc, st), m, q + 4 + |b|, w);
    }
  }

  lemma {:induction false} AndParts(code: seq<Byte>, pc: nat, a: seq<Byte>, b: seq<Byte>)
    requires 1 + |b| <= JUMP_MAX && At(code, pc, a + Encode(IJumpIfFalse(1 + |b|)) + POP + b)
    ensures At(code, pc, a) && At(code, pc + |a|, Encode(IJumpIfFalse(1 + |b|)))
    ensures At(code, pc + |a|, Encode(IJumpIfFalse(1 + |b|)) + POP) && At(code, pc + |a| + 4, b)
    ensures |a + Encode(IJumpIfFalse(1 + |b|)) + POP + b| == |a| + 4 + |b|
  {
    hide At;
    var j := Encode(IJumpIfFalse(1 + |b|));
    assert a + j + POP + b == a + (j + POP) + b;
    AtSplit(code, pc, a + (j + POP), b);
    AtSplit(code, pc, a, j + POP);
    AtSplit(code, pc + |a|, j, POP);
  }

  lemma {:induction false} OrMoves(l: Expr, r: Expr, locals: seq<Local>, k: nat, st: seq<Value>, p: Program, pc: nat)
    requires Placed(Or(l, r), locals, k, p, pc)
    ensures Computes(Or(l, r), locals, k, st, p, pc)
    decreases Or(l, r), 0
  {
    hide Reaches, At, Encode, Passes, Jams;
    var a := CodeE(l, locals, k).value;
    var b := CodeE(r, locals, k + |Consts(l)|).value;
    OrParts(p.code, pc, a, b);
    AtSplit(p.consts, k, Consts(l), Consts(r));
    ExprMoves(l, locals, k, st, p, pc);
    var t := EvalOn(l, locals, st);
    var q := pc + |a|;
    if t.Some? {
      var w := EvalOn(Or(l, r), locals, st);
      var m := State(q, t.value);
      BranchStep(p, q, 3, t.value);
      if Top(t.value) == Bool(true) {
        JumpStep(p, q + 3, 1 + |b|, t.value);
        EndsLater(p, m, State(q + 3, t.value), q + 7 + |b|, w);
      } else if Top(t.value) == Bool(false) {
        TestFalse(p, q, 3, t.value);
        ExprMoves(r, locals, k + |Consts(l)|, Rest(t.value), p, q + 7);
        EndsLater(p, m, State(q + 7, Rest(t.value)), q + 7 + |b|, w);
      }
      EndsLater(p, State(pc, st), m, q + 7 + |b|, w);
    }
  }

  lemma {:induction false} OrParts(code: seq<Byte>, pc: nat, a: seq<Byte>, b: seq<Byte>)
    requires 1 + |b| <= JUMP_MAX && At(code, pc, a + Encode(IJumpIfFalse(3)) + Encode(IJump(1 + |b|)) + POP + b)
    ensures At(code, pc, a) && At(code, pc + |a|, Encode(IJumpIfFalse(3)))
    ensures At(code, pc + |a| + 3, Encode(IJump(1 + |b|))) && At(code, pc + |a| + 6, POP) && At(code, pc + |a| + 7, b)
    ensures |a + Encode(IJumpIfFalse(3)) + Encode(IJump(1 + |b|)) + POP + b| == |a| + 7 + |b|
  {
    hide At;
    var j1, j2 := Encode(IJumpIfFalse(3)), Encode(IJump(1 + |b|));
    AtSplit(code, pc, a + j1 + j2 + POP, b);
    AtSplit(code, pc, a + j1 + j2, POP);
    AtSplit(code, pc, a + j1, j2);
    AtSplit(code, pc, a, j1);
  }

  lemma {:induction false} CondShape(c: Expr, t: Expr, f: Expr, locals: seq<Local>, k: nat, p: Program, pc: nat)
      returns (a: nat, b: nat, d: nat, k1: nat, k2: nat)
    requires Placed(Cond(c, t, f), locals, k, p, pc)
    ensures Placed(c, locals, k, p, pc) && |CodeE(c, locals, k).value| == a
    ensures Placed(t, locals, k1, p, pc + a + 4) && |CodeE(t, locals, k1).value| == b
    ensures Placed(f, locals, k2, p, pc + a + 8 + b) && |CodeE(f, locals, k2).value| == d
    ensures |CodeE(Cond(c, t, f), locals, k).value| == a + 8 + b + d && b + 4 <= JUMP_MAX && 1 + d <= JUMP_MAX
    ensures At(p.code, pc + a, Encode(IJumpIfFalse(1 + b + 3))) && At(p.code, pc + a + 7 + b, POP)
    ensures At(p.code, pc + a, Encode(IJumpIfFalse(1 + b + 3)) + POP)
    ensures At(p.code, pc + a + 4 + b, Encode(IJump(1 + d)))
  {
    hide At, Encode, Resolve;
    k1 := k + |Consts(c)|;
    k2 := k1 + |Consts(t)|;
    var ca := CodeE(c, locals, k).value;
    var cb := CodeE(t, locals, k1).value;
    var cd := CodeE(f, locals, k2).value;
    a, b, d := |ca|, |cb|, |cd|;
    CondParts(p.code, pc, ca, cb, cd);
    AtSplit(p.consts, k, Consts(c) + Consts(t), Consts(f));
    AtSplit(p.consts, k, Consts(c), Consts(t));
  }

  lemma {:induction false} CondMoves(c: Expr, t: Expr, f: Expr, locals: seq<Local>, k: nat, st: seq<Value>, p: Program,
                                     pc: nat)
    requires Placed(Cond(c, t, f), locals, k, p, pc)
    ensures Computes(Cond(c, t, f), locals, k, st, p, pc)
    decreases Cond(c, t, f), 0
  {
    hide Reaches, At, Encode, CodeE, Consts, Placed, Passes, Jams;
    var a, b, d, k1, k2 := CondShape(c, t, f, locals, k, p, pc);
    PlacedCode(Cond(c, t, f), locals, k, p, pc);
    ExprMoves(c, locals, k, st, p, pc);
    var v := EvalOn(c, locals, st);
    var q, end := pc + a, pc + a + 8 + b + d;
    if v.Some? {
      var w := EvalOn(Cond(c, t, f), locals, st);
      var m := State(q, v.value);
      BranchStep(p, q, 1 + b + 3, v.value);
      if Top(v.value) == Bool(true) {
        TestTrue(p, q, 1 + b + 3, v.value);
        ExprMoves(t, locals, k1, Rest(v.value), p, q + 4);
        if w.Some? {
          JumpStep(p, q + 4 + b, 1 + d, w.value);
          EndsLater(p, State(q + 4, Rest(v.value)), State(q + 4 + b, w.value), end, w);
        }
        EndsLater(p, m, State(q + 4, Rest(v.value)), end, w);
      } else if Top(v.value) == Bool(false) {
        TestFalse(p, q, 1 + b + 3, v.value);
        ExprMoves(f, locals, k2, Rest(v.value), p, q + 8 + b);
        EndsLater(p, m, State(q + 8 + b, Rest(v.value)), end, w);
      }
      EndsLater(p, State(pc, st), m, end, w);
    }
  }

  lemma {:induction false} PlacedCode(e: Expr, locals: seq<Local>, k: nat, p: Program, pc: nat)
    requires Placed(e, locals, k, p, pc)
    ensures CodeE(e, locals, k).Some?
  {
  }

  lemma {:induction false} CondParts(code: seq<Byte>, pc: nat, a: seq<Byte>, b: seq<Byte>, d: seq<Byte>)
    requires 1 + |b| + 3 <= JUMP_MAX && 1 + |d| <= JUMP_MAX
    requires At(code, pc, a + Encode(IJumpIfFalse(1 + |b| + 3)) + POP + b + Encode(IJump(1 + |d|)) + POP + d)
    ensures At(code, pc, a) && At(code, pc + |a|, Encode(IJumpIfFalse(1 + |b| + 3)))
    ensures At(code, pc + |a|, Encode(IJumpIfFalse(1 + |b| + 3)) + POP) && At(code, pc + |a| + 4, b)
    ensures At(code, pc + |a| + 4 + |b|, Encode(IJump(1 + |d|)))
    ensures At(code, pc + |a| + 7 + |b|, POP) && At(code, pc + |a| + 8 + |b|, d)
    ensures |a + Encode(IJumpIfFalse(1 + |b| + 3)) + POP + b + Encode(IJump(1 + |d|)) + POP + d| == |a| + 8 + |b| + |d|
  {
    hide At;
    var j1, j2 := Encode(IJumpIfFalse(1 + |b| + 3)), Encode(IJump(1 + |d|));
    AtSplit(code, pc, a + j1 + POP + b + j2 + POP, d);
    AtSplit(code, pc, a + j1 + POP + b + j2, POP);
    AtSplit(code, pc, a + j1 + POP + b, j2);
    AtSplit(code, pc, a + j1 + POP, b);
    assert a + j1 + POP == a + (j1 + POP);
    AtSplit(code, pc, a, j1 + POP);
    AtSplit(code, pc + |a|, j1, POP);
  }
}
