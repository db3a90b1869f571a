/** Statement code, placed anywhere, over any stack, does to it what the tree does, for every loop count. */
module StmtCorrect {
  import opened Base
  import opened Syntax
  import opened Bytecode
  import opened CodeGen
  import opened StackSemantics
  import opened ExprCorrect
  import opened Layout

  function Of(cx: Cx): Scope {
    Scope(cx.locals, cx.depth, cx.loop.InLoop? && cx.loop.broken)
  }

  /** What is claimed of size bytes at pc: fall off the end, land on the break target, go back to the loop's start, stop
      with a fault, or run for as long as the fuel says. */
  ghost predicate Lands(f: Track, cx: Cx, size: int, fuel: nat, st: seq<Value>, p: Program, pc: int, brk: int) {
    match f
    case Fell(t) => Reaches(p, State(pc, st), State(pc + size, t))
    case Left(t) => Reaches(p, State(pc, st), State(brk, t))
    case Again(t) => cx.loop.InLoop? && Passes(p, State(pc, st), State(pc - cx.loop.back, t))
    case Stuck => Jams(p, State(pc, st))
    case Tired => Lasts(p, State(pc, st), fuel)
  }

  /** What is reached from a later point of the same fragment is reached from its start. */
  lemma {:induction false} LandsLater(f: Track, cx: Cx, size: int, fuel: nat, st: seq<Value>, p: Program, pc: int,
                                      brk: int, cx1: Cx, size1: int, st1: seq<Value>, pc1: int)
    requires Reaches(p, State(pc, st), State(pc1, st1)) && Lands(f, cx1, size1, fuel, st1, p, pc1, brk)
    requires f.Fell? ==> pc1 + size1 == pc + size
    requires f.Again? ==> cx.loop.InLoop? && cx1.loop.back == cx.loop.back + (pc1 - pc)
    ensures Lands(f, cx, size, fuel, st, p, pc, brk)
  {
    hide Reaches, Passes, Jams, Lasts;
    var a, b := State(pc, st), State(pc1, st1);
    match f
    case Fell(t) => ReachTrans(p, a, b, State(pc + size, t));
    case Left(t) => ReachTrans(p, a, b, State(brk, t));
    case Again(t) => PassTrans(p, a, b, State(pc - cx.loop.back, t));
    case Stuck => JamsLater(p, a, b);
    case Tired => LastsLater(p, a, b, fuel);
  }

  /** Once round a loop uses up one unit of fuel. */
  lemma {:induction false} LandsRound(f: Track, cx: Cx, size: int, fuel: nat, st: seq<Value>, p: Program, pc: int,
                                      brk: int, st1: seq<Value>)
    requires fuel > 0 && Passes(p, State(pc, st), State(pc, st1)) && Lands(f, cx, size, fuel - 1, st1, p, pc, brk)
    ensures Lands(f, cx, size, fuel, st, p, pc, brk)
  {
    hide Reaches, Passes, Jams, Lasts;
    PassReaches(p, State(pc, st), State(pc, st1));
    if f.Tired? {
      LastsLonger(p, State(pc, st), State(pc, st1), fuel - 1);
    } else {
      LandsLater(f, cx, size, fuel, st, p, pc, brk, cx, size, st1, pc);
    }
  }

  /** The same fragment seen from around it, with nothing of the loop between. */
  lemma {:induction false} LandsCx(f: Track, a: Cx, b: Cx, size: int, fuel: nat, st: seq<Value>, p: Program, pc: int,
                                   brk: int)
    requires Lands(f, a, size, fuel, st, p, pc, brk) && a.loop == b.loop
    ensures Lands(f, b, size, fuel, st, p, pc, brk)
  {
  }

  /** A fragment that is fallen off goes on to the end of a longer one. */
  lemma {:induction false} LandsExtend(f: Track, cx: Cx, size1: int, size2: int, fuel: nat, st: seq<Value>, p: Program,
                                       pc: int, brk: int)
    requires Lands(f, cx, size1, fuel, st, p, pc, brk)
    requires f.Fell? ==> Reaches(p, State(pc + size1, f.st), State(pc + size2, f.st))
    ensures Lands(f, cx, size2, fuel, st, p, pc, brk)
  {
    hide Reaches, Passes, Jams, Lasts;
    if f.Fell? { ReachTrans(p, State(pc, st), State(pc + size1, f.st), State(pc + size2, f.st)); }
  }

  /** An expression as a fragment. */
  lemma {:induction false} FragmentMoves(e: Expr, cx: Cx, st: seq<Value>, p: Program, pc: int, brk: int)
    requires Fragment(e, cx).Some? && Ready(Fragment(e, cx).value, cx, p, pc, brk)
    ensures pc >= 0
    ensures var t := EvalOn(e, cx.locals, st);
            && (t.Some? ==> Reaches(p, State(pc, st), State(pc + |Fragment(e, cx).value.code|, t.value)))
            && (t.None? ==> Jams(p, State(pc, st)))
  {
    hide Reaches, At, CodeE, EvalOn, Jams;
    FitsSolid(p.code, pc, Fragment(e, cx).value, brk);
    assert pc >= 0;
    ExprMoves(e, cx.locals, cx.k, st, p, pc);
  }

  lemma {:induction false} PopsMove(p: Program, pc: nat, n: nat, st: seq<Value>)
    requires At(p.code, pc, Pops(n))
    ensures n <= |st| ==> Reaches(p, State(pc, st), State(pc + n, st[..|st| - n]))
    ensures n > |st| ==> Jams(p, State(pc, st))
    decreases n
  {
    hide Reaches, At, Jams, Passes;
    if n == 0 {
      ReachRefl(p, State(pc, st));
      assert st[..|st|] == st;
    } else {
      AtSplit(p.code, pc, Pops(n - 1), POP);
      PopsMove(p, pc, n - 1, st);
      if n - 1 <= |st| {
        var t := st[..|st| - (n - 1)];
        StepAt(p, pc + n - 1, IPop, t);
        if n <= |st| {
          assert t[..|t| - 1] == st[..|st| - n];
          ReachTrans(p, State(pc, st), State(pc + n - 1, t), State(pc + n, st[..|st| - n]));
        } else {
          JamsLater(p, State(pc, st), State(pc + n - 1, t));
        }
      }
    }
  }

  /** The pops at the end of a scope. */
  lemma {:induction false} DropLands(f: Track, n: nat, cx: Cx, size: nat, fuel: nat, st: seq<Value>, p: Program,
                                     pc: nat, brk: int)
    requires Lands(f, cx, size, fuel, st, p, pc, brk) && At(p.code, pc + size, Pops(n))
    ensures Lands(f.Drop(n), cx, size + n, fuel, st, p, pc, brk)
  {
    hide Reaches, Passes, Jams, Lasts, At, Pops;
    if f.Fell? {
      PopsMove(p, pc + size, n, f.st);
      if n <= |f.st| {
        ReachTrans(p, State(pc, st), State(pc + size, f.st), State(pc + size + n, f.st[..|f.st| - n]));
      } else {
        JamsLater(p, State(pc, st), State(pc + size, f.st));
      }
    }
  }

  lemma {:induction false} OfAfter(s: Stmt, cx: Cx)
    requires CodeS(s, cx).Some?
    ensures Of(After(cx, CodeS(s, cx).value)) == Of(cx).Past(Breaks(s))
  {
    hide CodeS, Breaks;
    SlotTaken(s, cx);
  }

  ghost predicate Pre(s: Stmt, cx: Cx, p: Program, pc: int, brk: int) {
    CodeS(s, cx).Some? && Ready(CodeS(s, cx).value, cx, p, pc, brk)
  }

  ghost predicate Post(s: Stmt, cx: Cx, st: seq<Value>, fuel: nat, p: Program, pc: int, brk: int)
    requires CodeS(s, cx).Some?
  {
    Lands(ExecOn(s, Of(cx), st, fuel), cx, |CodeS(s, cx).value.code|, fuel, st, p, pc, brk)
  }

  /** Main theorem: the code of every statement, placed anywhere, over any stack, does what the tree does to it. */
  lemma {:induction false} StmtMoves(s: Stmt, cx: Cx, st: seq<Value>, fuel: nat, p: Program, pc: int, brk: int)
    requires Pre(s, cx, p, pc, brk)
    ensures Post(s, cx, st, fuel, p, pc, brk)
    decreases fuel, s, 2
  {
    hide Lands, CodeS, ExecOn, Ready;
    match s
    case ExprS(e) => ExprSMoves(e, cx, st, fuel, p, pc, brk);
    case Block(ds) => BlockMoves(ds, cx, st, fuel, p, pc, brk);
    case If(c, t, f) => IfMoves(c, t, f, cx, st, fuel, p, pc, brk);
    case While(c, body) => WhileMoves(c, body, cx, st, fuel, p, pc, brk);
    case Loop(body) => LoopMoves(body, cx, st, fuel, p, pc, brk);
    case ForLoop(cond, inc, body) => ForMoves(cond, inc, body, cx, st, fuel, p, pc, brk);
    case Match(e, arms) => MatchMoves(e, arms, cx, st, fuel, p, pc, brk);
    case Break => BreakMoves(cx, st, fuel, p, pc, brk);
    case Continue => ContinueMoves(cx, st, fuel, p, pc, brk);
  }

  lemma {:induction false} ExprSMoves(e: Expr, cx: Cx, st: seq<Value>, fuel: nat, p: Program, pc: int, brk: int)
    requires Pre(ExprS(e), cx, p, pc, brk)
    ensures Post(ExprS(e), cx, st, fuel, p, pc, brk)
  {
    hide Reaches, Ready, Fragment, EvalOn, Jams, Passes, Lasts;
    var a := Fragment(e, cx).value;
    var pop := Plain(POP, [], cx);
    ReadyJoin(a, pop, cx, p, pc, brk);
    ReadySolid(pop, After(cx, a), p, pc + |a.code|, brk);
    FragmentMoves(e, cx, st, p, pc, brk);
    var t := EvalOn(e, cx.locals, st);
    if t.Some? {
      PopStep(p, pc + |a.code|, t.value);
      ReachTrans(p, State(pc, st), State(pc + |a.code|, t.value), State(pc + |a.code| + 1, Rest(t.value)));
    }
  }

  lemma {:induction false} ContinueMoves(cx: Cx, st: seq<Value>, fuel: nat, p: Program, pc: int, brk: int)
    requires Pre(Continue, cx, p, pc, brk)
    ensures Post(Continue, cx, st, fuel, p, pc, brk)
  {
    hide Reaches, Ready, Jams, Passes, Lasts, At;
    ReadySolid(CodeS(Continue, cx).value, cx, p, pc, brk);
    StepAt(p, pc, IContinue(cx.loop.back + 3), st);
  }

  lemma {:induction false} BreakMoves(cx: Cx, st: seq<Value>, fuel: nat, p: Program, pc: int, brk: int)
    requires Pre(Break, cx, p, pc, brk)
    ensures Post(Break, cx, st, fuel, p, pc, brk)
  {
    hide Reaches, Jams, Passes, Lasts;
    if cx.loop.broken {
      ReachRefl(p, State(pc, st));
    } else {
      var hi, lo := p.code[pc + 1], p.code[pc + 2];
      assert p.code[pc + 0] == CodeS(Break, cx).value.code[0];
      assert Encode(IBreak(Short2(hi, lo))) == [48, hi, lo];
      StepAt(p, pc, IBreak(Short2(hi, lo)), st);
    }
  }

  /** Where the two branches stand relative to the loop around the `if`. */
  lemma {:induction false} IfContext(cx: Cx, a: Out, t: Stmt, cx1: Cx, b: Out, cx2: Cx)
    requires a.hole == -1 && a.locals == cx.locals
    requires cx1 == After(cx, Join(a, Plain([39, 255, 255] + POP, [], cx))) && CodeS(t, cx1) == Some(b)
    requires cx2 == After(After(cx1, b), Plain([41, 255, 255] + POP, [], cx))
    ensures Of(cx1) == Of(cx) && Of(cx2) == Of(cx).Past(Breaks(t))
    ensures cx.loop.InLoop? == cx1.loop.InLoop? == cx2.loop.InLoop?
    ensures cx.loop.InLoop? ==> cx1.loop.back == cx.loop.back + |a.code| + 4
    ensures cx.loop.InLoop? ==> cx2.loop.back == cx.loop.back + |a.code| + 8 + |b.code|
  {
    hide CodeS, Breaks;
    OfAfter(t, cx1);
  }

  /** The pieces of a placed `if`. */
  lemma {:induction false} IfShape(c: Expr, t: Stmt, f: Stmt, cx: Cx, p: Program, pc: int, brk: int)
      returns (a: Out, cx1: Cx, b: Out, cx2: Cx, d: Out)
    requires Pre(If(c, t, f), cx, p, pc, brk)
    ensures Fragment(c, cx) == Some(a) && CodeS(t, cx1) == Some(b) && CodeS(f, cx2) == Some(d)
    ensures pc >= 0 && 1 + |b.code| + 3 <= JUMP_MAX && 1 + |d.code| <= JUMP_MAX
    ensures |CodeS(If(c, t, f), cx).value.code| == |a.code| + 8 + |b.code| + |d.code|
    ensures Ready(a, cx, p, pc, brk)
    ensures At(p.code, pc + |a.code|, Encode(IJumpIfFalse(1 + |b.code| + 3)) + POP)
    ensures At(p.code, pc + |a.code|, Encode(IJumpIfFalse(1 + |b.code| + 3)))
    ensures At(p.code, pc + |a.code| + 4 + |b.code|, Encode(IJump(1 + |d.code|)))
    ensures At(p.code, pc + |a.code| + 7 + |b.code|, POP)
    ensures Pre(t, cx1, p, pc + |a.code| + 4, brk)
    ensures Pre(f, cx2, p, pc + |a.code| + 8 + |b.code|, brk)
    ensures Of(cx1) == Of(cx) && Of(cx2) == Of(cx).Past(Breaks(t))
    ensures cx.loop.InLoop? == cx1.loop.InLoop? == cx2.loop.InLoop?
    ensures cx.loop.InLoop? ==> cx1.loop.back == cx.loop.back + |a.code| + 4
    ensures cx.loop.InLoop? ==> cx2.loop.back == cx.loop.back + |a.code| + 8 + |b.code|
  {
    hide At, Ready, Fragment, Encode, IfOut, Plain, Join, Breaks;
    a := Fragment(c, cx).value;
    cx1 := After(cx, Join(a, Plain([39, 255, 255] + POP, [], cx)));
    b := CodeS(t, cx1).value;
    cx2 := After(After(cx1, b), Plain([41, 255, 255] + POP, [], cx));
    d := CodeS(f, cx2).value;
    IfContext(cx, a, t, cx1, b, cx2);
    IfParts(cx, a, b, d, cx1, cx2, p, pc, brk);
  }

  lemma {:induction false} IfMoves(c: Expr, t: Stmt, f: Stmt, cx: Cx, st: seq<Value>, fuel: nat, p: Program, pc: int,
                                   brk: int)
    requires Pre(If(c, t, f), cx, p, pc, brk)
    ensures Post(If(c, t, f), cx, st, fuel, p, pc, brk)
    decreases fuel, If(c, t, f), 0
  {
    hide Reaches, At, Ready, EvalOn, Fragment, Encode, Lands, CodeS, Pre, Jams, Of;
    var a, cx1, b, cx2, d := IfShape(c, t, f, cx, p, pc, brk);
    var size := |a.code| + 8 + |b.code| + |d.code|;
    FragmentMoves(c, cx, st, p, pc, brk);
    var v := EvalOn(c, cx.locals, st);
    var r := ExecOn(If(c, t, f), Of(cx), st, fuel);
    OfParts(cx);
    if v.None? {
      StuckLands(cx, size, fuel, st, p, pc, brk);
    } else {
      var q := pc + |a.code|;
      BranchStep(p, q, 1 + |b.code| + 3, v.value);
      if Top(v.value) == Bool(true) {
        TestTrue(p, q, 1 + |b.code| + 3, v.value);
        ReachTrans(p, State(pc, st), State(q, v.value), State(q + 4, Rest(v.value)));
        StmtMoves(t, cx1, Rest(v.value), fuel, p, q + 4, brk);
        if r.Fell? { JumpStep(p, q + 4 + |b.code|, 1 + |d.code|, r.st); }
        LandsExtend(r, cx1, |b.code|, size - (|a.code| + 4), fuel, Rest(v.value), p, q + 4, brk);
        AgainIn(r, cx1, size - (|a.code| + 4), fuel, Rest(v.value), p, q + 4, brk);
        LandsLater(r, cx, size, fuel, st, p, pc, brk, cx1, size - (|a.code| + 4), Rest(v.value), q + 4);
      } else if Top(v.value) == Bool(false) {
        TestFalse(p, q, 1 + |b.code| + 3, v.value);
        ReachTrans(p, State(pc, st), State(q, v.value), State(q + 8 + |b.code|, Rest(v.value)));
        StmtMoves(f, cx2, Rest(v.value), fuel, p, q + 8 + |b.code|, brk);
        AgainIn(r, cx2, |d.code|, fuel, Rest(v.value), p, q + 8 + |b.code|, brk);
        LandsLater(r, cx, size, fuel, st, p, pc, brk, cx2, |d.code|, Rest(v.value), q + 8 + |b.code|);
      } else {
        JamsLater(p, State(pc, st), State(q, v.value));
        StuckLands(cx, size, fuel, st, p, pc, brk);
      }
    }
  }

  lemma {:induction false} OfParts(cx: Cx)
    ensures Of(cx).locals == cx.locals && Of(cx).depth == cx.depth
  {
  }

  lemma {:induction false} StuckLands(cx: Cx, size: int, fuel: nat, st: seq<Value>, p: Program, pc: int, brk: int)
    requires Jams(p, State(pc, st))
    ensures Lands(Stuck, cx, size, fuel, st, p, pc, brk)
  {
  }

  lemma {:induction false} FellLands(cx: Cx, size: int, fuel: nat, st: seq<Value>, t: seq<Value>, p: Program, pc: int,
                                     brk: int)
    requires Reaches(p, State(pc, st), State(pc + size, t))
    ensures Lands(Fell(t), cx, size, fuel, st, p, pc, brk)
  {
  }

  lemma {:induction false} AgainIn(f: Track, cx: Cx, size: int, fuel: nat, st: seq<Value>, p: Program, pc: int,
                                   brk: int)
    requires Lands(f, cx, size, fuel, st, p, pc, brk)
    ensures f.Again? ==> cx.loop.InLoop?
  {
  }

  /** A body run from a loop's start: `break` has reached the loop's end, a fall or `continue` is back at the start. */
  lemma {:induction false} LoopOnce(f: Track, bcx: Cx, size: int, fuel: nat, st: seq<Value>, st1: seq<Value>,
                                    p: Program, pc: int, start: int, at: int, end: int, off: Short)
    requires Reaches(p, State(pc, st), State(at, st1)) && Lands(f, bcx, size, fuel, st1, p, at, end)
    requires bcx.loop.InLoop? && at - bcx.loop.back == start && at + size >= 0
    requires At(p.code, at + size, Encode(ILoop(off))) && at + size + 3 - off == start
    ensures f.Left? ==> Reaches(p, State(pc, st), State(end, f.st))
    ensures f.Fell? || f.Again? ==> Passes(p, State(pc, st), State(start, f.st))
    ensures f.Stuck? ==> Jams(p, State(pc, st))
    ensures f.Tired? ==> Lasts(p, State(pc, st), fuel)
  {
    hide Reaches, At, Passes, Jams, Lasts;
    var a, b := State(pc, st), State(at, st1);
    match f
    case Left(t) => ReachTrans(p, a, b, State(end, t));
    case Again(t) => PassTrans(p, a, b, State(start, t));
    case Fell(t) =>
      StepAt(p, at + size, ILoop(off), t);
      ReachTrans(p, a, b, State(at + size, t));
      PassTrans(p, a, State(at + size, t), State(start, t));
    case Stuck => JamsLater(p, a, b);
    case Tired => LastsLater(p, a, b, fuel);
  }

  /** What is left to do after a body: out of the loop, round again, or what stopped it. */
  lemma {:induction false} LoopLands(f: Track, r: Track, cx: Cx, size: int, fuel: nat, st: seq<Value>, p: Program,
                                     pc: int, brk: int)
    requires f.Left? ==> Reaches(p, State(pc, st), State(pc + size, f.st)) && r == Fell(f.st)
    requires f.Fell? || f.Again? ==>
               && Passes(p, State(pc, st), State(pc, f.st))
               && if fuel == 0 then r == Tired else Lands(r, cx, size, fuel - 1, f.st, p, pc, brk)
    requires f.Stuck? ==> Jams(p, State(pc, st)) && r == Stuck
    requires f.Tired? ==> Lasts(p, State(pc, st), fuel) && r == Tired
    ensures Lands(r, cx, size, fuel, st, p, pc, brk)
  {
    hide Reaches, Passes, Jams, Lasts;
    if f.Fell? || f.Again? {
      if fuel == 0 { LastsNone(p, State(pc, st)); } else { LandsRound(r, cx, size, fuel, st, p, pc, brk, f.st); }
    }
  }

  lemma {:induction false} LoopShape(body: Stmt, cx: Cx, p: Program, pc: int, brk: int) returns (bcx: Cx, b: Out)
    requires Pre(Loop(body), cx, p, pc, brk)
    ensures CodeS(body, bcx) == Some(b) && bcx.loop == InLoop(0, false) && Of(bcx) == Of(cx).Inside()
    ensures pc >= 0 && |b.code| + 3 <= JUMP_MAX && |CodeS(Loop(body), cx).value.code| == |b.code| + 3
    ensures Pre(body, bcx, p, pc, pc + |b.code| + 3) && At(p.code, pc + |b.code|, Encode(ILoop(|b.code| + 3)))
  {
    hide At, Ready, Encode, LoopOut;
    bcx := BodyCx(cx, 0, 0);
    b := CodeS(body, bcx).value;
    LoopParts(cx, b, p, pc, brk);
  }

  lemma {:induction false} LoopMoves(body: Stmt, cx: Cx, st: seq<Value>, fuel: nat, p: Program, pc: int, brk: int)
    requires Pre(Loop(body), cx, p, pc, brk)
    ensures Post(Loop(body), cx, st, fuel, p, pc, brk)
    decreases fuel, Loop(body), 0
  {
    hide Reaches, At, Ready, Encode, Lands, CodeS, Pre, Of, Jams, Passes, Lasts;
    var s := Loop(body);
    var bcx, b := LoopShape(body, cx, p, pc, brk);
    var end := pc + |b.code| + 3;
    ReachRefl(p, State(pc, st));
    StmtMoves(body, bcx, st, fuel, p, pc, end);
    var f := ExecOn(body, Of(bcx), st, fuel);
    LoopOnce(f, bcx, |b.code|, fuel, st, st, p, pc, pc, pc, end, |b.code| + 3);
    if (f.Fell? || f.Again?) && fuel > 0 { StmtMoves(s, cx, f.st, fuel - 1, p, pc, brk); }
    LoopLands(f, ExecOn(s, Of(cx), st, fuel), cx, end - pc, fuel, st, p, pc, brk);
  }

  lemma {:induction false} WhileShape(c: Expr, body: Stmt, cx: Cx, p: Program, pc: int, brk: int)
      returns (a: Out, bcx: Cx, b: Out)
    requires Pre(While(c, body), cx, p, pc, brk)
    ensures Fragment(c, cx) == Some(a) && CodeS(body, bcx) == Some(b)
    ensures var q, end := pc + |a.code|, pc + |a.code| + 8 + |b.code|;
            && pc >= 0 && 1 + |b.code| + 3 <= JUMP_MAX && |a.code| + 4 + |b.code| + 3 <= JUMP_MAX
            && |CodeS(While(c, body), cx).value.code| == |a.code| + 8 + |b.code|
            && Ready(a, cx, p, pc, end) && Pre(body, bcx, p, q + 4, end)
            && At(p.code, q, Encode(IJumpIfFalse(1 + |b.code| + 3)) + POP)
            && At(p.code, q, Encode(IJumpIfFalse(1 + |b.code| + 3)))
            && At(p.code, q + 4 + |b.code|, Encode(ILoop(|a.code| + 4 + |b.code| + 3)))
            && At(p.code, q + 7 + |b.code|, POP)
    ensures bcx.loop == InLoop(|a.code| + 4, false) && Of(bcx) == Of(cx).Inside()
  {
    hide At, Ready, Fragment, Encode, WhileOut;
    a := Fragment(c, cx).value;
    bcx := BodyCx(cx, |a.consts|, |a.code| + 4);
    b := CodeS(body, bcx).value;
    WhileParts(cx, a, b, p, pc, brk);
  }

  lemma {:induction false} WhileMoves(c: Expr, body: Stmt, cx: Cx, st: seq<Value>, fuel: nat, p: Program, pc: int,
                                      brk: int)
    requires Pre(While(c, body), cx, p, pc, brk)
    ensures Post(While(c, body), cx, st, fuel, p, pc, brk)
    decreases fuel, While(c, body), 0
  {
    hide Reaches, At, Ready, EvalOn, Fragment, Encode, Lands, CodeS, Pre, Of, Jams, Passes, Lasts;
    var s := While(c, body);
    var a, bcx, b := WhileShape(c, body, cx, p, pc, brk);
    var q, end := pc + |a.code|, pc + |a.code| + 8 + |b.code|;
    var r := ExecOn(s, Of(cx), st, fuel);
    FragmentMoves(c, cx, st, p, pc, end);
    OfParts(cx);
    var v := EvalOn(c, cx.locals, st);
    if v.None? {
      StuckLands(cx, end - pc, fuel, st, p, pc, brk);
    } else {
      BranchStep(p, q, 1 + |b.code| + 3, v.value);
      if Top(v.value) == Bool(false) {
        TestFalse(p, q, 1 + |b.code| + 3, v.value);
        ReachTrans(p, State(pc, st), State(q, v.value), State(end, Rest(v.value)));
        FellLands(cx, end - pc, fuel, st, Rest(v.value), p, pc, brk);
      } else if Top(v.value) == Bool(true) {
        TestTrue(p, q, 1 + |b.code| + 3, v.value);
        var u := Rest(v.value);
        ReachTrans(p, State(pc, st), State(q, v.value), State(q + 4, u));
        StmtMoves(body, bcx, u, fuel, p, q + 4, end);
        var f := ExecOn(body, Of(bcx), u, fuel);
        LoopOnce(f, bcx, |b.code|, fuel, st, u, p, pc, pc, q + 4, end, |a.code| + 4 + |b.code| + 3);
        if (f.Fell? || f.Again?) && fuel > 0 { StmtMoves(s, cx, f.st, fuel - 1, p, pc, brk); }
        LoopLands(f, r, cx, end - pc, fuel, st, p, pc, brk);
      } else {
        JamsLater(p, State(pc, st), State(q, v.value));
        StuckLands(cx, end - pc, fuel, st, p, pc, brk);
      }
    }
  }

  /** The test of a `for`: on to the jump over the increment, or out past the loop. */
  lemma {:induction false} ForTest(cond: Option<Expr>, cx: Cx, st: seq<Value>, p: Program, pc: int, off: nat, end: int)
    requires ForCond(cond, cx).Some? && pc >= 0
    requires cond.Some? ==> ForTestPlaced(cx, ForCond(cond, cx).value, p, pc, off, end)
    ensures var v, size := TestOn(cond, Of(cx), st), |ForCond(cond, cx).value.code|;
            && (v.None? || !Top(v.value).Bool? ==> Jams(p, State(pc, st)))
            && (v.Some? && Top(v.value) == Bool(true) ==>
                  Reaches(p, State(pc, st), State(pc + size + (if cond.Some? then 4 else 0), Rest(v.value))))
            && (v.Some? && Top(v.value) == Bool(false) ==> Reaches(p, State(pc, st), State(end, Rest(v.value))))
  {
    hide Reaches, At, Ready, Encode, EvalOn, Fragment, Jams;
    if cond.None? {
      ReachRefl(p, State(pc, st));
      assert Rest(st + [Bool(true)]) == st;
    } else {
      var a := Fragment(cond.value, cx).value;
      FragmentMoves(cond.value, cx, st, p, pc, end);
      var v := EvalOn(cond.value, cx.locals, st);
      var q := pc + |a.code|;
      if v.Some? {
        BranchStep(p, q, off, v.value);
        if Top(v.value) == Bool(true) {
          TestTrue(p, q, off, v.value);
          ReachTrans(p, State(pc, st), State(q, v.value), State(q + 4, Rest(v.value)));
        } else if Top(v.value) == Bool(false) {
          TestFalse(p, q, off, v.value);
          ReachTrans(p, State(pc, st), State(q, v.value), State(end, Rest(v.value)));
        } else {
          JamsLater(p, State(pc, st), State(q, v.value));
        }
      }
    }
  }

  /** The increment runs, is popped, and jumps back to the condition. */
  lemma {:induction false} ForIncrement(inc: Expr, icx: Cx, st: seq<Value>, p: Program, at: int, end: int, off: Short)
    requires Fragment(inc, icx).Some? && Ready(Fragment(inc, icx).value, icx, p, at, end)
    requires var n := |Fragment(inc, icx).value.code|;
             at >= 0 && At(p.code, at + n, POP) && At(p.code, at + n + 1, Encode(ILoop(off)))
    ensures var n, v := |Fragment(inc, icx).value.code|, EvalOn(inc, icx.locals, st);
            && (v.None? ==> Jams(p, State(at, st)))
            && (v.Some? ==> Passes(p, State(at, st), State(at + n + 4 - off, Rest(v.value))))
  {
    hide Reaches, At, Ready, EvalOn, Fragment, Jams, Passes;
    var n, v := |Fragment(inc, icx).value.code|, EvalOn(inc, icx.locals, st);
    FragmentMoves(inc, icx, st, p, at, end);
    if v.Some? {
      var u := Rest(v.value);
      PopStep(p, at + n, v.value);
      StepAt(p, at + n + 1, ILoop(off), u);
      ReachTrans(p, State(at, st), State(at + n, v.value), State(at + n + 1, u));
      PassTrans(p, State(at, st), State(at + n + 1, u), State(at + n + 4 - off, u));
    }
  }

  lemma {:induction false} ForPieces(cond: Option<Expr>, inc: Expr, body: Stmt, cx: Cx, p: Program, pc: int, brk: int)
      returns (a: Out, i: Out, b: Out)
    requires Pre(ForLoop(cond, inc, body), cx, p, pc, brk)
    ensures ForCond(cond, cx) == Some(a) && Fragment(inc, cx.(k := cx.k + |a.consts|)) == Some(i)
    ensures CodeS(body, BodyCx(cx, |a.consts| + |i.consts|, |i.code| + 4)) == Some(b)
    ensures var o := ForOut(cx, cond.Some?, a, i, b);
            o.Some? && CodeS(ForLoop(cond, inc, body), cx) == o && Ready(o.value, cx, p, pc, brk)
  {
    hide Ready, Fragment, ForOut, ForCond, BodyCx;
    a := ForCond(cond, cx).value;
    i := Fragment(inc, cx.(k := cx.k + |a.consts|)).value;
    b := CodeS(body, BodyCx(cx, |a.consts| + |i.consts|, |i.code| + 4)).value;
  }

  /** The pieces of a placed `for`. */
  lemma {:induction false} ForShape(cond: Option<Expr>, inc: Expr, body: Stmt, cx: Cx, p: Program, pc: int, brk: int)
      returns (a: Out, icx: Cx, i: Out, bcx: Cx, b: Out, w: int, end: int)
    requires Pre(ForLoop(cond, inc, body), cx, p, pc, brk)
    ensures ForCond(cond, cx) == Some(a) && Fragment(inc, icx) == Some(i) && CodeS(body, bcx) == Some(b)
    ensures w == pc + |a.code| + (if cond.Some? then 4 else 0)
    ensures end == w + 7 + |i.code| + |b.code| + (if cond.Some? then 4 else 3)
    ensures pc >= 0 && |CodeS(ForLoop(cond, inc, body), cx).value.code| == end - pc
    ensures Ready(i, icx, p, w + 3, end) && icx.locals == cx.locals
    ensures Pre(body, bcx, p, w + 7 + |i.code|, end)
    ensures bcx.loop == InLoop(|i.code| + 4, false) && Of(bcx) == Of(cx).Inside()
    ensures |i.code| + 4 <= JUMP_MAX && w + 7 + |i.code| - pc <= JUMP_MAX && |i.code| + |b.code| + 7 <= JUMP_MAX
    ensures At(p.code, w, Encode(IJump(|i.code| + 4)))
    ensures At(p.code, w + 3 + |i.code|, POP)
    ensures At(p.code, w + 4 + |i.code|, Encode(ILoop(w + 7 + |i.code| - pc)))
    ensures At(p.code, w + 7 + |i.code| + |b.code|, Encode(ILoop(|i.code| + |b.code| + 7)))
    ensures cond.Some? ==> ForTestPlaced(cx, a, p, pc, |i.code| + |b.code| + 11, end)
  {
    hide At, Ready, Encode, Fragment, ForOut, ForTestPlaced, CodeS;
    a, i, b := ForPieces(cond, inc, body, cx, p, pc, brk);
    icx := cx.(k := cx.k + |a.consts|);
    bcx := BodyCx(cx, |a.consts| + |i.consts|, |i.code| + 4);
    w := pc + |a.code| + (if cond.Some? then 4 else 0);
    end := w + 7 + |i.code| + |b.code| + (if cond.Some? then 4 else 3);
    ForParts(cx, cond.Some?, a, i, b, p, pc, brk);
  }

  lemma {:induction false} ForMoves(cond: Option<Expr>, inc: Expr, body: Stmt, cx: Cx, st: seq<Value>, fuel: nat,
                                    p: Program, pc: int, brk: int)
    requires Pre(ForLoop(cond, inc, body), cx, p, pc, brk)
    ensures Post(ForLoop(cond, inc, body), cx, st, fuel, p, pc, brk)
    decreases fuel, ForLoop(cond, inc, body), 0
  {
    hide Reaches, At, Ready, EvalOn, Fragment, Encode, Lands, ForTestPlaced, CodeS, Pre, ForCond, Of, Jams, Passes,
         Lasts;
    var s := ForLoop(cond, inc, body);
    var a, icx, i, bcx, b, w, end := ForShape(cond, inc, body, cx, p, pc, brk);
    var r := ExecOn(s, Of(cx), st, fuel);
    OfParts(cx);
    ForTest(cond, cx, st, p, pc, |i.code| + |b.code| + 11, end);
    var v := TestOn(cond, Of(cx), st);
    if v.None? || !Top(v.value).Bool? {
      StuckLands(cx, end - pc, fuel, st, p, pc, brk);
    } else if !Top(v.value).b {
      FellLands(cx, end - pc, fuel, st, Rest(v.value), p, pc, brk);
    } else {
      var at, u := w + 7 + |i.code|, Rest(v.value);
      JumpStep(p, w, |i.code| + 4, u);
      ReachTrans(p, State(pc, st), State(w, u), State(at, u));
      StmtMoves(body, bcx, u, fuel, p, at, end);
      var f := ExecOn(body, Of(bcx), u, fuel);
      LoopOnce(f, bcx, |b.code|, fuel, st, u, p, pc, w + 3, at, end, |i.code| + |b.code| + 7);
      if f.Fell? || f.Again? {
        ForIncrement(inc, icx, f.st, p, w + 3, end, w + 7 + |i.code| - pc);
        PassReaches(p, State(pc, st), State(w + 3, f.st));
        var n := EvalOn(inc, cx.locals, f.st);
        if n.None? {
          JamsLater(p, State(pc, st), State(w + 3, f.st));
          StuckLands(cx, end - pc, fuel, st, p, pc, brk);
        } else {
          PassReaches(p, State(w + 3, f.st), State(pc, Rest(n.value)));
          PassTrans(p, State(pc, st), State(w + 3, f.st), State(pc, Rest(n.value)));
          if fuel > 0 { StmtMoves(s, cx, Rest(n.value), fuel - 1, p, pc, brk); }
          LoopLands(Fell(Rest(n.value)), r, cx, end - pc, fuel, st, p, pc, brk);
        }
      } else {
        LoopLands(f, r, cx, end - pc, fuel, st, p, pc, brk);
      }
    }
  }

  /** Declarations grow the locals by one for each variable. */
  lemma {:induction false} LocalsGrow(ds: Decls, cx: Cx)
    requires CodeDs(ds, cx).Some?
    ensures |CodeDs(ds, cx).value.locals| == |cx.locals| + Variables(ds)
  {
    hide CodeS, CodeE, Declared;
    match ds
    case End =>
    case VarD(x, init, rest) =>
      LocalsGrow(rest, After(cx, Out(CodeE(init, cx.locals + [Local(x, -1)], cx.k).value, Consts(init),
          cx.locals + [Local(x, cx.depth)], -1)));
    case StmtD(s, rest) => LocalsGrow(rest, After(cx, CodeS(s, cx).value));
  }

  ghost predicate PreIn(ds: Decls, cx: Cx, p: Program, pc: int, brk: int) {
    CodeDs(ds, cx).Some? && Ready(CodeDs(ds, cx).value, cx, p, pc, brk)
  }

  ghost predicate PostIn(ds: Decls, cx: Cx, st: seq<Value>, fuel: nat, p: Program, pc: int, brk: int)
    requires CodeDs(ds, cx).Some?
  {
    Lands(DeclsOn(ds, Of(cx), st, fuel), cx, |CodeDs(ds, cx).value.code|, fuel, st, p, pc, brk)
  }

  lemma {:induction false} DeclsMove(ds: Decls, cx: Cx, st: seq<Value>, fuel: nat, p: Program, pc: int, brk: int)
    requires PreIn(ds, cx, p, pc, brk)
    ensures PostIn(ds, cx, st, fuel, p, pc, brk)
    decreases fuel, ds, 1
  {
    match ds
    case End =>
      hide Reaches, At, Fits;
      ReachRefl(p, State(pc, st));
    case VarD(x, init, rest) => VarMoves(x, init, rest, cx, st, fuel, p, pc, brk);
    case StmtD(s, rest) => StmtDMoves(s, rest, cx, st, fuel, p, pc, brk);
  }

  lemma {:induction false} StmtDShape(s: Stmt, rest: Decls, cx: Cx, p: Program, pc: int, brk: int)
      returns (o: Out, cx1: Cx, d: Out)
    requires PreIn(StmtD(s, rest), cx, p, pc, brk)
    ensures CodeS(s, cx) == Some(o) && CodeDs(rest, cx1) == Some(d) && Of(cx1) == Of(cx).Past(Breaks(s))
    ensures |CodeDs(StmtD(s, rest), cx).value.code| == |o.code| + |d.code|
    ensures Pre(s, cx, p, pc, brk) && PreIn(rest, cx1, p, pc + |o.code|, brk)
    ensures cx.loop.InLoop? == cx1.loop.InLoop? && (cx.loop.InLoop? ==> cx1.loop.back == cx.loop.back + |o.code|)
  {
    hide At, Ready, CodeS, Breaks;
    o := CodeS(s, cx).value;
    cx1 := After(cx, o);
    d := CodeDs(rest, cx1).value;
    ReadyJoin(o, d, cx, p, pc, brk);
    OfAfter(s, cx);
  }

  lemma {:induction false} StmtDMoves(s: Stmt, rest: Decls, cx: Cx, st: seq<Value>, fuel: nat, p: Program, pc: int,
                                      brk: int)
    requires PreIn(StmtD(s, rest), cx, p, pc, brk)
    ensures PostIn(StmtD(s, rest), cx, st, fuel, p, pc, brk)
    decreases fuel, StmtD(s, rest), 0
  {
    hide Reaches, At, Ready, Lands, CodeS, CodeDs, Pre, PreIn, ExecOn, Breaks, Of, Jams, Passes, Lasts;
    var o, cx1, d := StmtDShape(s, rest, cx, p, pc, brk);
    StmtMoves(s, cx, st, fuel, p, pc, brk);
    var f := ExecOn(s, Of(cx), st, fuel);
    var size := |o.code| + |d.code|;
    if f.Fell? {
      DeclsMove(rest, cx1, f.st, fuel, p, pc + |o.code|, brk);
      var r := DeclsOn(rest, Of(cx1), f.st, fuel);
      FellReaches(f, cx, |o.code|, fuel, st, p, pc, brk);
      AgainIn(r, cx1, |d.code|, fuel, f.st, p, pc + |o.code|, brk);
      LandsLater(r, cx, size, fuel, st, p, pc, brk, cx1, |d.code|, f.st, pc + |o.code|);
    } else {
      LandsExtend(f, cx, |o.code|, size, fuel, st, p, pc, brk);
    }
  }

  lemma {:induction false} FellReaches(f: Track, cx: Cx, size: int, fuel: nat, st: seq<Value>, p: Program, pc: int,
                                       brk: int)
    requires Lands(f, cx, size, fuel, st, p, pc, brk) && f.Fell?
    ensures Reaches(p, State(pc, st), State(pc + size, f.st))
  {
  }

  lemma {:induction false} VarMoves(x: Name, init: Expr, rest: Decls, cx: Cx, st: seq<Value>, fuel: nat, p: Program,
                                    pc: int, brk: int)
    requires PreIn(VarD(x, init, rest), cx, p, pc, brk)
    ensures PostIn(VarD(x, init, rest), cx, st, fuel, p, pc, brk)
    decreases fuel, VarD(x, init, rest), 0
  {
    hide Reaches, At, Lands, EvalOn, CodeE, Fits, Jams, Passes, Lasts;
    var locals := cx.locals + [Local(x, -1)];
    var a := CodeE(init, locals, cx.k).value;
    var o := Out(a, Consts(init), cx.locals + [Local(x, cx.depth)], -1);
    var cx1 := After(cx, o);
    var d := CodeDs(rest, cx1).value;
    var size := |a| + |d.code|;
    ReadyJoin(o, d, cx, p, pc, brk);
    ReadySolid(o, cx, p, pc, brk);
    ExprMoves(init, locals, cx.k, st, p, pc);
    var v := EvalOn(init, locals, st);
    if v.None? {
      StuckLands(cx, size, fuel, st, p, pc, brk);
    } else {
      DeclsMove(rest, cx1, v.value, fuel, p, pc + |a|, brk);
      var r := DeclsOn(rest, Of(cx1), v.value, fuel);
      AgainIn(r, cx1, |d.code|, fuel, v.value, p, pc + |a|, brk);
      LandsLater(r, cx, size, fuel, st, p, pc, brk, cx1, |d.code|, v.value, pc + |a|);
    }
  }

  lemma {:induction false} BlockShape(ds: Decls, cx: Cx, p: Program, pc: int, brk: int) returns (icx: Cx, o: Out)
    requires Pre(Block(ds), cx, p, pc, brk)
    ensures CodeDs(ds, icx) == Some(o) && icx.loop == cx.loop && Of(icx) == Of(cx).Deeper()
    ensures pc >= 0 && |CodeS(Block(ds), cx).value.code| == |o.code| + Variables(ds)
    ensures PreIn(ds, icx, p, pc, brk) && At(p.code, pc + |o.code|, Pops(Variables(ds)))
  {
    hide At, Ready, Pops, CodeDs, Variables;
    icx := cx.(depth := cx.depth + 1);
    o := CodeDs(ds, icx).value;
    LocalsGrow(ds, icx);
    var pops := Plain(Pops(Variables(ds)), [], cx);
    ReadyJoin(o, pops, cx, p, pc, brk);
    ReadySolid(pops, After(cx, o), p, pc + |o.code|, brk);
    ReadyFrom(o, cx, p, pc, brk);
    ReadyCx(o, cx, icx, p, pc, brk);
  }

  lemma {:induction false} BlockMoves(ds: Decls, cx: Cx, st: seq<Value>, fuel: nat, p: Program, pc: int, brk: int)
    requires Pre(Block(ds), cx, p, pc, brk)
    ensures Post(Block(ds), cx, st, fuel, p, pc, brk)
    decreases fuel, Block(ds), 0
  {
    hide Reaches, At, Ready, Lands, Pops, CodeS, CodeDs, Pre, PreIn, Of, DeclsOn, Variables, Jams, Passes, Lasts;
    var icx, o := BlockShape(ds, cx, p, pc, brk);
    DeclsMove(ds, icx, st, fuel, p, pc, brk);
    var f := DeclsOn(ds, Of(icx), st, fuel);
    LandsCx(f, icx, cx, |o.code|, fuel, st, p, pc, brk);
    DropLands(f, Variables(ds), cx, |o.code|, fuel, st, p, pc, brk);
  }

  lemma {:induction false} MatchShape(e: Expr, arms: Arms, cx: Cx, p: Program, pc: int, brk: int)
      returns (cx0: Cx, a: Out, cx1: Cx, b: Out)
    requires Pre(Match(e, arms), cx, p, pc, brk)
    ensures Fragment(e, cx0) == Some(a) && CodeArms(arms, cx1) == Some(b)
    ensures pc >= 0 && |b.code| <= JUMP_MAX && |CodeS(Match(e, arms), cx).value.code| == |a.code| + 4 + |b.code|
    ensures Ready(a, cx0, p, pc, brk)
    ensures At(p.code, pc + |a.code|, Encode(IMatch(|b.code|)))
    ensures Ready(b, cx1, p, pc + |a.code| + 3, brk)
    ensures At(p.code, pc + |a.code| + 3 + |b.code|, POP)
    ensures cx0.locals == cx.locals && Of(cx1) == Of(cx).Deeper() && cx.loop.InLoop? == cx1.loop.InLoop?
    ensures cx.loop.InLoop? ==> cx1.loop.back == cx.loop.back + |a.code| + 3
  {
    hide At, Ready, Fragment, Encode, CodeArms, MatchOut;
    cx0 := cx.(depth := cx.depth + 1);
    a := Fragment(e, cx0).value;
    cx1 := After(cx0, Join(a, Plain([50, 255, 255], [], cx0)));
    b := CodeArms(arms, cx1).value;
    MatchParts(cx, a, b, cx0, cx1, p, pc, brk);
  }

  lemma {:induction false} OnePop()
    ensures Pops(1) == POP
  {
  }

  lemma {:induction false} MatchMoves(e: Expr, arms: Arms, cx: Cx, st: seq<Value>, fuel: nat, p: Program, pc: int,
                                      brk: int)
    requires Pre(Match(e, arms), cx, p, pc, brk)
    ensures Post(Match(e, arms), cx, st, fuel, p, pc, brk)
    decreases fuel, Match(e, arms), 0
  {
    hide Reaches, At, Ready, EvalOn, Fragment, Encode, Lands, CodeS, Pre, CodeArms, Of, Jams, Passes, Lasts, Pops;
    var cx0, a, cx1, b := MatchShape(e, arms, cx, p, pc, brk);
    var size := |a.code| + 4 + |b.code|;
    OfParts(cx);
    FragmentMoves(e, cx0, st, p, pc, brk);
    var v := EvalOn(e, cx.locals, st);
    if v.None? {
      StuckLands(cx, size, fuel, st, p, pc, brk);
    } else {
      var q := pc + |a.code|;
      MatchStep(p, q, |b.code|, v.value);
      ReachTrans(p, State(pc, st), State(q, v.value), State(q + 3, v.value));
      ArmsMove(arms, cx1, v.value, fuel, p, q + 3, brk);
      OnePop();
      var f := ArmsOn(arms, Of(cx1), v.value, fuel);
      DropLands(f, 1, cx1, |b.code|, fuel, v.value, p, q + 3, brk);
      AgainIn(f.Drop(1), cx1, |b.code| + 1, fuel, v.value, p, q + 3, brk);
      LandsLater(f.Drop(1), cx, size, fuel, st, p, pc, brk, cx1, |b.code| + 1, v.value, q + 3);
    }
  }

  lemma {:induction false} MatchStep(p: Program, pc: nat, off: Short, st: seq<Value>)
    requires At(p.code, pc, Encode(IMatch(off)))
    ensures Reaches(p, State(pc, st), State(pc + 3, st))
  {
    hide Reaches, At, Passes;
    StepAt(p, pc, IMatch(off), st);
  }

  /** The pattern is popped, the matched value stays. */
  lemma {:induction false} NeqStep(p: Program, pc: nat, off: Short, st: seq<Value>)
    requires At(p.code, pc, Encode(IJumpIfNeq(off)))
    ensures |st| < 2 ==> Jams(p, State(pc, st))
    ensures |st| >= 2 ==> Reaches(p, State(pc, st), State(if Top(st) == Top(Rest(st)) then pc + 3 else pc + 3 + off,
                                                          Rest(st)))
  {
    hide Reaches, At, Passes, Jams;
    StepAt(p, pc, IJumpIfNeq(off), st);
  }

  ghost predicate ArmsLand(arms: Arms, cx: Cx, st: seq<Value>, fuel: nat, p: Program, pc: int, brk: int)
    requires CodeArms(arms, cx).Some?
  {
    Lands(ArmsOn(arms, Of(cx), st, fuel), cx, |CodeArms(arms, cx).value.code|, fuel, st, p, pc, brk)
  }

  ghost predicate ArmsPlaced(arms: Arms, cx: Cx, p: Program, pc: int, brk: int) {
    CodeArms(arms, cx).Some? && Ready(CodeArms(arms, cx).value, cx, p, pc, brk)
  }

  lemma {:induction false} ArmsMove(arms: Arms, cx: Cx, st: seq<Value>, fuel: nat, p: Program, pc: int, brk: int)
    requires ArmsPlaced(arms, cx, p, pc, brk)
    ensures ArmsLand(arms, cx, st, fuel, p, pc, brk)
    decreases fuel, arms, 1
  {
    match arms
    case NoMore => NoArmsMove(cx, st, fuel, p, pc, brk);
    case Default(body) => DefaultMoves(body, cx, st, fuel, p, pc, brk);
    case Arm(pattern, body, rest) => ArmMoves(pattern, body, rest, cx, st, fuel, p, pc, brk);
  }

  lemma {:induction false} NoArmsMove(cx: Cx, st: seq<Value>, fuel: nat, p: Program, pc: int, brk: int)
    requires ArmsPlaced(NoMore, cx, p, pc, brk)
    ensures ArmsLand(NoMore, cx, st, fuel, p, pc, brk)
  {
    hide Reaches, At, Encode;
    FitsSolid(p.code, pc, CodeArms(NoMore, cx).value, brk);
    JumpForm(0);
    JumpStep(p, pc, 0, st);
  }

  ghost predicate BodyLands(body: Stmt, cx: Cx, st: seq<Value>, fuel: nat, p: Program, pc: int, brk: int)
    requires CodeArmBody(body, cx).Some?
  {
    Lands(BodyOn(body, Of(cx), st, fuel), cx, |CodeArmBody(body, cx).value.code|, fuel, st, p, pc, brk)
  }

  lemma {:induction false} BodyMoves(body: Stmt, cx: Cx, st: seq<Value>, fuel: nat, p: Program, pc: int, brk: int)
    requires CodeArmBody(body, cx).Some? && Ready(CodeArmBody(body, cx).value, cx, p, pc, brk)
    ensures BodyLands(body, cx, st, fuel, p, pc, brk)
    decreases fuel, body, 3
  {
    hide Ready, CodeS, CodeDs, Lands, ExecOn, DeclsOn;
    var icx := cx.(depth := cx.depth + 1);
    var o := CodeArmBody(body, cx).value;
    ReadyCx(o, cx, icx, p, pc, brk);
    if body.Block? {
      DeclsMove(body.ds, icx, st, fuel, p, pc, brk);
    } else {
      StmtMoves(body, icx, st, fuel, p, pc, brk);
    }
    LandsCx(BodyOn(body, Of(cx), st, fuel), icx, cx, |o.code|, fuel, st, p, pc, brk);
  }

  lemma {:induction false} BodyGrows(body: Stmt, cx: Cx)
    requires CodeArmBody(body, cx).Some?
    ensures |CodeArmBody(body, cx).value.locals| == |cx.locals| + Own(body)
  {
    hide CodeS, CodeDs, Variables;
    if body.Block? { LocalsGrow(body.ds, cx.(depth := cx.depth + 1)); }
  }

  lemma {:induction false} DefaultMoves(body: Stmt, cx: Cx, st: seq<Value>, fuel: nat, p: Program, pc: int, brk: int)
    requires ArmsPlaced(Default(body), cx, p, pc, brk)
    ensures ArmsLand(Default(body), cx, st, fuel, p, pc, brk)
    decreases fuel, Default(body), 0
  {
    hide Reaches, At, Ready, Encode, CodeArmBody, Lands, BodyOn, Of;
    var b := CodeArmBody(body, cx).value;
    var n := |b.locals| - |cx.locals|;
    DefaultParts(cx, b, n, p, pc, brk);
    BodyMoves(body, cx, st, fuel, p, pc, brk);
    var f := BodyOn(body, Of(cx), st, fuel);
    if f.Fell? { JumpStep(p, pc + |b.code|, n, f.st); }
    LandsExtend(f, cx, |b.code|, |b.code| + 3 + n, fuel, st, p, pc, brk);
  }

  lemma {:induction false} ArmShape(pattern: Expr, body: Stmt, rest: Arms, cx: Cx, p: Program, pc: int, brk: int)
      returns (pcx: Cx, a: Out, cx1: Cx, b: Out, cx2: Cx, d: Out)
    requires ArmsPlaced(Arm(pattern, body, rest), cx, p, pc, brk)
    ensures Fragment(pattern, pcx) == Some(a) && CodeArmBody(body, cx1) == Some(b) && CodeArms(rest, cx2) == Some(d)
    ensures var n := Own(body);
            var next := pc + |a.code| + 6 + |b.code| + n;
            && pc >= 0 && |b.code| + 3 <= JUMP_MAX && n + |d.code| <= JUMP_MAX
            && |CodeArms(Arm(pattern, body, rest), cx).value.code| == next - pc + |d.code|
            && Ready(a, pcx, p, pc, brk)
            && At(p.code, pc + |a.code|, Encode(IJumpIfNeq(|b.code| + 3)))
            && Ready(b, cx1, p, pc + |a.code| + 3, brk)
            && At(p.code, pc + |a.code| + 3 + |b.code|, Encode(IJump(n + |d.code|)))
            && At(p.code, pc + |a.code| + 6 + |b.code|, Pops(n))
            && Ready(d, cx2, p, next, brk)
    ensures pcx.locals == cx.locals && Of(cx1) == Of(cx) && Of(cx2) == Of(cx).Past(Breaks(body))
    ensures cx.loop.InLoop? == cx1.loop.InLoop? == cx2.loop.InLoop?
    ensures cx.loop.InLoop? ==> cx1.loop.back == cx.loop.back + |a.code| + 3
    ensures cx.loop.InLoop? ==> cx2.loop.back == cx.loop.back + |a.code| + 6 + |b.code| + Own(body)
  {
    hide At, Ready, Fragment, Encode, CodeArmBody, Own, Breaks, ArmOut, PatternCx, Pops;
    pcx := cx.(depth := cx.depth + 1);
    a := Fragment(pattern, pcx).value;
    cx1 := PatternCx(a, cx);
    b := CodeArmBody(body, cx1).value;
    cx2 := After(cx, ArmOut(a, b, [41, 255, 255], cx));
    d := CodeArms(rest, cx2).value;
    BodyGrows(body, cx1);
    SlotTakenBody(body, cx1);
    SlotTakenOf(rest, cx2);
    var n := Own(body) + |d.code|;
    ArmSlot(a, b, cx, [41, Hi(n), Lo(n)]);
    ArmPlace(a, b, cx);
    ArmParts(cx, a, b, n, d, p, pc, brk);
  }

  /** Where an arm's body and the next arm stand relative to the loop. */
  lemma {:induction false} ArmPlace(a: Out, b: Out, cx: Cx)
    requires |cx.locals| <= |b.locals| && |b.code| + 3 <= JUMP_MAX && a.locals == cx.locals
    ensures PatternCx(a, cx).locals == cx.locals && PatternCx(a, cx).depth == cx.depth
    ensures var cx2 := After(cx, ArmOut(a, b, [41, 255, 255], cx));
            && cx2.locals == cx.locals && cx2.depth == cx.depth
            && PatternCx(a, cx).loop.InLoop? == cx.loop.InLoop? == cx2.loop.InLoop?
    ensures cx.loop.InLoop? ==>
              && PatternCx(a, cx).loop.back == cx.loop.back + |a.code| + 3
              && After(cx, ArmOut(a, b, [41, 255, 255], cx)).loop.back ==
                   cx.loop.back + |a.code| + 6 + |b.code| + (|b.locals| - |cx.locals|)
  {
    hide Pops;
  }

  lemma {:induction false} ArmMoves(pattern: Expr, body: Stmt, rest: Arms, cx: Cx, st: seq<Value>, fuel: nat,
                                    p: Program, pc: int, brk: int)
    requires ArmsPlaced(Arm(pattern, body, rest), cx, p, pc, brk)
    ensures ArmsLand(Arm(pattern, body, rest), cx, st, fuel, p, pc, brk)
    decreases fuel, Arm(pattern, body, rest), 0
  {
    hide Reaches, At, Ready, EvalOn, Fragment, Encode, CodeArms, CodeArmBody, Of, Lands, BodyOn, Own, Jams, Passes,
         Lasts, Pops, ArmsPlaced;
    var pcx, a, cx1, b, cx2, d := ArmShape(pattern, body, rest, cx, p, pc, brk);
    var n := Own(body);
    var q, next := pc + |a.code|, pc + |a.code| + 6 + |b.code| + n;
    var size := next - pc + |d.code|;
    OfParts(cx);
    FragmentMoves(pattern, pcx, st, p, pc, brk);
    var v := EvalOn(pattern, cx.locals, st);
    var r := ArmsOn(Arm(pattern, body, rest), Of(cx), st, fuel);
    if v.None? {
      StuckLands(cx, size, fuel, st, p, pc, brk);
    } else {
      NeqStep(p, q, |b.code| + 3, v.value);
      var u := Rest(v.value);
      if st == [] {
        JamsLater(p, State(pc, st), State(q, v.value));
        StuckLands(cx, size, fuel, st, p, pc, brk);
      } else if Top(v.value) == Top(Rest(v.value)) {
        ReachTrans(p, State(pc, st), State(q, v.value), State(q + 3, u));
        BodyMoves(body, cx1, u, fuel, p, q + 3, brk);
        if r.Fell? { JumpStep(p, q + 3 + |b.code|, n + |d.code|, r.st); }
        LandsExtend(r, cx1, |b.code|, size - (|a.code| + 3), fuel, u, p, q + 3, brk);
        AgainIn(r, cx1, size - (|a.code| + 3), fuel, u, p, q + 3, brk);
        LandsLater(r, cx, size, fuel, st, p, pc, brk, cx1, size - (|a.code| + 3), u, q + 3);
      } else {
        ReachTrans(p, State(pc, st), State(q, v.value), State(q + 6 + |b.code|, u));
        PopsMove(p, q + 6 + |b.code|, n, u);
        if n > |u| {
          JamsLater(p, State(pc, st), State(q + 6 + |b.code|, u));
          StuckLands(cx, size, fuel, st, p, pc, brk);
        } else {
          var w := u[..|u| - n];
          ReachTrans(p, State(pc, st), State(q + 6 + |b.code|, u), State(next, w));
          ArmsMove(rest, cx2, w, fuel, p, next, brk);
          AgainIn(r, cx2, |d.code|, fuel, w, p, next, brk);
          LandsLater(r, cx, size, fuel, st, p, pc, brk, cx2, |d.code|, w, next);
        }
      }
    }
  }
}
