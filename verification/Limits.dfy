/** Where the emitter and the language part: each case with the guard that decides it. */
module Limits {
  import opened Base
  import opened Syntax
  import opened Bytecode
  import opened Semantics
  import opened CodeGen
  import opened Grammar
  import opened StackSemantics
  import opened Layout
  import opened StmtCorrect
  import opened Heights
  import opened SinglePass
  import opened EndToEnd

  /** A break lands on its loop's end when the loop's one slot is free; when it is taken, nothing is emitted for it and
      control falls through. */
  lemma {:induction false} BreakLands(cx: Cx, st: seq<Value>, p: Program, pc: int, brk: int)
    requires CodeS(Break, cx).Some? && Ready(CodeS(Break, cx).value, cx, p, pc, brk)
    ensures cx.loop.InLoop?
    ensures cx.loop.broken <==> CodeS(Break, cx).value.code == []
    ensures !cx.loop.broken ==> Reaches(p, State(pc, st), State(brk, st))
  {
    StmtMoves(Break, cx, st, 0, p, pc, brk);
  }

  /** A loop whose body breaks in both branches of an `if`: the second break is lost, so with a false condition the
      machine runs on past the statement where the language leaves the loop. */
  lemma {:induction false} SecondBreakIsLost(cx: Cx, env: Env, st: seq<Value>, p: Program, pc: int, brk: int)
    requires cx.loop.InLoop? && !cx.loop.broken
    requires var o := CodeS(If(BoolLit(false), Break, Break), cx); o.Some? && Ready(o.value, cx, p, pc, brk)
    ensures var s := If(BoolLit(false), Break, Break);
            && Exec(s, env, 0) == Broke(env)
            && Reaches(p, State(pc, st), State(pc + |CodeS(s, cx).value.code|, st))
  {
    hide Reaches, Ready, CodeS, Passes, Jams, Lasts;
    var s := If(BoolLit(false), Break, Break);
    var sc := Of(cx);
    assert Rest(st + [Bool(false)]) == st;
    assert ExecOn(Break, sc.Past(1), st, 0) == Fell(st);
    assert ExecOn(s, sc, st, 0) == Fell(st);
    StmtMoves(s, cx, st, 0, p, pc, brk);
  }

  /** A break keeps whatever lies above its loop's stack: the variables declared and the values being matched since the
      loop began. It lands with the loop's stack exactly if there are none of either. */
  lemma {:induction false} BreakKeeps(cx: Cx, below: seq<Value>, above: seq<Value>, p: Program, pc: int, brk: int)
    requires CodeS(Break, cx).Some? && !cx.loop.broken && Ready(CodeS(Break, cx).value, cx, p, pc, brk)
    ensures Reaches(p, State(pc, below + above), State(brk, below + above))
    ensures State(brk, below + above) == State(brk, below) <==> above == []
  {
    BreakLands(cx, below + above, p, pc, brk);
    if above != [] { assert |below + above| != |below|; } else { assert below + above == below; }
  }

  /** A continue likewise comes back to the loop's start with all of it. */
  lemma {:induction false} ContinueKeeps(cx: Cx, below: seq<Value>, above: seq<Value>, p: Program, pc: int, brk: int)
    requires CodeS(Continue, cx).Some? && Ready(CodeS(Continue, cx).value, cx, p, pc, brk)
    ensures cx.loop.InLoop?
    ensures Reaches(p, State(pc, below + above), State(pc - cx.loop.back, below + above))
    ensures State(pc - cx.loop.back, below + above) == State(pc - cx.loop.back, below) <==> above == []
  {
    hide Reaches, Passes, Ready;
    StmtMoves(Continue, cx, below + above, 0, p, pc, brk);
    PassReaches(p, State(pc, below + above), State(pc - cx.loop.back, below + above));
    if above != [] { assert |below + above| != |below|; } else { assert below + above == below; }
  }

  /** One arm of any `match`: taken, it ends with as many values too many as its scope has variables; not taken, the
      arms after it begin with as many too few. So it keeps the height exactly if its scope has none. */
  lemma {:induction false} ArmKeepsHeight(pattern: Expr, body: Stmt, rest: Arms, sc: Scope, st: seq<Value>, fuel: nat)
    requires st != [] && LevelBody(body) && EvalOn(pattern, sc.locals, st).Some?
    ensures var t, n := EvalOn(pattern, sc.locals, st).value, Own(body);
            var f := ArmsOn(Arm(pattern, body, rest), sc, st, fuel);
            if Top(t) == Top(Rest(t)) then
              f.Fell? ==> |f.st| == |st| + n && (|f.st| == |st| <==> n == 0)
            else if n > |st| then f == Stuck
            else
              var u := Rest(t)[..|st| - n];
              f == ArmsOn(rest, sc.Past(Breaks(body)), u, fuel) && |u| == |st| - n && (|u| == |st| <==> n == 0)
  {
    hide EvalOn, BodyOn, Own;
    BodyHeight(body, sc, Rest(EvalOn(pattern, sc.locals, st).value), fuel);
  }

  /** A variable declared over a stack with more values than there are locals reads what lay in its slot, and so its own
      value exactly if that is the same or nothing lay there. With fewer values it cannot be read at all. */
  lemma {:induction false} VariableReads(x: Name, init: Expr, sc: Scope, st: seq<Value>)
    requires |sc.locals| < 256 && sc.depth > 0 && EvalOn(init, sc.locals + [Local(x, -1)], st).Some?
    ensures var t, n := EvalOn(init, sc.locals + [Local(x, -1)], st).value, |sc.locals|;
            var r := EvalOn(Var(x), sc.With(x).locals, t);
            && (r.None? <==> |st| < n)
            && (|st| >= n ==> (Top(r.value) == Top(t) <==> |st| == n || t[n] == Top(t)))
  {
    hide EvalOn;
    var t := EvalOn(init, sc.locals + [Local(x, -1)], st).value;
    ReadsSlot(x, sc, t);
  }

  lemma {:induction false} ReadsSlot(x: Name, sc: Scope, t: seq<Value>)
    requires |sc.locals| < 256 && sc.depth > 0
    ensures EvalOn(Var(x), sc.With(x).locals, t) == if |sc.locals| < |t| then Some(t + [t[|sc.locals|]]) else None
  {
    var locals := sc.With(x).locals;
    assert locals[|locals| - 1] == Local(x, sc.depth);
    assert Resolve(locals, x) == Some(|sc.locals|);
  }

  /** No run of a compiled script reaches its end at a height that none of the ways through its trees has; so if they
      are clear, every run that reaches the end leaves slot 0 and nothing else. */
  lemma {:induction false} ScriptHeight(tokens: seq<Token>, v: Value, t: seq<Value>)
    requires Compiled(tokens).Some? && CalmIn(Script(tokens).value)
    requires Reaches(Compiled(tokens).value, State(0, [v]), State(|Compiled(tokens).value.code|, t))
    ensures |t| - 1 in RisesIn(Script(tokens).value)
    ensures ClearIn(Script(tokens).value) ==> |t| == 1
  {
    hide Script, Reaches, CodeDs, DeclsOn, CalmIn, RisesIn, ClearIn;
    var ds := Script(tokens).value;
    CompiledExactly(tokens, v, t);
    var fuel: nat :| Outcome(tokens, v, fuel) == Fell(t);
    DeclsRise(ds, Of(TOP), [v], fuel);
    OnlyStatements(tokens);
    WaysUpIn(ds);
  }

  lemma {:induction false} OnlyStatements(ts: seq<Token>)
    requires Script(ts).Ok?
    ensures Variables(Script(ts).value) == 0
    decreases |ts|
  {
    hide Statement;
    if ts != [] { OnlyStatements(Statement(ts).rest); }
  }

  /** `match` over one arm that declares one variable, at the top of a script. */
  function OneVariable(matched: Literal): Stmt {
    Match(Int(matched), Arm(Int(1), Block(VarD("x", Int(2), End)), NoMore))
  }

  const BYTES: seq<Byte> := [2, 0, 50, 0, 14, 2, 1, 40, 0, 5, 2, 2, 41, 0, 4, 0, 41, 0, 0, 0]
  const ARM_BYTES: seq<Byte> := [2, 1, 40, 0, 5, 2, 2, 41, 0, 4, 0, 41, 0, 0]

  /** Its bytes, jump by jump: the match over all arms, the test over the body and the end jump, the end jump over the
      pop and what follows the arms. */
  lemma {:induction false} OneVariableCode(matched: Literal)
    ensures CodeS(OneVariable(matched), TOP) == Some(Out(BYTES, [I32(matched), I32(1), I32(2)], [Local("", 0)], -1))
  {
    hide CodeArms, Pops, CodeDs, IfOut, WhileOut, ForOut, LoopOut, Breaks;
    var cx0 := TOP.(depth := 1);
    var a := Out([2, 0], [I32(matched)], [Local("", 0)], -1);
    ConstantCode(matched, cx0);
    var cx1 := After(cx0, Join(a, Plain([50, 255, 255], [], cx0)));
    assert a.consts + [] == a.consts;
    OneArmCode();
    var b := Out(ARM_BYTES, [I32(1), I32(2)], [Local("", 0)], -1);
    assert cx1 == Cx([Local("", 0)], 1, 1, NoLoop);
    assert ArmCount(NoMore) == 0;
    assert ArmCount(Arm(Int(1), Block(VarD("x", Int(2), End)), NoMore)) == 1;
    MatchBytes(a, b);
    hide MatchOut;
    assert Fragment(Int(matched), cx0) == Some(a);
    assert CodeS(OneVariable(matched), TOP) == MatchOut(TOP, a, b);
    assert a.consts + [I32(1), I32(2)] == [I32(matched), I32(1), I32(2)];
  }

  lemma {:induction false} MatchBytes(a: Out, b: Out)
    requires a.code == [2, 0] && a.hole == -1 && b == Out(ARM_BYTES, [I32(1), I32(2)], [Local("", 0)], -1)
    ensures MatchOut(TOP, a, b) == Some(Out(BYTES, a.consts + [I32(1), I32(2)], [Local("", 0)], -1))
  {
    hide Join, Plain, Offset;
    HeadBytes();
    MatchOver(a, b);
  }

  lemma {:induction false} HeadBytes()
    ensures [2, 0] + [50, 0, 14] + ARM_BYTES + POP == BYTES
  {
  }

  lemma {:induction false} MatchOver(a: Out, b: Out)
    requires a.hole == -1 && b.hole == -1 && |b.code| == 14 && b.locals == TOP.locals && b.consts == [I32(1), I32(2)]
    ensures MatchOut(TOP, a, b) ==
              Some(Out(a.code + [50, 0, 14] + b.code + POP, a.consts + [I32(1), I32(2)], TOP.locals, -1))
  {
    assert Encode(IMatch(14)) == [50, 0, 14];
    assert a.consts + [] + [I32(1), I32(2)] + [] == a.consts + [I32(1), I32(2)];
  }

  lemma {:induction false} ConstantCode(n: Literal, cx: Cx)
    requires cx.k < 255
    ensures Fragment(Int(n), cx) == Some(Out([2, cx.k], [I32(n)], cx.locals, -1))
  {
  }

  lemma {:induction false} OneArmCode()
    ensures CodeArms(Arm(Int(1), Block(VarD("x", Int(2), End)), NoMore), Cx([Local("", 0)], 1, 1, NoLoop)) ==
              Some(Out(ARM_BYTES, [I32(1), I32(2)], [Local("", 0)], -1))
  {
    hide CodeE, Fragment, CodeArmBody, CodeS, CodeDs, Pops, Breaks, Resolve, Declared;
    var cx := Cx([Local("", 0)], 1, 1, NoLoop);
    var p := Out([2, 1], [I32(1)], [Local("", 0)], -1);
    ConstantCode(1, cx.(depth := 2));
    var b := Out([2, 2], [I32(2)], [Local("", 0), Local("x", 2)], -1);
    OneBodyCode();
    assert p.consts + [] == [I32(1)];
    assert PatternCx(p, cx) == Cx([Local("", 0)], 1, 2, NoLoop);
    OneArmOut(p, b, cx);
  }

  lemma {:induction false} OneArmOut(p: Out, b: Out, cx: Cx)
    requires cx == Cx([Local("", 0)], 1, 1, NoLoop) && p == Out([2, 1], [I32(1)], [Local("", 0)], -1)
    requires b == Out([2, 2], [I32(2)], [Local("", 0), Local("x", 2)], -1)
    ensures Join(ArmOut(p, b, [41, 0, 4], cx), Plain([41, 0, 0], [], After(cx, ArmOut(p, b, [41, 255, 255], cx)))) ==
              Out(ARM_BYTES, [I32(1), I32(2)], [Local("", 0)], -1)
  {
    OnePop();
    assert [2, 1] + [40, 0, 5] + [2, 2] + ([41, 0, 4] + [0]) + [41, 0, 0] == ARM_BYTES;
    assert [I32(1)] + [] + [I32(2)] + [] + [] == [I32(1), I32(2)];
  }

  lemma {:induction false} OneBodyCode()
    ensures CodeArmBody(Block(VarD("x", Int(2), End)), Cx([Local("", 0)], 1, 2, NoLoop)) ==
              Some(Out([2, 2], [I32(2)], [Local("", 0), Local("x", 2)], -1))
  {
    hide CodeS, CodeArms;
    var cx := Cx([Local("", 0)], 2, 2, NoLoop);
    assert !Declared([Local("", 0)], 2, "x");
    var o := Out([2, 2], [I32(2)], [Local("", 0)] + [Local("x", 2)], -1);
    assert CodeE(Int(2), [Local("", 0)] + [Local("x", -1)], 2) == Some([2, 2]);
    assert CodeDs(End, After(cx, o)) == Some(Plain([], [], After(cx, o)));
    assert [2, 2] + [] == [2, 2] && [I32(2)] + [] == [I32(2)];
    assert CodeDs(VarD("x", Int(2), End), cx) == Some(Join(o, Plain([], [], After(cx, o))));
    assert [Local("", 0)] + [Local("x", 2)] == [Local("", 0), Local("x", 2)];
  }

  /** With 1 to match, the arm is taken and its variable stays behind; with 0, it is not, and the pop meant for the
      variable takes the matched value, so that the last pop takes the reserved slot. In the language neither leaves
      anything. */
  lemma {:induction false} OneVariableRuns(slot0: Value)
    ensures Reaches(Program(BYTES, [I32(1), I32(1), I32(2)]), State(0, [slot0]), State(20, [slot0, I32(1)]))
    ensures Reaches(Program(BYTES, [I32(0), I32(1), I32(2)]), State(0, [slot0]), State(20, []))
    ensures forall n: Literal :: Exec(OneVariable(n), [], 0) == Next([])
  {
    hide Reaches, Exec, Passes, Jams, Lasts, ExecOn;
    OneVariableStack(slot0);
    OneVariablePlaced(1);
    StmtMoves(OneVariable(1), TOP, [slot0], 0, Program(BYTES, [I32(1), I32(1), I32(2)]), 0, 0);
    OneVariablePlaced(0);
    StmtMoves(OneVariable(0), TOP, [slot0], 0, Program(BYTES, [I32(0), I32(1), I32(2)]), 0, 0);
    forall n: Literal ensures Exec(OneVariable(n), [], 0) == Next([]) { OneVariableMeans(n); }
  }

  lemma {:induction false} OneVariablePlaced(n: Literal)
    ensures Pre(OneVariable(n), TOP, Program(BYTES, [I32(n), I32(1), I32(2)]), 0, 0)
    ensures |CodeS(OneVariable(n), TOP).value.code| == 20
  {
    hide CodeS;
    OneVariableCode(n);
  }

  lemma {:induction false} OneVariableStack(slot0: Value)
    ensures ExecOn(OneVariable(1), Of(TOP), [slot0], 0) == Fell([slot0, I32(1)])
    ensures ExecOn(OneVariable(0), Of(TOP), [slot0], 0) == Fell([])
  {
    var sc := Of(TOP).Deeper();
    var body := Block(VarD("x", Int(2), End));
    var s, t := [slot0, I32(1)], [slot0, I32(0)];
    assert [slot0] + [I32(1)] == s && [slot0] + [I32(0)] == t;
    assert Rest(s + [I32(1)]) == s && Rest(t + [I32(1)]) == t;
    assert DeclsOn(End, sc.Deeper().With("x"), s + [I32(2)], 0) == Fell(s + [I32(2)]);
    assert DeclsOn(body.ds, sc.Deeper(), s, 0) == Fell(s + [I32(2)]);
    assert BodyOn(body, sc, s, 0) == Fell(s + [I32(2)]);
    assert Variables(End) == 0 && Own(body) == 1;
    assert ArmsOn(NoMore, sc.Past(0), [slot0], 0) == Fell([slot0]);
    assert t[..1] == [slot0] && (s + [I32(2)])[..2] == s && [slot0][..0] == [];
    assert ArmsOn(Arm(Int(1), body, NoMore), sc, s, 0) == Fell(s + [I32(2)]);
    assert ArmsOn(Arm(Int(1), body, NoMore), sc, t, 0) == Fell([slot0]);
  }

  lemma {:induction false} OneVariableMeans(n: Literal)
    ensures Exec(OneVariable(n), [], 0) == Next([])
  {
    var ds := VarD("x", Int(2), End);
    var e := [] + [Binding("x", I32(2))];
    assert ExecDecls(End, e, 0) == Next(e);
    assert ExecDecls(ds, [], 0) == Next(e);
    assert e[..0] == [];
    assert Exec(Block(ds), [], 0) == Next([]);
    assert ExecArms(NoMore, I32(n), [], 0) == Next([]);
    assert ExecArms(Arm(Int(1), Block(ds), NoMore), I32(n), [], 0) == Next([]);
  }

  /** A loop over a `match` whose one arm leaves it: nothing is declared, but the arm is entered inside the loop. */
  function InArm(e: Stmt): Stmt {
    Block(StmtD(Match(Int(1), Arm(Int(1), Block(StmtD(e, End)), NoMore)), End))
  }

  const START: Cx := Cx([Local("", 0)], 0, 0, InLoop(0, false))
  const IN_ARM: Cx := Cx([Local("", 0)], 3, 2, InLoop(10, false))
  const HEAD: seq<Byte> := [2, 0, 50, 0, 14, 2, 1, 40, 0, 6]
  const TAIL: seq<Byte> := [41, 0, 3, 41, 0, 0, 0]

  lemma {:induction false} InArmCode(e: Stmt, x: Out)
    requires CodeS(e, IN_ARM) == Some(x) && |x.code| == 3 && x.consts == [] && (x.hole == 1 || x.hole == -1)
    ensures CodeS(InArm(e), START) ==
              Some(Out(HEAD + x.code + TAIL, [I32(1), I32(1)], START.locals, if x.hole == 1 then 11 else -1))
  {
    hide CodeArms, Pops, CodeE, Fragment, Join, Plain, MatchOut, IfOut, WhileOut, ForOut, LoopOut, Breaks, Resolve;
    var icx := START.(depth := 1);
    var cx0 := START.(depth := 2);
    var a := Out([2, 0], [I32(1)], START.locals, -1);
    ConstantCode(1, cx0);
    var cx1 := Cx(START.locals, 2, 1, InLoop(5, false));
    assert cx1 == After(cx0, Join(a, Plain([50, 255, 255], [], cx0))) by { AfterHead(a, cx0); }
    var b := Out([2, 1, 40, 0, 6] + x.code + [41, 0, 3, 41, 0, 0], [I32(1)], START.locals,
                 if x.hole == 1 then 6 else -1);
    InArmArms(e, x, cx1, b);
    var s := Match(Int(1), Arm(Int(1), Block(StmtD(e, End)), NoMore));
    assert ArmCount(NoMore) == 0;
    assert ArmCount(Arm(Int(1), Block(StmtD(e, End)), NoMore)) == 1;
    var o := Out(HEAD + x.code + TAIL, [I32(1), I32(1)], START.locals, if x.hole == 1 then 11 else -1);
    InArmMatch(a, b, x, icx, o);
    assert CodeS(s, icx) == Some(o);
    InArmBlock(s, icx, o);
  }

  lemma {:induction false} AfterHead(a: Out, cx0: Cx)
    requires a == Out([2, 0], [I32(1)], START.locals, -1) && cx0 == START.(depth := 2)
    ensures After(cx0, Join(a, Plain([50, 255, 255], [], cx0))) == Cx(START.locals, 2, 1, InLoop(5, false))
  {
  }

  lemma {:induction false} JoinNothing(o: Out, cx: Cx)
    requires o.locals == cx.locals && -1 <= o.hole
    ensures Join(o, Plain([], [], cx)) == o
  {
    assert o.code + [] == o.code && o.consts + [] == o.consts;
  }

  lemma {:induction false} InArmBlock(s: Stmt, icx: Cx, o: Out)
    requires icx == START.(depth := 1) && CodeS(s, icx) == Some(o) && o.locals == START.locals && -1 <= o.hole
    ensures CodeS(Block(StmtD(s, End)), START) == Some(o)
  {
    hide Join, Plain, CodeArms, IfOut, WhileOut, LoopOut, ForOut, MatchOut, Fragment;
    JoinNothing(o, After(icx, o));
    JoinNothing(o, START);
    assert Pops(0) == [];
    assert CodeDs(End, After(icx, o)) == Some(Plain([], [], After(icx, o)));
    assert CodeDs(StmtD(s, End), icx) == Some(o);
  }

  lemma {:induction false} InArmMatch(a: Out, b: Out, x: Out, cx: Cx, o: Out)
    requires a == Out([2, 0], [I32(1)], START.locals, -1) && |x.code| == 3 && cx.locals == START.locals
    requires b.code == [2, 1, 40, 0, 6] + x.code + [41, 0, 3, 41, 0, 0] && b.consts == [I32(1)]
    requires b.hole == (if x.hole == 1 then 6 else -1)
    requires o == Out(HEAD + x.code + TAIL, [I32(1), I32(1)], START.locals, if x.hole == 1 then 11 else -1)
    ensures MatchOut(cx, a, b) == Some(o)
  {
    assert Encode(IMatch(14)) == [50, 0, 14];
    assert [2, 0] + [50, 0, 14] + ([2, 1, 40, 0, 6] + x.code + [41, 0, 3, 41, 0, 0]) + [0] == HEAD + x.code + TAIL;
    assert [I32(1)] + [] + [I32(1)] + [] == [I32(1), I32(1)];
  }

  lemma {:induction false} InArmArms(e: Stmt, x: Out, cx: Cx, b: Out)
    requires CodeS(e, IN_ARM) == Some(x) && |x.code| == 3 && x.consts == [] && (x.hole == 1 || x.hole == -1)
    requires cx == Cx(START.locals, 2, 1, InLoop(5, false))
    requires b == Out([2, 1, 40, 0, 6] + x.code + [41, 0, 3, 41, 0, 0], [I32(1)], START.locals,
                      if x.hole == 1 then 6 else -1)
    ensures CodeArms(Arm(Int(1), Block(StmtD(e, End)), NoMore), cx) == Some(b)
  {
    hide CodeE, Fragment, CodeArmBody, CodeS, CodeDs, Pops, Breaks, Resolve, Declared;
    var p := Out([2, 1], [I32(1)], START.locals, -1);
    ConstantCode(1, cx.(depth := 3));
    assert p.consts + [] == [I32(1)];
    assert PatternCx(p, cx) == IN_ARM.(depth := 2);
    InArmBody(e, x);
    InArmOut(p, x, cx, b);
  }

  lemma {:induction false} InArmBody(e: Stmt, x: Out)
    requires CodeS(e, IN_ARM) == Some(x) && x.locals == START.locals && -1 <= x.hole
    ensures CodeArmBody(Block(StmtD(e, End)), IN_ARM.(depth := 2)) == Some(x)
  {
    hide CodeS, CodeE;
    assert x.code + [] == x.code && x.consts + [] == x.consts;
    var end := Plain([], [], After(IN_ARM, x));
    assert CodeDs(End, After(IN_ARM, x)) == Some(end);
    assert Join(x, end) == x;
    assert CodeDs(StmtD(e, End), IN_ARM) == Some(x);
  }

  lemma {:induction false} InArmOut(p: Out, x: Out, cx: Cx, b: Out)
    requires p == Out([2, 1], [I32(1)], START.locals, -1) && x.locals == START.locals == cx.locals && |x.code| == 3
    requires x.consts == [] && (x.hole == 1 || x.hole == -1)
    requires b == Out([2, 1, 40, 0, 6] + x.code + [41, 0, 3, 41, 0, 0], [I32(1)], START.locals,
                      if x.hole == 1 then 6 else -1)
    ensures Join(ArmOut(p, x, [41, 0, 3], cx), Plain([41, 0, 0], [], After(cx, ArmOut(p, x, [41, 255, 255], cx)))) == b
  {
    assert Pops(0) == [];
    assert [2, 1] + [40, 0, 6] + x.code + ([41, 0, 3] + []) + [41, 0, 0] ==
           [2, 1, 40, 0, 6] + x.code + [41, 0, 3, 41, 0, 0];
    assert [I32(1)] + [] + [] + [] + [] == [I32(1)];
  }

  const BREAK_BYTES: seq<Byte> := HEAD + [48, 0, 10] + TAIL + [42, 0, 23]
  const CONTINUE_BYTES: seq<Byte> := HEAD + [49, 0, 13] + TAIL + [42, 0, 23]

  lemma {:induction false} LoopCode(e: Stmt, x: Out, bytes: seq<Byte>)
    requires CodeS(e, IN_ARM) == Some(x) && |x.code| == 3 && x.consts == [] && (x.hole == 1 || x.hole == -1)
    requires x.hole == 1 ==> bytes == HEAD + [x.code[0], 0, 10] + TAIL + [42, 0, 23]
    requires x.hole == -1 ==> bytes == HEAD + x.code + TAIL + [42, 0, 23]
    ensures CodeS(Loop(InArm(e)), TOP) == Some(Out(bytes, [I32(1), I32(1)], TOP.locals, -1))
  {
    hide CodeS, InArm;
    InArmCode(e, x);
    assert BodyCx(TOP, 0, 0) == START;
    var b := Out(HEAD + x.code + TAIL, [I32(1), I32(1)], START.locals, if x.hole == 1 then 11 else -1);
    LoopClosed(b, x, bytes);
    LoopIs(InArm(e), b);
  }

  lemma {:induction false} LoopIs(body: Stmt, b: Out)
    requires CodeS(body, START) == Some(b)
    ensures CodeS(Loop(body), TOP) == LoopOut(TOP, b)
  {
    hide LoopOut;
    assert BodyCx(TOP, 0, 0) == START;
  }

  lemma {:induction false} LoopClosed(b: Out, x: Out, bytes: seq<Byte>)
    requires |x.code| == 3 && b.code == HEAD + x.code + TAIL && b.consts == [I32(1), I32(1)]
    requires b.hole == (if x.hole == 1 then 11 else -1) && b.Valid()
    requires x.hole == 1 ==> bytes == HEAD + [x.code[0], 0, 10] + TAIL + [42, 0, 23]
    requires x.hole != 1 ==> bytes == HEAD + x.code + TAIL + [42, 0, 23]
    ensures LoopOut(TOP, b) == Some(Out(bytes, [I32(1), I32(1)], TOP.locals, -1))
  {
    assert |b.code| == 20;
    assert Encode(ILoop(23)) == [42, 0, 23];
    assert [I32(1), I32(1)] + [] == [I32(1), I32(1)];
    if x.hole == 1 {
      var c := b.code + [42, 0, 23];
      assert c[11 := 0][12 := 10] == bytes;
    }
  }

  /** With nothing declared in the loop and one `break` in it, the emitted bytes leave the matched value behind, where
      the language leaves nothing. */
  lemma {:induction false} BreakInArm(slot0: Value, env: Env)
    ensures Level(InArm(Break)) && Breaks(InArm(Break)) == 1 && Lift(InArm(Break)) == 1
    ensures CodeS(Loop(InArm(Break)), TOP) == Some(Out(BREAK_BYTES, [I32(1), I32(1)], TOP.locals, -1))
    ensures Reaches(Program(BREAK_BYTES, [I32(1), I32(1)]), State(0, [slot0]), State(23, [slot0, I32(1)]))
    ensures Exec(Loop(InArm(Break)), env, 0) == Next(env)
  {
    hide Reaches, Passes, Jams, Lasts;
    BreakCode();
    InArmLevel(Break);
    var p := Program(BREAK_BYTES, [I32(1), I32(1)]);
    assert [slot0] + [I32(1)] == [slot0, I32(1)];
    LoopPlaced(Break, p);
    InArmStack(Break, [slot0]);
    hide CodeS, InArm, ExecOn, BREAK_BYTES;
    StmtMoves(Loop(InArm(Break)), TOP, [slot0], 0, p, 0, 0);
    InArmMeans(Break, env);
  }

  lemma {:induction false} BreakCode()
    ensures CodeS(Loop(InArm(Break)), TOP) == Some(Out(BREAK_BYTES, [I32(1), I32(1)], TOP.locals, -1))
    ensures |BREAK_BYTES| == 23
  {
    LoopCode(Break, Out([48, 255, 255], [], TOP.locals, 1), BREAK_BYTES);
  }

  lemma {:induction false} ContinueCode()
    ensures CodeS(Loop(InArm(Continue)), TOP) == Some(Out(CONTINUE_BYTES, [I32(1), I32(1)], TOP.locals, -1))
    ensures CodeS(InArm(Continue), START) ==
              Some(Out(HEAD + [49, 0, 13] + TAIL, [I32(1), I32(1)], START.locals, -1))
  {
    var x := Out([49, 0, 13], [], TOP.locals, -1);
    assert CodeS(Continue, IN_ARM) == Some(x);
    hide CodeS, InArm;
    LoopCode(Continue, x, CONTINUE_BYTES);
    InArmCode(Continue, x);
  }

  lemma {:induction false} InArmLevel(e: Stmt)
    requires e.Break? || e.Continue?
    ensures Level(InArm(e))
    ensures e.Break? ==> Breaks(InArm(e)) == 1 && Lift(InArm(e)) == 1
    ensures e.Continue? ==> Lifts(InArm(e)) == {1}
  {
    var body := Block(StmtD(e, End));
    var arms := Arm(Int(1), body, NoMore);
    assert Variables(End) == 0 && Own(body) == 0 && LevelIn(End) && LevelIn(body.ds) && LevelBody(body);
    assert LevelOf(arms) && Level(Match(Int(1), arms));
    if e.Break? {
      assert BreaksIn(End) == 0 && Breaks(body) == 1 && LiftBody(body) == 0;
      assert BreaksOf(NoMore) == 0 && BreaksOf(arms) == 1 && LiftOf(arms) == 0 && Lift(Match(Int(1), arms)) == 1;
    } else {
      assert LiftsIn(End) == {} && LiftsIn(body.ds) == {0} && LiftsBody(body) == {0};
      assert LiftsOf(NoMore) == {} && LiftsOf(arms) == {0};
      assert 0 in LiftsOf(arms);
      assert Raised(LiftsOf(arms)) == {1};
    }
  }

  lemma {:induction false} InArmStack(e: Stmt, st: seq<Value>)
    requires e.Break? || e.Continue?
    ensures ExecOn(InArm(e), Of(START), st, 0) == if e.Break? then Left(st + [I32(1)]) else Again(st + [I32(1)])
    ensures e.Break? ==> ExecOn(Loop(InArm(e)), Of(TOP), st, 0) == Fell(st + [I32(1)])
  {
    var sc := Of(START).Deeper().Deeper();
    var t := st + [I32(1)];
    var body := Block(StmtD(e, End));
    var f := if e.Break? then Left(t) else Again(t);
    assert Rest(t + [I32(1)]) == t && Top(t) == I32(1);
    assert ExecOn(e, sc.Deeper(), t, 0) == f;
    assert DeclsOn(body.ds, sc.Deeper(), t, 0) == f;
    assert BodyOn(body, sc, t, 0) == f;
    assert ArmsOn(Arm(Int(1), body, NoMore), sc, t, 0) == f;
    assert ExecOn(Match(Int(1), Arm(Int(1), body, NoMore)), Of(START).Deeper(), st, 0) == f;
    assert DeclsOn(InArm(e).ds, Of(START).Deeper(), st, 0) == f;
    assert Of(TOP).Inside() == Of(START);
  }

  lemma {:induction false} InArmMeans(e: Stmt, env: Env)
    requires e.Break? || e.Continue?
    ensures Exec(InArm(e), env, 0) == if e.Break? then Broke(env) else Continued(env)
    ensures e.Break? ==> Exec(Loop(InArm(e)), env, 0) == Next(env)
  {
    var f := if e.Break? then Broke(env) else Continued(env);
    var body := Block(StmtD(e, End));
    assert env[..|env|] == env;
    assert ExecDecls(body.ds, env, 0) == f;
    assert Exec(body, env, 0) == f;
    assert ExecArms(Arm(Int(1), body, NoMore), I32(1), env, 0) == f;
    assert Exec(Match(Int(1), Arm(Int(1), body, NoMore)), env, 0) == f;
    assert ExecDecls(InArm(e).ds, env, 0) == f;
  }

  lemma {:induction false} LoopPlaced(e: Stmt, p: Program)
    requires CodeS(Loop(InArm(e)), TOP) == Some(Out(p.code, p.consts, TOP.locals, -1))
    ensures Pre(Loop(InArm(e)), TOP, p, 0, 0)
  {
    hide CodeS;
  }

  /** With a `continue` in its place, the loop comes back to its start one value higher every time, over any stack. */
  lemma {:induction false} ContinueInArm(st: seq<Value>, env: Env)
    ensures Level(InArm(Continue)) && Lifts(InArm(Continue)) == {1}
    ensures CodeS(Loop(InArm(Continue)), TOP) == Some(Out(CONTINUE_BYTES, [I32(1), I32(1)], TOP.locals, -1))
    ensures Passes(Program(CONTINUE_BYTES, [I32(1), I32(1)]), State(0, st), State(0, st + [I32(1)]))
    ensures Exec(InArm(Continue), env, 0) == Continued(env)
  {
    hide Reaches, Passes, Jams, Lasts;
    hide CodeS, InArm, CONTINUE_BYTES, HEAD, TAIL, ExecOn, Level, Lifts, Exec;
    ContinueCode();
    InArmLevel(Continue);
    var p := Program(CONTINUE_BYTES, [I32(1), I32(1)]);
    InArmPlaced(p);
    InArmStack(Continue, st);
    StmtMoves(InArm(Continue), START, st, 0, p, 0, 23);
    InArmMeans(Continue, env);
  }

  lemma {:induction false} InArmPlaced(p: Program)
    requires p == Program(CONTINUE_BYTES, [I32(1), I32(1)])
    requires CodeS(InArm(Continue), START) ==
               Some(Out(HEAD + [49, 0, 13] + TAIL, [I32(1), I32(1)], START.locals, -1))
    ensures Pre(InArm(Continue), START, p, 0, 23)
  {
    hide CodeS;
  }
}
