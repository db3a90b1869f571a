/** A text for every tree a script can have, with every optional token in place. */
module Showing {
  import opened Base
  import opened Syntax
  import opened Grammar
  import opened Forms
  import opened Texts
  import opened Readings

  /** The trees that some statement is read as: a `for` is a block of its own, of its initialiser and the loop. */
  predicate Writable(s: Stmt)
    decreases s, 1
  {
    match s
    case ExprS(_) => true
    case Block(ds) => WritableItems(ds) || WritableFor(ds)
    case If(_, t, f) => Writable(t) && Writable(f)
    case While(_, body) => Writable(body)
    case Loop(body) => Writable(body)
    case ForLoop(_, _, _) => false
    case Match(_, arms) => WritableArms(arms)
    case Break => true
    case Continue => true
  }

  predicate WritableItems(ds: Decls)
    decreases ds, 0
  {
    match ds
    case End => true
    case VarD(_, _, rest) => WritableItems(rest)
    case StmtD(s, rest) => Writable(s) && WritableItems(rest)
  }

  predicate WritableFor(ds: Decls)
    decreases ds, 2
  {
    match ds
    case End => false
    case VarD(_, _, _) => WritableVars(ds)
    case StmtD(s, rest) => if s.ExprS? then WritableLoop(rest) else WritableLoop(ds)
  }

  predicate WritableVars(ds: Decls)
    decreases ds, 1
  {
    match ds
    case End => false
    case VarD(_, _, rest) => WritableVars(rest)
    case StmtD(_, _) => WritableLoop(ds)
  }

  predicate WritableLoop(ds: Decls)
    decreases ds, 0
  {
    ds.StmtD? && ds.rest.End? && ds.s.ForLoop? && Writable(ds.s.body)
  }

  /** A block is an arm's body only as a block in braces. */
  predicate WritableBody(s: Stmt)
    decreases s, 0
  {
    match s
    case ExprS(_) => true
    case Block(ds) => WritableItems(ds)
    case Loop(body) => Writable(body)
    case Match(_, arms) => WritableArms(arms)
    case _ => false
  }

  predicate WritableArms(arms: Arms)
    decreases arms, 0
  {
    match arms
    case NoMore => true
    case Default(body) => WritableBody(body)
    case Arm(_, body, rest) => WritableBody(body) && WritableArms(rest)
  }

  /** A script has no variables outside its blocks. */
  predicate WritableScript(ds: Decls) {
    match ds
    case End => true
    case VarD(_, _, _) => false
    case StmtD(s, rest) => Writable(s) && WritableScript(rest)
  }

  /** An expression with every operand in parentheses. */
  function Full(e: Expr): Form {
    match e
    case Int(n) => Leaf(NumT(n))
    case BoolLit(b) => Leaf(if b then TrueT else FalseT)
    case NoneLit => Leaf(NoneT)
    case Var(x) => Leaf(IdT(x))
    case Assign(x, e1) => Target(x, Paren(Full(e1)))
    case Unary(u, e1) => Prefixing(u, Paren(Full(e1)))
    case Binary(op, l, r) => Infixed(Paren(Full(l)), Op(op), Paren(Full(r)))
    case And(l, r) => Infixed(Paren(Full(l)), AndT, Paren(Full(r)))
    case Or(l, r) => Infixed(Paren(Full(l)), OrT, Paren(Full(r)))
    case Cond(c, t, f) => Choice(Paren(Full(c)), Paren(Full(t)), Paren(Full(f)))
  }

  function Shown(s: Stmt): Text
    requires Writable(s)
    decreases s, 1
  {
    match s
    case ExprS(e) => ExprText(Full(e), true)
    case Block(ds) => if WritableItems(ds) then BlockText(ShownItems(ds)) else ShownFor(ds)
    case If(c, t, f) => IfText(Head(Full(c), true), Shown(t), Some(Shown(f)))
    case While(c, body) => WhileText(Head(Full(c), true), Shown(body))
    case Loop(body) => LoopText(Shown(body))
    case Match(e, arms) => MatchText(Head(Full(e), true), ShownArms(arms))
    case Break => BreakText
    case Continue => ContinueText
  }

  function ShownItems(ds: Decls): Items
    requires WritableItems(ds)
    decreases ds, 0
  {
    match ds
    case End => Closed
    case VarD(x, init, rest) => VarItem(Last(x, Some(Full(init))), ShownItems(rest))
    case StmtD(s, rest) => Item(Shown(s), ShownItems(rest))
  }

  function ShownFor(ds: Decls): Text
    requires WritableFor(ds)
    decreases ds, 1
  {
    match ds
    case VarD(_, _, _) =>
      var (names, loop) := ShownNames(ds);
      ShownLoop(VarInit(names), loop)
    case StmtD(s, rest) =>
      if s.ExprS? then ShownLoop(ExprInit(Full(s.e), true), rest) else ShownLoop(NoInit, ds)
  }

  function ShownNames(ds: Decls): (r: (Names, Decls))
    requires WritableVars(ds) && ds.VarD?
    ensures WritableLoop(r.1) && r.1 < ds && NameTrees(r.0, r.1) == ds && FairNames(r.0)
  {
    FullProper(ds.init);
    assert WritableVars(ds.rest);
    if ds.rest.VarD? then
      var (names, loop) := ShownNames(ds.rest);
      (More(ds.x, Some(Full(ds.init)), names), loop)
    else (Last(ds.x, Some(Full(ds.init))), ds.rest)
  }

  function ShownLoop(init: Init, ds: Decls): Text
    requires WritableLoop(ds)
    decreases ds, 0
  {
    var cond := if ds.s.cond.Some? then Some(Full(ds.s.cond.value)) else None;
    ForText(init, cond, Full(ds.s.inc), Shown(ds.s.body))
  }

  function ShownArms(arms: Arms): ArmTexts
    requires WritableArms(arms)
    decreases arms, 0
  {
    match arms
    case NoMore => ClosedArms
    case Default(body) => DefaultText(ShownBody(body), true)
    case Arm(p, body, rest) => ArmText(Full(p), ShownBody(body), 1, ShownArms(rest))
  }

  function ShownBody(s: Stmt): Text
    requires WritableBody(s)
    decreases s, 0
  {
    match s
    case ExprS(e) => ExprText(Full(e), true)
    case Block(ds) => BlockText(ShownItems(ds))
    case Loop(body) => LoopText(Shown(body))
    case Match(e, arms) => MatchText(Head(Full(e), true), ShownArms(arms))
  }

  function ShownLines(ds: Decls): Lines
    requires WritableScript(ds)
  {
    match ds
    case End => NoLines
    case StmtD(s, rest) => Line(Shown(s), ShownLines(rest))
  }

  lemma {:induction false} FullProper(e: Expr)
    ensures Proper(Full(e)) && Tree(Full(e)) == e
    decreases e, 1
  {
    match e
    case Assign(_, e1) => FullProper(e1);
    case Unary(_, e1) => FullProper(e1);
    case Binary(op, l, r) => FullInfixed(e, l, Op(op), r);
    case And(l, r) => FullInfixed(e, l, AndT, r);
    case Or(l, r) => FullInfixed(e, l, OrT, r);
    case Cond(c, t, f) =>
      FullProper(c);
      FullProper(t);
      FullProper(f);
    case _ =>
  }

  lemma {:induction false} FullInfixed(e: Expr, l: Expr, t: Token, r: Expr)
    requires IsInfix(t) && l < e && r < e
    ensures var f := Infixed(Paren(Full(l)), t, Paren(Full(r))); Proper(f) && Tree(f) == InfixTree(l, t, r)
    decreases e, 0
  {
    FullProper(l);
    FullProper(r);
    LevelsOf(t);
  }

  lemma {:induction false} ShownIs(s: Stmt, rest: seq<Token>)
    requires Writable(s)
    ensures Fair(Shown(s), rest) && Meant(Shown(s)) == s
    decreases s, 1
  {
    hide Proper, Tree, Yield, Full, ShownFor, WritableFor;
    match s
    case ExprS(e) => FullProper(e);
    case Block(ds) =>
      if WritableItems(ds) { ShownItemsAre(ds, rest); } else { ShownForIs(ds, rest); }
    case If(c, t, f) =>
      FullProper(c);
      ShownIs(t, [ElseT] + Write(Shown(f), rest));
      ShownIs(f, rest);
    case While(c, body) =>
      FullProper(c);
      ShownIs(body, rest);
    case Loop(body) => ShownIs(body, rest);
    case Match(e, arms) =>
      FullProper(e);
      ShownArmsAre(arms, rest);
    case Break =>
    case Continue =>
  }

  lemma {:induction false} ShownItemsAre(ds: Decls, rest: seq<Token>)
    requires WritableItems(ds)
    ensures FairItems(ShownItems(ds), rest) && ItemTrees(ShownItems(ds)) == ds
    decreases ds, 0
  {
    hide Proper, Tree, Yield, Full, Writable, Shown;
    match ds
    case End =>
    case VarD(x, init, more) =>
      FullProper(init);
      ShownItemsAre(more, rest);
    case StmtD(s, more) =>
      ShownIs(s, WriteItems(ShownItems(more), rest));
      ShownItemsAre(more, rest);
  }

  lemma {:induction false} ShownForIs(ds: Decls, rest: seq<Token>)
    requires WritableFor(ds)
    ensures Fair(ShownFor(ds), rest) && Meant(ShownFor(ds)) == Block(ds)
    decreases ds, 1
  {
    hide Proper, Tree, Yield, Full, Writable, Shown;
    match ds
    case VarD(_, _, _) =>
      var (names, loop) := ShownNames(ds);
      ShownLoopIs(VarInit(names), loop, rest);
    case StmtD(s, more) =>
      if s.ExprS? {
        FullProper(s.e);
        ShownLoopIs(ExprInit(Full(s.e), true), more, rest);
      } else {
        ShownLoopIs(NoInit, ds, rest);
      }
  }

  lemma {:induction false} ShownLoopIs(init: Init, ds: Decls, rest: seq<Token>)
    requires WritableLoop(ds)
    requires init.ExprInit? ==> init.semi && Proper(init.f)
    requires init.VarInit? ==> FairNames(init.names)
    ensures Fair(ShownLoop(init, ds), rest) && Meant(ShownLoop(init, ds)) == Block(InitTrees(init, ds))
    decreases ds, 0
  {
    hide Proper, Tree, Yield, Full;
    ShownIs(ds.s.body, rest);
    FullProper(ds.s.inc);
    if ds.s.cond.Some? { FullProper(ds.s.cond.value); }
  }

  lemma {:induction false} ShownArmsAre(arms: Arms, rest: seq<Token>)
    requires WritableArms(arms)
    ensures FairArms(ShownArms(arms), rest) && ArmTrees(ShownArms(arms)) == arms
    decreases arms, 0
  {
    hide Proper, Tree, Yield, Full, WritableBody, ShownBody;
    match arms
    case NoMore =>
    case Default(body) => ShownBodyIs(body, When(true, Comma, [RBrace] + rest));
    case Arm(p, body, more) =>
      FullProper(p);
      ShownBodyIs(body, Commas(1, WriteArms(ShownArms(more), rest)));
      ShownArmsAre(more, rest);
  }

  lemma {:induction false} ShownBodyIs(s: Stmt, rest: seq<Token>)
    requires WritableBody(s)
    ensures FairBody(ShownBody(s), rest) && Meant(ShownBody(s)) == s
    decreases s, 0
  {
    hide Proper, Tree, Yield, Full, Writable, Shown;
    match s
    case ExprS(e) => FullProper(e);
    case Block(ds) => ShownItemsAre(ds, rest);
    case Loop(body) => ShownIs(body, rest);
    case Match(e, arms) =>
      FullProper(e);
      ShownArmsAre(arms, rest);
  }

  lemma {:induction false} ShownLinesAre(ds: Decls)
    requires WritableScript(ds)
    ensures FairLines(ShownLines(ds)) && LineTrees(ShownLines(ds)) == ds
  {
    hide Writable, Shown;
    if ds.StmtD? {
      ShownIs(ds.s, WriteLines(ShownLines(ds.rest)));
      ShownLinesAre(ds.rest);
    }
  }

  /** Round trip: every tree that can be written at all is read back from its text, whole. */
  lemma {:induction false} ScriptShown(ds: Decls)
    requires WritableScript(ds)
    ensures Script(WriteLines(ShownLines(ds))) == Ok(ds, [])
  {
    hide Script, WritableScript, ShownLines, FairLines, LineTrees, WriteLines;
    ShownLinesAre(ds);
    ReadsLines(ShownLines(ds));
  }

  lemma {:induction false} MeantIsWritable(s: Text, rest: seq<Token>)
    requires Fair(s, rest)
    ensures Writable(Meant(s))
    decreases s, 1
  {
    hide Proper, Tree, Yield, FairInit, WriteInit, FairHead, WriteHead;
    match s
    case ExprText(_, _) =>
    case BlockText(items) => ItemsAreWritable(items, rest);
    case IfText(c, t, e) =>
      MeantIsWritable(t, if e.Some? then [ElseT] + Write(e.value, rest) else rest);
      if e.Some? { MeantIsWritable(e.value, rest); }
    case WhileText(_, body) => MeantIsWritable(body, rest);
    case LoopText(body) => MeantIsWritable(body, rest);
    case ForText(init, cond, inc, body) =>
      MeantIsWritable(body, rest);
      var loop := ForLoop(if cond.Some? then Some(Tree(cond.value)) else None, Tree(inc), Meant(body));
      InitIsWritable(init, StmtD(loop, End));
    case MatchText(_, arms) => ArmsAreWritable(arms, rest);
    case BreakText =>
    case ContinueText =>
  }

  lemma {:induction false} InitIsWritable(init: Init, ds: Decls)
    requires WritableLoop(ds)
    ensures WritableFor(InitTrees(init, ds))
  {
    if init.VarInit? { NamesAreWritable(init.names, ds); }
  }

  lemma {:induction false} NamesAreWritable(names: Names, ds: Decls)
    ensures NameTrees(names, ds).VarD?
    ensures WritableLoop(ds) ==> WritableVars(NameTrees(names, ds))
    ensures WritableItems(ds) ==> WritableItems(NameTrees(names, ds))
  {
    hide Writable;
    if names.More? { NamesAreWritable(names.rest, ds); }
  }

  lemma {:induction false} ItemsAreWritable(items: Items, rest: seq<Token>)
    requires FairItems(items, rest)
    ensures WritableItems(ItemTrees(items))
    decreases items, 1
  {
    hide Fair, Meant, Writable;
    match items
    case Closed =>
    case Item(s, more) =>
      MeantIsWritable(s, WriteItems(more, rest));
      ItemsAreWritable(more, rest);
    case VarItem(names, more) =>
      ItemsAreWritable(more, rest);
      NamesAreWritable(names, ItemTrees(more));
  }

  lemma {:induction false} ArmsAreWritable(arms: ArmTexts, rest: seq<Token>)
    requires FairArms(arms, rest)
    ensures WritableArms(ArmTrees(arms))
    decreases arms, 1
  {
    hide Meant, FairBody, WritableBody;
    match arms
    case ClosedArms =>
    case DefaultText(body, comma) => BodyIsWritable(body, When(comma, Comma, [RBrace] + rest));
    case ArmText(_, body, commas, more) =>
      BodyIsWritable(body, Commas(commas, WriteArms(more, rest)));
      ArmsAreWritable(more, rest);
  }

  lemma {:induction false} BodyIsWritable(body: Text, rest: seq<Token>)
    requires FairBody(body, rest)
    ensures WritableBody(Meant(body))
    decreases body, 0
  {
    match body
    case ExprText(_, _) =>
    case BlockText(items) => ItemsAreWritable(items, rest);
    case LoopText(b) => MeantIsWritable(b, rest);
    case MatchText(_, arms) => ArmsAreWritable(arms, rest);
  }

  lemma {:induction false} LinesAreWritable(lines: Lines)
    requires FairLines(lines)
    ensures WritableScript(LineTrees(lines))
  {
    hide Fair, Meant, Writable;
    if lines.Line? {
      MeantIsWritable(lines.s, WriteLines(lines.rest));
      LinesAreWritable(lines.rest);
    }
  }

  /** The trees that scripts are read as are exactly the writable ones. */
  lemma {:induction false} WritableIs(ds: Decls)
    ensures WritableScript(ds) <==> exists ts :: Script(ts) == Ok(ds, [])
  {
    hide *;
    if WritableScript(ds) { ScriptShown(ds); }
    if ts :| Script(ts) == Ok(ds, []) {
      var lines := LinesRead(ts);
      LinesAreWritable(lines);
    }
  }
}
