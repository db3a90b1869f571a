/** Printing with only the parentheses that are needed: its round trip, and that no shorter text is read the same. */
module Printing {
  import opened Syntax
  import opened Grammar
  import opened Forms

  /** A tree's form with as few parentheses as its operands allow. */
  function Bare(e: Expr): Form
    decreases e, 0
  {
    match e
    case Int(n) => Leaf(NumT(n))
    case BoolLit(b) => Leaf(if b then TrueT else FalseT)
    case NoneLit => Leaf(NoneT)
    case Var(x) => Leaf(IdT(x))
    case Assign(x, e1) => Target(x, Fit(e1, ASSIGN))
    case Unary(u, e1) => Prefixing(u, Fit(e1, UNARY))
    case Binary(op, l, r) => Infixed(Fit(l, LeftLevel(op)), Op(op), Fit(r, RightLevel(op)))
    case And(l, r) => Infixed(Fit(l, AND + 1), AndT, Fit(r, AND))
    case Or(l, r) => Infixed(Fit(l, OR + 1), OrT, Fit(r, OR))
    case Cond(c, t, f) => Choice(Fit(c, CONDITIONAL + 1), Fit(t, ASSIGN), Fit(f, ASSIGN))
  }

  function Fit(e: Expr, level: nat): Form
    decreases e, 1
  {
    if Level(Bare(e)) >= level then Bare(e) else Paren(Bare(e))
  }

  function Show(e: Expr, level: nat): seq<Token> {
    Yield(Fit(e, level))
  }

  lemma {:induction false} FitIs(e: Expr, level: nat)
    requires level <= UNARY
    ensures Proper(Fit(e, level)) && Tree(Fit(e, level)) == e && Level(Fit(e, level)) >= level
    decreases e, 1
  {
    hide Fit, Bare;
    BareIs(e);
    FitFrom(e, level);
  }

  lemma {:induction false} FitFrom(e: Expr, level: nat)
    requires Proper(Bare(e)) && Tree(Bare(e)) == e && level <= UNARY
    ensures Proper(Fit(e, level)) && Tree(Fit(e, level)) == e && Level(Fit(e, level)) >= level
  {
    hide Bare;
  }

  lemma {:induction false} BareIs(e: Expr)
    ensures Proper(Bare(e)) && Tree(Bare(e)) == e
    decreases e, 0
  {
    hide Fit;
    match e
    case Assign(_, e1) => FitIs(e1, ASSIGN);
    case Unary(_, e1) => FitIs(e1, UNARY);
    case Binary(op, l, r) => BareInfixed(e, l, Op(op), r);
    case And(l, r) => BareInfixed(e, l, AndT, r);
    case Or(l, r) => BareInfixed(e, l, OrT, r);
    case Cond(c, t, f) =>
      FitIs(c, CONDITIONAL + 1);
      FitIs(t, ASSIGN);
      FitIs(f, ASSIGN);
    case _ =>
  }

  lemma {:induction false} BareInfixed(e: Expr, l: Expr, t: Token, r: Expr)
    requires IsInfix(t) && l < e && r < e
    ensures var f := Infixed(Fit(l, OperandLevel(t)), t, Fit(r, LastLevel(t)));
            Proper(f) && Tree(f) == InfixTree(l, t, r)
    decreases e, -1
  {
    hide Fit, OperandLevel, LastLevel, Prec, Proper, Tree, Level, IsInfix;
    LevelsOf(t);
    FitIs(l, OperandLevel(t));
    FitIs(r, LastLevel(t));
    InfixedMade(Fit(l, OperandLevel(t)), t, Fit(r, LastLevel(t)));
  }

  /** Round trip: every tree, printed and parsed, is itself, with nothing left over. */
  lemma {:induction false} ParsePrinted(e: Expr)
    ensures Expression(Show(e, ASSIGN)) == Ok(e, [])
  {
    hide Precedence, Fit, Yield, Proper, Tree, Level;
    FitIs(e, ASSIGN);
    ExpressionIs(Show(e, ASSIGN), e, []);
    assert Show(e, ASSIGN) == Yield(Fit(e, ASSIGN)) + [];
  }

  /** Hence two trees print alike only when they are one tree. */
  lemma {:induction false} PrintingIsInjective(a: Expr, b: Expr)
    requires Show(a, ASSIGN) == Show(b, ASSIGN)
    ensures a == b
  {
    hide Precedence, Show;
    ParsePrinted(a);
    ParsePrinted(b);
  }

  /** Longer than the printed text, or that text itself. */
  ghost predicate AtLeast(used: seq<Token>, shown: seq<Token>) {
    |used| > |shown| || used == shown
  }

  lemma {:induction false} LeastJoin(a: seq<Token>, x: seq<Token>, b: seq<Token>, y: seq<Token>)
    requires AtLeast(a, x) && AtLeast(b, y)
    ensures AtLeast(a + b, x + y)
  {
  }

  lemma {:induction false} SameLeast(a: seq<Token>)
    ensures AtLeast(a, a)
  {
  }

  lemma {:induction false} LeastAround(a: seq<Token>, b: seq<Token>, y: seq<Token>, c: seq<Token>)
    requires AtLeast(b, y)
    ensures AtLeast(a + b + c, a + y + c)
  {
  }

  lemma {:induction false} LeastInfix(a: seq<Token>, x: seq<Token>, t: seq<Token>, b: seq<Token>, y: seq<Token>)
    requires AtLeast(a, x) && AtLeast(b, y)
    ensures AtLeast(a + t + b, x + t + y)
  {
    hide AtLeast;
    SameLeast(t);
    LeastJoin(a, x, t, t);
    LeastJoin(a + t, x + t, b, y);
  }

  /** Every form of a tree takes at least the text that is printed where the form is let in. */
  lemma {:induction false} Least(f: Form, level: nat)
    requires Proper(f) && level <= Level(f) && level <= UNARY
    ensures AtLeast(Yield(f), Show(Tree(f), level))
    decreases f, 1
  {
    hide AtLeast, Yield, Tree, Bare;
    BareLeast(f);
    ShowIs(f, level);
  }

  /** Without its parentheses a form takes at least the bare text, and in parentheses more. */
  lemma {:induction false} BareLeast(f: Form)
    requires Proper(f)
    ensures AtLeast(Yield(f), Yield(Bare(Tree(f))))
    ensures f.Paren? ==> AtLeast(Yield(f), [LParen] + Yield(Bare(Tree(f))) + [RParen])
    decreases f, 0
  {
    hide AtLeast, Fit, Show;
    match f
    case Leaf(t) => SameLeast([t]);
    case Paren(g) =>
      BareLeast(g);
      LeastAround([LParen], Yield(g), Yield(Bare(Tree(g))), [RParen]);
      LongerStill(Yield(f), Yield(Bare(Tree(g))));
    case Target(x, g) =>
      FormLevel(g);
      Least(g, ASSIGN);
      FitText(Tree(g), ASSIGN);
      SameLeast([IdT(x), AssignT]);
      LeastJoin([IdT(x), AssignT], [IdT(x), AssignT], Yield(g), Show(Tree(g), ASSIGN));
    case Prefixing(u, g) =>
      Least(g, UNARY);
      FitText(Tree(g), UNARY);
      SameLeast([UnToken(u)]);
      LeastJoin([UnToken(u)], [UnToken(u)], Yield(g), Show(Tree(g), UNARY));
    case Infixed(l, t, r) => InfixedLeast(l, t, r);
    case Choice(c, y, n) => ChoiceLeast(c, y, n);
  }

  lemma {:induction false} InfixedLeast(l: Form, t: Token, r: Form)
    requires Proper(Infixed(l, t, r))
    ensures AtLeast(Yield(Infixed(l, t, r)), Yield(Bare(Tree(Infixed(l, t, r)))))
    decreases Infixed(l, t, r), -1
  {
    hide AtLeast, Fit, Show, Level, Prec;
    LevelsOf(t);
    Least(l, OperandLevel(t));
    Least(r, LastLevel(t));
    FitText(Tree(l), OperandLevel(t));
    FitText(Tree(r), LastLevel(t));
    LeastInfix(Yield(l), Show(Tree(l), OperandLevel(t)), [t], Yield(r), Show(Tree(r), LastLevel(t)));
  }

  lemma {:induction false} ChoiceLeast(c: Form, y: Form, n: Form)
    requires Proper(Choice(c, y, n))
    ensures AtLeast(Yield(Choice(c, y, n)), Yield(Bare(Tree(Choice(c, y, n)))))
    decreases Choice(c, y, n), -1
  {
    hide AtLeast, Fit, Show, Level;
    FormLevel(y);
    FormLevel(n);
    Least(c, CONDITIONAL + 1);
    Least(y, ASSIGN);
    Least(n, ASSIGN);
    FitText(Tree(c), CONDITIONAL + 1);
    FitText(Tree(y), ASSIGN);
    FitText(Tree(n), ASSIGN);
    var a, x := Yield(c), Show(Tree(c), CONDITIONAL + 1);
    var b, z := Yield(y), Show(Tree(y), ASSIGN);
    LeastInfix(a, x, [QuestionT], b, z);
    LeastInfix(a + [QuestionT] + b, x + [QuestionT] + z, [ColonT], Yield(n), Show(Tree(n), ASSIGN));
  }

  lemma {:induction false} FitText(e: Expr, level: nat)
    ensures Show(e, level) == Yield(Fit(e, level))
  {
  }

  lemma {:induction false} LongerStill(used: seq<Token>, shown: seq<Token>)
    requires AtLeast(used, [LParen] + shown + [RParen])
    ensures AtLeast(used, shown)
  {
  }

  lemma {:induction false} ShowIs(f: Form, level: nat)
    requires Proper(f) && level <= Level(f) && level <= UNARY && AtLeast(Yield(f), Yield(Bare(Tree(f))))
    requires f.Paren? ==> AtLeast(Yield(f), [LParen] + Yield(Bare(Tree(f))) + [RParen])
    ensures AtLeast(Yield(f), Show(Tree(f), level))
  {
    hide AtLeast, Proper;
    if !f.Paren? { SameLevel(f); }
  }

  lemma {:induction false} SameLevel(f: Form)
    requires Proper(f) && !f.Paren?
    ensures Level(Bare(Tree(f))) == Level(f)
  {
  }

  /** Every text read as a tree is longer than the printed one, or is the printed one. */
  lemma {:induction false} PrintedIsShortest(ts: seq<Token>, e: Expr)
    requires Expression(ts) == Ok(e, [])
    ensures |ts| > |Show(e, ASSIGN)| || ts == Show(e, ASSIGN)
  {
    hide Precedence, Show, Yield, Proper, Tree;
    var f := FormOf(ASSIGN, ts);
    Least(f, ASSIGN);
    assert ts == Yield(f);
  }

  /** So no pair of parentheses can be dropped, however deep in the text it is. */
  lemma {:induction false} ParensNeeded(e: Expr, a: seq<Token>, b: seq<Token>, c: seq<Token>)
    requires Show(e, ASSIGN) == a + [LParen] + b + [RParen] + c
    ensures Expression(a + b + c) != Ok(e, [])
  {
    hide Precedence, Show;
    if Expression(a + b + c) == Ok(e, []) { PrintedIsShortest(a + b + c, e); }
  }
}
