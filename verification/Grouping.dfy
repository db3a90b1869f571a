/** How operators group without parentheses, by one list of them from the loosest to the tightest. */
module Grouping {
  import opened Syntax
  import opened Grammar
  import opened Forms

  const TIERS: seq<set<BinOp>> := [
    {BitOr}, {BitXor}, {BitAnd}, {Eq, Neq}, {Lt, Le, Gt, Ge}, {Shl, Shr}, {Add, Sub}, {Mul, Div, Mod}]

  /** Every operator is in one tier. */
  lemma {:induction false} OneTier(p: BinOp)
    ensures exists i :: 0 <= i < |TIERS| && p in TIERS[i]
    ensures forall i, j :: 0 <= i < |TIERS| && 0 <= j < |TIERS| && p in TIERS[i] && p in TIERS[j] ==> i == j
  {
    TierLevel(p);
    assert p in TIERS[OpPrec(p) - 5];
  }

  lemma {:induction false} TierLevel(p: BinOp)
    ensures 5 <= OpPrec(p) < 5 + |TIERS| && forall i :: 0 <= i < |TIERS| && p in TIERS[i] ==> OpPrec(p) == i + 5
    ensures p in TIERS[OpPrec(p) - 5]
    ensures RightAssociative(p) <==> p in {BitOr, BitXor, BitAnd, Shl, Shr}
  {
  }

  lemma {:induction false} ReadsForm(f: Form)
    requires Proper(f)
    ensures Expression(Yield(f)) == Ok(Tree(f), [])
  {
    hide Precedence, Proper, Yield, Tree;
    assert Yield(f) == Yield(f) + [];
    ExpressionIs(Yield(f), Tree(f), []);
  }

  /** Two operators between three operands, which may be names, literals or anything in parentheses: the tighter one
      goes first, and of one tier the left one, but the right one for bitwise operators and shifts. */
  lemma {:induction false} TwoOperators(p: BinOp, q: BinOp, i: nat, j: nat, x: Form, y: Form, z: Form)
    requires i < |TIERS| && j < |TIERS| && p in TIERS[i] && q in TIERS[j] && Atoms([x, y, z])
    ensures Expression(Yield(x) + [Op(p)] + Yield(y) + [Op(q)] + Yield(z)) ==
              Ok(if i > j || (i == j && p !in {BitOr, BitXor, BitAnd, Shl, Shr})
                 then Binary(q, Binary(p, Tree(x), Tree(y)), Tree(z))
                 else Binary(p, Tree(x), Binary(q, Tree(y), Tree(z))), [])
  {
    TierLevel(p);
    TierLevel(q);
    AtomsAre([x, y, z]);
    assert [x, y, z][0] == x && [x, y, z][1] == y && [x, y, z][2] == z;
    if i > j || (i == j && p !in {BitOr, BitXor, BitAnd, Shl, Shr}) {
      LeftNested(x, Op(p), y, Op(q), z);
    } else {
      RightNested(x, Op(p), y, Op(q), z);
    }
  }

  /** Operands that nothing can be taken out of. */
  ghost predicate Atoms(fs: seq<Form>) {
    forall i :: 0 <= i < |fs| ==> (fs[i].Leaf? || fs[i].Paren?) && Proper(fs[i])
  }

  lemma {:induction false} AtomsAre(fs: seq<Form>)
    requires Atoms(fs)
    ensures forall i :: 0 <= i < |fs| ==> Proper(fs[i]) && Level(fs[i]) == ATOM
  {
  }

  lemma {:induction false} LeftNested(x: Form, t: Token, y: Form, u: Token, z: Form)
    requires IsInfix(t) && IsInfix(u) && Prec(t) >= OperandLevel(u)
    requires Proper(x) && Proper(y) && Proper(z) && Level(x) == ATOM && Level(y) == ATOM && Level(z) == ATOM
    ensures Expression(Yield(x) + [t] + Yield(y) + [u] + Yield(z)) ==
              Ok(InfixTree(InfixTree(Tree(x), t, Tree(y)), u, Tree(z)), [])
  {
    hide Precedence, Prec, OperandLevel, LastLevel;
    LevelsOf(t);
    LevelsOf(u);
    InfixedMade(x, t, y);
    InfixedMade(Infixed(x, t, y), u, z);
    ReadsForm(Infixed(Infixed(x, t, y), u, z));
  }

  lemma {:induction false} RightNested(x: Form, t: Token, y: Form, u: Token, z: Form)
    requires IsInfix(t) && IsInfix(u) && Prec(u) >= LastLevel(t)
    requires Proper(x) && Proper(y) && Proper(z) && Level(x) == ATOM && Level(y) == ATOM && Level(z) == ATOM
    ensures Expression(Yield(x) + [t] + Yield(y) + [u] + Yield(z)) ==
              Ok(InfixTree(Tree(x), t, InfixTree(Tree(y), u, Tree(z))), [])
  {
    hide Precedence, Prec, OperandLevel, LastLevel;
    LevelsOf(t);
    LevelsOf(u);
    InfixedMade(y, u, z);
    InfixedMade(x, t, Infixed(y, u, z));
    ReadsForm(Infixed(x, t, Infixed(y, u, z)));
    Regroup(Yield(x), [t], Yield(y) + [u], Yield(z));
    assert Yield(x) + [t] + Yield(y) + [u] + Yield(z) == Yield(x) + [t] + (Yield(y) + [u] + Yield(z));
  }

  /** `and` is looser than every operator, `or` looser still, and both group to the right. */
  lemma {:induction false} Logical(p: BinOp, x: Form, y: Form, z: Form)
    requires Atoms([x, y, z])
    ensures var a, b, c, s, t, u := Tree(x), Tree(y), Tree(z), Yield(x), Yield(y), Yield(z);
            && Expression(s + [Op(p)] + t + [AndT] + u) == Ok(And(Binary(p, a, b), c), [])
            && Expression(s + [AndT] + t + [Op(p)] + u) == Ok(And(a, Binary(p, b, c)), [])
            && Expression(s + [Op(p)] + t + [OrT] + u) == Ok(Or(Binary(p, a, b), c), [])
            && Expression(s + [OrT] + t + [Op(p)] + u) == Ok(Or(a, Binary(p, b, c)), [])
            && Expression(s + [AndT] + t + [OrT] + u) == Ok(Or(And(a, b), c), [])
            && Expression(s + [OrT] + t + [AndT] + u) == Ok(Or(a, And(b, c)), [])
            && Expression(s + [AndT] + t + [AndT] + u) == Ok(And(a, And(b, c)), [])
            && Expression(s + [OrT] + t + [OrT] + u) == Ok(Or(a, Or(b, c)), [])
  {
    hide Precedence, Yield, Tree, Proper;
    AtomsAre([x, y, z]);
    assert [x, y, z][0] == x && [x, y, z][1] == y && [x, y, z][2] == z;
    TierLevel(p);
    LeftNested(x, Op(p), y, AndT, z);
    RightNested(x, AndT, y, Op(p), z);
    LeftNested(x, Op(p), y, OrT, z);
    RightNested(x, OrT, y, Op(p), z);
    LeftNested(x, AndT, y, OrT, z);
    RightNested(x, OrT, y, AndT, z);
    RightNested(x, AndT, y, AndT, z);
    RightNested(x, OrT, y, OrT, z);
  }

  /** The ternary is looser than all of them on its left and takes everything on its right; its parts may be ternaries
      and assignments. */
  lemma {:induction false} Ternary(t: Token, w: Name, x: Form, y: Form, z: Form, v: Form)
    requires IsInfix(t) && Atoms([x, y, z, v])
    ensures var a, b, c, d := Tree(x), Tree(y), Tree(z), Tree(v);
            var k, l, m, n := Yield(x), Yield(y), Yield(z), Yield(v);
            && Expression(k + [t] + l + [QuestionT] + m + [ColonT] + n) == Ok(Cond(InfixTree(a, t, b), c, d), [])
            && Expression(k + [QuestionT] + (l + [t] + m) + [ColonT] + n) == Ok(Cond(a, InfixTree(b, t, c), d), [])
            && Expression(k + [QuestionT] + l + [ColonT] + (m + [t] + n)) == Ok(Cond(a, b, InfixTree(c, t, d)), [])
            && Expression(k + [QuestionT] + l + [ColonT] + (m + [QuestionT] + n + [ColonT] + k)) ==
                 Ok(Cond(a, b, Cond(c, d, a)), [])
            && Expression(k + [QuestionT] + ([IdT(w), AssignT] + l) + [ColonT] + ([IdT(w), AssignT] + m)) ==
                 Ok(Cond(a, Assign(w, b), Assign(w, c)), [])
  {
    hide Precedence, Yield, Tree, Proper, InfixTree;
    AtomsAre([x, y, z, v]);
    assert [x, y, z, v][0] == x && [x, y, z, v][1] == y && [x, y, z, v][2] == z && [x, y, z, v][3] == v;
    Chosen(Infixed(x, t, y), z, v) by { InfixBinds(x, t, y); }
    Chosen(x, Infixed(y, t, z), v) by { InfixBinds(y, t, z); }
    Chosen(x, y, Infixed(z, t, v)) by { InfixBinds(z, t, v); }
    ChoiceMade(z, v, x);
    Chosen(x, y, Choice(z, v, x));
    ProperHead(Target(w, y));
    ProperHead(Target(w, z));
    Chosen(x, Target(w, y), Target(w, z));
    InfixBinds(x, t, y);
    InfixBinds(y, t, z);
    InfixBinds(z, t, v);
    Targets(w, y);
    Targets(w, z);
  }

  lemma {:induction false} Targets(w: Name, y: Form)
    ensures Yield(Target(w, y)) == [IdT(w), AssignT] + Yield(y) && Tree(Target(w, y)) == Assign(w, Tree(y))
  {
  }

  lemma {:induction false} InfixBinds(x: Form, t: Token, y: Form)
    requires IsInfix(t) && Proper(x) && Proper(y) && Level(x) == ATOM && Level(y) == ATOM
    ensures var f := Infixed(x, t, y);
            && Proper(f) && Level(f) > CONDITIONAL && Tree(f) == InfixTree(Tree(x), t, Tree(y))
            && Yield(f) == Yield(x) + [t] + Yield(y)
  {
    hide Yield, Tree, Proper;
    LevelsOf(t);
    InfixedMade(x, t, y);
  }

  lemma {:induction false} Chosen(c: Form, y: Form, n: Form)
    requires Proper(c) && Proper(y) && Proper(n) && Level(c) > CONDITIONAL
    ensures Expression(Yield(c) + [QuestionT] + Yield(y) + [ColonT] + Yield(n)) ==
              Ok(Cond(Tree(c), Tree(y), Tree(n)), [])
  {
    hide Precedence, Yield, Tree, Proper;
    ChoiceMade(c, y, n);
    ReadsForm(Choice(c, y, n));
  }

  /** Assignment takes everything on its right, and no operator takes one on its left. */
  lemma {:induction false} Assignments(t: Token, v: Name, w: Name, x: Form, y: Form, z: Form)
    requires IsInfix(t) && Atoms([x, y, z])
    ensures var k, l, m := Yield(x), Yield(y), Yield(z);
            && Expression([IdT(v), AssignT] + (k + [t] + l)) == Ok(Assign(v, InfixTree(Tree(x), t, Tree(y))), [])
            && Expression([IdT(v), AssignT] + (k + [QuestionT] + l + [ColonT] + m)) ==
                 Ok(Assign(v, Cond(Tree(x), Tree(y), Tree(z))), [])
            && Expression([IdT(v), AssignT] + ([IdT(w), AssignT] + k)) == Ok(Assign(v, Assign(w, Tree(x))), [])
  {
    hide Precedence, Yield, Tree, Proper, InfixTree;
    AtomsAre([x, y, z]);
    assert [x, y, z][0] == x && [x, y, z][1] == y && [x, y, z][2] == z;
    InfixBinds(x, t, y);
    ChoiceMade(x, y, z);
    Targets(w, x);
    ProperHead(Target(w, x));
    Assigned(v, Infixed(x, t, y));
    Assigned(v, Choice(x, y, z));
    Assigned(v, Target(w, x));
  }

  lemma {:induction false} Assigned(v: Name, f: Form)
    requires Proper(f)
    ensures Expression([IdT(v), AssignT] + Yield(f)) == Ok(Assign(v, Tree(f)), [])
  {
    hide Precedence, Yield, Tree, Proper;
    ProperHead(Target(v, f));
    Targets(v, f);
    ReadsForm(Target(v, f));
  }

  /** What an assignment may not stand after is refused. */
  lemma {:induction false} NotTargets(t: Token, u: UnOp, a: Token, v: Name, rest: seq<Token>)
    requires IsInfix(t) && IsLeaf(a)
    ensures Expression([a, t, IdT(v), AssignT] + rest).Failure?
    ensures Expression([UnToken(u), IdT(v), AssignT] + rest).Failure?
  {
    hide Precedence, Infixes, Prefix;
    RefusedAfterInfix(t, a, v, rest);
    RefusedAfterPrefix(u, v, rest);
  }

  lemma {:induction false} JustAName(level: nat, v: Name, rest: seq<Token>)
    requires level > ASSIGN
    ensures Precedence(level, [IdT(v), AssignT] + rest) == Ok(Var(v), [AssignT] + rest)
  {
    var ts := [IdT(v), AssignT] + rest;
    assert ts[1..] == [AssignT] + rest;
    StopsHere(level, Var(v), ts[1..]);
  }

  lemma {:induction false} RefusedAfterPrefix(u: UnOp, v: Name, rest: seq<Token>)
    ensures Expression([UnToken(u), IdT(v), AssignT] + rest).Failure?
  {
    hide Precedence, Infixes;
    var ts := [UnToken(u), IdT(v), AssignT] + rest;
    assert ts[1..] == [IdT(v), AssignT] + rest;
    JustAName(UNARY, v, rest);
    PrecedenceIs(ASSIGN, ts, Unary(u, Var(v)), [AssignT] + rest);
    StopsHere(ASSIGN, Unary(u, Var(v)), [AssignT] + rest);
  }

  lemma {:induction false} RefusedAfterInfix(t: Token, a: Token, v: Name, rest: seq<Token>)
    requires IsInfix(t) && IsLeaf(a)
    ensures Expression([a, t, IdT(v), AssignT] + rest).Failure?
  {
    hide Precedence, Infixes, Infix;
    var ts := [a, t, IdT(v), AssignT] + rest;
    var us := [t, IdT(v), AssignT] + rest;
    assert ts[1..] == us && us[1..] == [IdT(v), AssignT] + rest;
    JustAName(LastLevel(t), v, rest);
    InfixIs(LeafTree(a), t, Var(v), us, [AssignT] + rest);
    var e := InfixTree(LeafTree(a), t, Var(v));
    LevelsOf(t);
    PrecedenceIs(ASSIGN, ts, LeafTree(a), us);
    InfixGoesOn(ASSIGN, LeafTree(a), us, e, [AssignT] + rest);
    StopsHere(ASSIGN, e, [AssignT] + rest);
  }

  /** A prefix operator is tighter than everything else. */
  lemma {:induction false} PrefixOperators(t: Token, u: UnOp, v: Name, x: Form, y: Form, z: Form)
    requires IsInfix(t) && Atoms([x, y, z])
    ensures var k, l, m, n := [UnToken(u)] + Yield(x), [UnToken(u)] + Yield(y), Yield(x), Yield(y);
            && Expression(k + [t] + n) == Ok(InfixTree(Unary(u, Tree(x)), t, Tree(y)), [])
            && Expression(m + [t] + l) == Ok(InfixTree(Tree(x), t, Unary(u, Tree(y))), [])
            && Expression(k + [QuestionT] + n + [ColonT] + Yield(z)) ==
                 Ok(Cond(Unary(u, Tree(x)), Tree(y), Tree(z)), [])
            && Expression([IdT(v), AssignT] + k) == Ok(Assign(v, Unary(u, Tree(x))), [])
            && Expression([UnToken(u)] + k) == Ok(Unary(u, Unary(u, Tree(x))), [])
  {
    hide Precedence, Yield, Tree, Proper, InfixTree;
    AtomsAre([x, y, z]);
    assert [x, y, z][0] == x && [x, y, z][1] == y && [x, y, z][2] == z;
    Prefixes(u, x);
    Prefixes(u, y);
    InfixAny(Prefixing(u, x), t, y);
    InfixAny(x, t, Prefixing(u, y));
    Chosen(Prefixing(u, x), y, z);
    Assigned(v, Prefixing(u, x));
    Prefixes(u, Prefixing(u, x));
    ReadsForm(Prefixing(u, Prefixing(u, x)));
  }

  lemma {:induction false} Prefixes(u: UnOp, f: Form)
    requires Proper(f) && Level(f) >= UNARY
    ensures var g := Prefixing(u, f);
            Proper(g) && Level(g) == UNARY && Yield(g) == [UnToken(u)] + Yield(f) && Tree(g) == Unary(u, Tree(f))
  {
  }

  lemma {:induction false} InfixAny(x: Form, t: Token, y: Form)
    requires IsInfix(t) && Proper(x) && Proper(y) && Level(x) >= UNARY && Level(y) >= UNARY
    ensures Expression(Yield(x) + [t] + Yield(y)) == Ok(InfixTree(Tree(x), t, Tree(y)), [])
  {
    hide Precedence, Yield, Tree, Proper;
    LevelsOf(t);
    InfixedMade(x, t, y);
    ReadsForm(Infixed(x, t, y));
  }
}
