/** Expressions as they are written: which token lists are read as which trees, both ways. */
module Forms {
  import opened Syntax
  import opened Grammar

  /** A written expression: its tree and where its parentheses are. */
  datatype Form =
    | Leaf(t: Token)
    | Paren(f: Form)
    | Target(x: Name, f: Form)
    | Prefixing(u: UnOp, f: Form)
    | Infixed(l: Form, t: Token, r: Form)
    | Choice(c: Form, y: Form, n: Form)

  function UnToken(u: UnOp): Token {
    match u case Neg => Op(Sub) case Not => BangT case BitNot => TildeT
  }

  function Yield(f: Form): seq<Token> {
    match f
    case Leaf(t) => [t]
    case Paren(g) => [LParen] + Yield(g) + [RParen]
    case Target(x, g) => [IdT(x), AssignT] + Yield(g)
    case Prefixing(u, g) => [UnToken(u)] + Yield(g)
    case Infixed(l, t, r) => Yield(l) + [t] + Yield(r)
    case Choice(c, y, n) => Yield(c) + [QuestionT] + Yield(y) + [ColonT] + Yield(n)
  }

  predicate IsLeaf(t: Token) {
    t.NumT? || t.IdT? || t == TrueT || t == FalseT || t == NoneT
  }

  function LeafTree(t: Token): Expr {
    match t
    case NumT(n) => Int(n)
    case IdT(x) => Var(x)
    case TrueT => BoolLit(true)
    case FalseT => BoolLit(false)
    case _ => NoneLit
  }

  predicate IsInfix(t: Token) {
    t.Op? || t == AndT || t == OrT
  }

  function InfixTree(l: Expr, t: Token, r: Expr): Expr {
    match t
    case Op(op) => Binary(op, l, r)
    case AndT => And(l, r)
    case _ => Or(l, r)
  }

  function Tree(f: Form): Expr {
    match f
    case Leaf(t) => LeafTree(t)
    case Paren(g) => Tree(g)
    case Target(x, g) => Assign(x, Tree(g))
    case Prefixing(u, g) => Unary(u, Tree(g))
    case Infixed(l, t, r) => InfixTree(Tree(l), t, Tree(r))
    case Choice(c, y, n) => Cond(Tree(c), Tree(y), Tree(n))
  }

  predicate RightAssociative(op: BinOp) {
    RightLevel(op) == OpPrec(op)
  }

  function LeftLevel(op: BinOp): nat {
    if RightAssociative(op) then OpPrec(op) + 1 else OpPrec(op)
  }

  /** The level that the form before a token must bind at. */
  function OperandLevel(t: Token): nat {
    match t
    case Op(op) => LeftLevel(op)
    case AndT => AND + 1
    case OrT => OR + 1
    case _ => CONDITIONAL + 1
  }

  /** The level an infix handler reads its last operand at. */
  function LastLevel(t: Token): nat {
    match t
    case Op(op) => RightLevel(op)
    case AndT => AND
    case OrT => OR
    case _ => ASSIGN
  }

  /** The level a form binds at. */
  function Level(f: Form): nat {
    match f
    case Leaf(_) => ATOM
    case Paren(_) => ATOM
    case Target(_, _) => ASSIGN
    case Prefixing(_, _) => UNARY
    case Infixed(_, t, _) => Prec(t)
    case Choice(_, _, _) => CONDITIONAL
  }

  /** Every operand binds at its place, or is in parentheses. */
  predicate Proper(f: Form) {
    match f
    case Leaf(t) => IsLeaf(t)
    case Paren(g) => Proper(g)
    case Target(_, g) => Proper(g)
    case Prefixing(_, g) => Proper(g) && Level(g) >= UNARY
    case Infixed(l, t, r) =>
      IsInfix(t) && Proper(l) && Proper(r) && Level(l) >= OperandLevel(t) && Level(r) >= LastLevel(t)
    case Choice(c, y, n) => Proper(c) && Proper(y) && Proper(n) && Level(c) >= CONDITIONAL + 1
  }

  /** The lowest level of the operand loops still open at a form's right edge. */
  function EndLevel(f: Form): nat {
    match f
    case Leaf(_) => ATOM + 1
    case Paren(_) => ATOM + 1
    case Target(_, _) => ASSIGN
    case Prefixing(_, _) => UNARY
    case Infixed(_, t, _) => LastLevel(t)
    case Choice(_, _, _) => ASSIGN
  }

  /** What follows neither continues an operand loop at the level nor turns a variable into a target. */
  ghost predicate Stops(rest: seq<Token>, level: nat) {
    rest == [] || (Prec(rest[0]) < level && rest[0] != AssignT)
  }

  lemma {:induction false} LevelsOf(t: Token)
    requires IsInfix(t) || t == QuestionT
    ensures ASSIGN <= Prec(t) <= OperandLevel(t) <= UNARY
    ensures ASSIGN <= LastLevel(t) <= UNARY && LastLevel(t) <= Prec(t) + 1
  {
  }

  lemma {:induction false} FormLevel(f: Form)
    requires Proper(f)
    ensures ASSIGN <= Level(f)
  {
    if f.Infixed? { LevelsOf(f.t); }
  }

  /** A form at an operator's left is over when the operator comes. */
  lemma {:induction false} OperandEnds(l: Form, t: Token, ts: seq<Token>)
    requires (IsInfix(t) || t == QuestionT) && Proper(l) && Level(l) >= OperandLevel(t) && Starts(ts, t)
    ensures Stops(ts, EndLevel(l))
  {
  }

  lemma {:induction false} StopsHere(level: nat, e: Expr, ts: seq<Token>)
    requires ts == [] || Prec(ts[0]) < level
    ensures Infixes(level, e, ts) == Ok(e, ts)
  {
  }

  lemma {:induction false} PrecedenceIs(level: nat, ts: seq<Token>, e: Expr, rest: seq<Token>)
    requires Prefix(level <= ASSIGN, ts) == Ok(e, rest)
    ensures Precedence(level, ts) == Finish(level, Infixes(level, e, rest))
  {
    hide Prefix, Infixes;
  }

  /** What reading a form at a level comes to. */
  ghost predicate ReadAs(level: nat, ts: seq<Token>, e: Expr, rest: seq<Token>) {
    Precedence(level, ts) == Finish(level, Infixes(level, e, rest))
  }

  /** A form met at any level that lets it in is read whole, and parsing goes on after it as if its tree had been the
      left operand. */
  lemma {:induction false} Reads(f: Form, level: nat, rest: seq<Token>)
    requires Proper(f) && ASSIGN <= level <= Level(f) && Stops(rest, EndLevel(f))
    ensures ReadAs(level, Yield(f) + rest, Tree(f), rest)
    decreases f, 1
  {
    hide Infixes, Precedence, ReadAs;
    match f
    case Leaf(t) => ReadsLeaf(t, level, rest);
    case Paren(g) =>
      FormLevel(g);
      ReadsWhole(g, ASSIGN, [RParen] + rest);
      ReadsParen(Yield(g), Tree(g), level, rest);
    case Target(x, g) =>
      FormLevel(g);
      ReadsWhole(g, ASSIGN, rest);
      ReadsTarget(x, Tree(g), Yield(g), rest);
    case Prefixing(u, g) =>
      ReadsWhole(g, UNARY, rest);
      ReadsPrefixing(u, Tree(g), level, Yield(g), rest);
    case Infixed(l, t, r) => ReadsInfixed(l, t, r, level, rest);
    case Choice(c, y, n) => ReadsChoice(c, y, n, level, rest);
  }

  /** At its own level or below, a form that nothing continues is all that is read. */
  lemma {:induction false} ReadsWhole(f: Form, level: nat, rest: seq<Token>)
    requires Proper(f) && ASSIGN <= level <= Level(f) && Stops(rest, level)
    ensures Precedence(level, Yield(f) + rest) == Ok(Tree(f), rest)
    decreases f, 2
  {
    hide Infixes, Precedence, Prec;
    StopsLower(f, level, rest);
    Reads(f, level, rest);
    StopsHere(level, Tree(f), rest);
  }

  lemma {:induction false} StopsLower(f: Form, level: nat, rest: seq<Token>)
    requires Proper(f) && level <= Level(f) && Stops(rest, level)
    ensures Stops(rest, EndLevel(f))
  {
  }

  lemma {:induction false} ReadsParen(shown: seq<Token>, e: Expr, level: nat, rest: seq<Token>)
    requires Precedence(ASSIGN, shown + ([RParen] + rest)) == Ok(e, [RParen] + rest)
    ensures ReadAs(level, [LParen] + shown + [RParen] + rest, e, rest)
  {
    hide Infixes, Precedence, Finish;
    var ts := [LParen] + shown + [RParen] + rest;
    assert ts[1..] == shown + ([RParen] + rest);
    assert Expect(Precedence(ASSIGN, ts[1..]), RParen) == Ok(e, rest);
    PrecedenceIs(level, ts, e, rest);
  }

  lemma {:induction false} ReadsTarget(x: Name, e: Expr, shown: seq<Token>, rest: seq<Token>)
    requires Precedence(ASSIGN, shown + rest) == Ok(e, rest)
    ensures ReadAs(ASSIGN, [IdT(x), AssignT] + shown + rest, Assign(x, e), rest)
  {
    hide Infixes, Precedence, Finish;
    var ts := [IdT(x), AssignT] + shown + rest;
    assert ts[1..] == [AssignT] + shown + rest;
    assert ts[2..] == shown + rest;
    PrecedenceIs(ASSIGN, ts, Assign(x, e), rest);
  }

  lemma {:induction false} ReadsPrefixing(u: UnOp, e: Expr, level: nat, shown: seq<Token>, rest: seq<Token>)
    requires Precedence(UNARY, shown + rest) == Ok(e, rest)
    ensures ReadAs(level, [UnToken(u)] + shown + rest, Unary(u, e), rest)
  {
    hide Infixes, Precedence, Finish;
    var ts := [UnToken(u)] + shown + rest;
    assert ts[1..] == shown + rest;
    PrecedenceIs(level, ts, Unary(u, e), rest);
  }

  lemma {:induction false} ReadsLeaf(t: Token, level: nat, rest: seq<Token>)
    requires IsLeaf(t) && (rest == [] || rest[0] != AssignT)
    ensures ReadAs(level, [t] + rest, LeafTree(t), rest)
  {
    hide Infixes, Precedence, Finish;
    var ts := [t] + rest;
    assert ts[1..] == rest;
    PrecedenceIs(level, ts, LeafTree(t), rest);
  }

  lemma {:induction false} InfixGoesOn(level: nat, l: Expr, ts: seq<Token>, e: Expr, rest: seq<Token>)
    requires ts != [] && Prec(ts[0]) >= level && Infix(l, ts) == Ok(e, rest)
    ensures Infixes(level, l, ts) == Infixes(level, e, rest)
  {
  }

  /** The left operand, then whatever the operator's handler makes of it. */
  lemma {:induction false} ReadsLeft(l: Form, t: Token, level: nat, e: Expr, ts: seq<Token>, rest: seq<Token>)
    requires (IsInfix(t) || t == QuestionT) && Proper(l) && Level(l) >= OperandLevel(t)
    requires Starts(ts, t) && ASSIGN <= level <= Prec(t) && Infix(Tree(l), ts) == Ok(e, rest)
    ensures ReadAs(level, Yield(l) + ts, e, rest)
    decreases l, 2
  {
    hide Infixes, Precedence, Infix, Finish;
    OperandEnds(l, t, ts);
    LevelsOf(t);
    Reads(l, level, ts);
    InfixGoesOn(level, Tree(l), ts, e, rest);
  }

  lemma {:induction false} InfixIs(l: Expr, t: Token, r: Expr, ts: seq<Token>, rest: seq<Token>)
    requires IsInfix(t) && Starts(ts, t) && Precedence(LastLevel(t), ts[1..]) == Ok(r, rest)
    ensures Infix(l, ts) == Ok(InfixTree(l, t, r), rest)
  {
    hide Precedence;
  }

  lemma {:induction false} InfixedParts(l: Form, t: Token, r: Form)
    requires Proper(Infixed(l, t, r))
    ensures IsInfix(t) && Proper(l) && Proper(r) && Level(l) >= OperandLevel(t) && Level(r) >= LastLevel(t)
    ensures Yield(Infixed(l, t, r)) == Yield(l) + [t] + Yield(r)
  {
  }

  lemma {:induction false} ChoiceParts(c: Form, y: Form, n: Form)
    requires Proper(Choice(c, y, n))
    ensures Proper(c) && Proper(y) && Proper(n) && Level(c) >= OperandLevel(QuestionT)
    ensures Yield(Choice(c, y, n)) == Yield(c) + [QuestionT] + Yield(y) + [ColonT] + Yield(n)
    ensures Prec(QuestionT) == CONDITIONAL && Prec(ColonT) == 0
  {
  }

  lemma {:induction false} ReadsInfixed(l: Form, t: Token, r: Form, level: nat, rest: seq<Token>)
    requires Proper(Infixed(l, t, r)) && ASSIGN <= level <= Prec(t) && Stops(rest, LastLevel(t))
    ensures ReadAs(level, Yield(Infixed(l, t, r)) + rest, InfixTree(Tree(l), t, Tree(r)), rest)
    decreases Infixed(l, t, r), 0
  {
    InfixedParts(l, t, r);
    LevelsOf(t);
    hide *;
    var ts := [t] + Yield(r) + rest;
    AfterHead(t, Yield(r), rest);
    ReadsWhole(r, LastLevel(t), rest);
    InfixIs(Tree(l), t, Tree(r), ts, rest);
    ReadsLeft(l, t, level, InfixTree(Tree(l), t, Tree(r)), ts, rest);
    Regroup(Yield(l), [t], Yield(r), rest);
  }

  lemma {:induction false} AfterHead(t: Token, shown: seq<Token>, rest: seq<Token>)
    ensures ([t] + shown + rest)[1..] == shown + rest && Starts([t] + shown + rest, t)
  {
  }

  lemma {:induction false} Regroup(a: seq<Token>, b: seq<Token>, c: seq<Token>, d: seq<Token>)
    ensures a + b + c + d == a + (b + c + d)
  {
  }

  lemma {:induction false} ReadsChoice(c: Form, y: Form, n: Form, level: nat, rest: seq<Token>)
    requires Proper(Choice(c, y, n)) && ASSIGN <= level <= CONDITIONAL && Stops(rest, ASSIGN)
    ensures ReadAs(level, Yield(Choice(c, y, n)) + rest, Cond(Tree(c), Tree(y), Tree(n)), rest)
    decreases Choice(c, y, n), 0
  {
    ChoiceParts(c, y, n);
    FormLevel(y);
    FormLevel(n);
    var t2 := [ColonT] + Yield(n) + rest;
    assert Stops(t2, ASSIGN);
    hide *;
    var t1 := [QuestionT] + Yield(y) + t2;
    AfterHead(QuestionT, Yield(y), t2);
    AfterHead(ColonT, Yield(n), rest);
    ReadsWhole(y, ASSIGN, t2);
    ReadsWhole(n, ASSIGN, rest);
    InfixChoice(Tree(c), Tree(y), Tree(n), t1, t2, rest);
    ReadsLeft(c, QuestionT, level, Cond(Tree(c), Tree(y), Tree(n)), t1, rest);
    ChoiceText(Yield(c), Yield(y), Yield(n), rest);
  }

  lemma {:induction false} ChoiceText(c: seq<Token>, y: seq<Token>, n: seq<Token>, rest: seq<Token>)
    ensures c + [QuestionT] + y + [ColonT] + n + rest == c + ([QuestionT] + y + ([ColonT] + n + rest))
  {
  }

  lemma {:induction false} InfixChoice(c: Expr, y: Expr, n: Expr, ts: seq<Token>, mid: seq<Token>, rest: seq<Token>)
    requires Starts(ts, QuestionT) && Precedence(ASSIGN, ts[1..]) == Ok(y, mid)
    requires Starts(mid, ColonT) && Precedence(ASSIGN, mid[1..]) == Ok(n, rest)
    ensures Infix(c, ts) == Ok(Cond(c, y, n), rest)
  {
    hide Precedence;
  }

  /** The form read so far binds at the level, and as the operand of what follows. */
  ghost predicate Enough(f: Form, e: Expr, level: nat, rest: seq<Token>) {
    && Proper(f) && Tree(f) == e && Level(f) >= level
    && (rest != [] && (IsInfix(rest[0]) || rest[0] == QuestionT) && Prec(rest[0]) >= level ==>
          Level(f) >= OperandLevel(rest[0]))
  }

  /** What is left after a level: nothing that binds at it, and no '=' where assignment was allowed. */
  ghost predicate Over(level: nat, rest: seq<Token>) {
    rest == [] || (Prec(rest[0]) < level && (level <= ASSIGN ==> rest[0] != AssignT))
  }

  /** Whatever is read at a level is a form of it. */
  lemma {:induction false} FormOf(level: nat, ts: seq<Token>) returns (f: Form)
    requires ASSIGN <= level <= UNARY && Precedence(level, ts).Ok?
    ensures var r := Precedence(level, ts);
            ts == Yield(f) + r.rest && Proper(f) && Tree(f) == r.value && Level(f) >= level && Over(level, r.rest)
    decreases |ts|, 3
  {
    hide Infixes, Prefix, Yield, Tree, Proper, Level;
    var left := Prefix(level <= ASSIGN, ts);
    var front := PrefixForm(level, ts);
    f := InfixesForm(level, left.value, left.rest, front);
  }

  lemma {:induction false} InfixesForm(level: nat, left: Expr, ts: seq<Token>, front: Form) returns (f: Form)
    requires ASSIGN <= level <= UNARY && Infixes(level, left, ts).Ok? && Enough(front, left, level, ts)
    ensures var r := Infixes(level, left, ts);
            && Yield(front) + ts == Yield(f) + r.rest && Proper(f) && Tree(f) == r.value && Level(f) >= level
            && (r.rest == [] || Prec(r.rest[0]) < level)
    decreases |ts|, 2
  {
    hide Infix, Yield, Tree, Proper, Level;
    if ts == [] || Prec(ts[0]) < level {
      f := front;
    } else {
      var r := Infix(left, ts);
      var more := InfixForm(level, left, ts, front);
      f := InfixesForm(level, r.value, r.rest, more);
    }
  }

  lemma {:induction false} PrefixForm(level: nat, ts: seq<Token>) returns (f: Form)
    requires ASSIGN <= level <= UNARY && Prefix(level <= ASSIGN, ts).Ok?
    ensures var r := Prefix(level <= ASSIGN, ts); ts == Yield(f) + r.rest && Enough(f, r.value, level, r.rest)
    decreases |ts|, 1
  {
    hide Precedence, Prec, OperandLevel, Yield, Tree, Proper, Level, Enough;
    var t := ts[0];
    if t == LParen {
      f := ParenForm(level, ts);
    } else if t == BangT || t == TildeT || t.Op? {
      f := PrefixingForm(if t == BangT then Not else if t == TildeT then BitNot else Neg, level, ts);
    } else if t.IdT? && level <= ASSIGN && Starts(ts[1..], AssignT) {
      f := TargetForm(level, ts);
    } else {
      f := Leaf(t);
      ProperHead(f);
      Heads(f, level, ts[1..]);
      assert ts == [t] + ts[1..];
    }
  }

  lemma {:induction false} ParenForm(level: nat, ts: seq<Token>) returns (f: Form)
    requires ASSIGN <= level <= UNARY && Starts(ts, LParen) && Prefix(level <= ASSIGN, ts).Ok?
    ensures var r := Prefix(level <= ASSIGN, ts); ts == Yield(f) + r.rest && Enough(f, r.value, level, r.rest)
    decreases |ts|, 0
  {
    hide Precedence, Prec, OperandLevel, Yield, Tree, Proper, Level, Enough;
    var g := FormOf(ASSIGN, ts[1..]);
    f := Paren(g);
    ProperHead(f);
    var rest := Precedence(ASSIGN, ts[1..]).rest;
    Heads(f, level, rest[1..]);
    assert ts == [LParen] + (Yield(g) + ([RParen] + rest[1..]));
    Regroup([LParen], Yield(g), [RParen], rest[1..]);
  }

  lemma {:induction false} PrefixingForm(u: UnOp, level: nat, ts: seq<Token>) returns (f: Form)
    requires ASSIGN <= level <= UNARY && Starts(ts, UnToken(u)) && Prefixed(u, ts[1..]).Ok?
    ensures var r := Prefixed(u, ts[1..]); ts == Yield(f) + r.rest && Enough(f, r.value, level, r.rest)
    decreases |ts|, 0
  {
    hide Precedence, Prec, OperandLevel, Yield, Tree, Proper, Level, Enough, UnToken;
    var g := FormOf(UNARY, ts[1..]);
    f := Prefixing(u, g);
    ProperHead(f);
    Heads(f, level, Precedence(UNARY, ts[1..]).rest);
    assert ts == [UnToken(u)] + ts[1..];
  }

  lemma {:induction false} TargetForm(level: nat, ts: seq<Token>) returns (f: Form)
    requires level == ASSIGN && ts != [] && ts[0].IdT? && Starts(ts[1..], AssignT) && Prefix(true, ts).Ok?
    ensures var r := Prefix(true, ts); ts == Yield(f) + r.rest && Enough(f, r.value, level, r.rest)
    decreases |ts|, 0
  {
    hide Precedence, Prec, OperandLevel, Yield, Tree, Proper, Level, Enough;
    var g := FormOf(ASSIGN, ts[2..]);
    f := Target(ts[0].x, g);
    ProperHead(f);
    Heads(f, level, Precedence(ASSIGN, ts[2..]).rest);
    assert ts == [ts[0], AssignT] + ts[2..];
  }

  lemma {:induction false} ProperHead(f: Form)
    ensures f.Leaf? && IsLeaf(f.t) ==> Proper(f)
    ensures (f.Paren? || f.Target?) && Proper(f.f) ==> Proper(f)
    ensures f.Prefixing? && Proper(f.f) && Level(f.f) >= UNARY ==> Proper(f)
  {
  }

  /** Forms that begin an expression bind tightly enough for any level, or, as targets do, leave nothing that binds. */
  lemma {:induction false} Heads(f: Form, level: nat, rest: seq<Token>)
    requires ASSIGN <= level <= UNARY
    requires !f.Infixed? && !f.Choice? && Proper(f) && (f.Target? ==> level <= ASSIGN && Over(ASSIGN, rest))
    ensures Enough(f, Tree(f), level, rest)
    ensures f.Leaf? ==> Yield(f) == [f.t] && Tree(f) == LeafTree(f.t)
    ensures f.Paren? ==> Yield(f) == [LParen] + Yield(f.f) + [RParen] && Tree(f) == Tree(f.f)
    ensures f.Prefixing? ==> Yield(f) == [UnToken(f.u)] + Yield(f.f) && Tree(f) == Unary(f.u, Tree(f.f))
    ensures f.Target? ==> Yield(f) == [IdT(f.x), AssignT] + Yield(f.f) && Tree(f) == Assign(f.x, Tree(f.f))
  {
    if rest != [] && (IsInfix(rest[0]) || rest[0] == QuestionT) { LevelsOf(rest[0]); }
  }

  lemma {:induction false} InfixForm(level: nat, left: Expr, ts: seq<Token>, front: Form) returns (f: Form)
    requires ASSIGN <= level <= UNARY && ts != [] && Prec(ts[0]) >= level && Infix(left, ts).Ok?
    requires Enough(front, left, level, ts)
    ensures var r := Infix(left, ts); Yield(front) + ts == Yield(f) + r.rest && Enough(f, r.value, level, r.rest)
    decreases |ts|, 1
  {
    hide Precedence, OperandLevel, LastLevel, Prec, Yield, Tree, Proper, Level;
    if ts[0] == QuestionT {
      f := ChoiceForm(level, left, ts, front);
    } else {
      var t := ts[0];
      InfixReads(left, ts);
      LevelsOf(t);
      var m := Precedence(LastLevel(t), ts[1..]);
      var last := FormOf(LastLevel(t), ts[1..]);
      f := Infixed(front, t, last);
      InfixedMade(front, t, last);
      InfixedEnough(f, level, m.rest);
    }
  }

  lemma {:induction false} ChoiceForm(level: nat, left: Expr, ts: seq<Token>, front: Form) returns (f: Form)
    requires ASSIGN <= level <= UNARY && Starts(ts, QuestionT) && Prec(QuestionT) >= level && Infix(left, ts).Ok?
    requires Enough(front, left, level, ts)
    ensures var r := Infix(left, ts); Yield(front) + ts == Yield(f) + r.rest && Enough(f, r.value, level, r.rest)
    decreases |ts|, 0
  {
    hide Precedence, Yield, Tree, Proper, Level;
    var m := Precedence(ASSIGN, ts[1..]);
    var y := FormOf(ASSIGN, ts[1..]);
    var n := FormOf(ASSIGN, m.rest[1..]);
    f := Choice(front, y, n);
    ChoiceMade(front, y, n);
    ChoiceEnough(f, level, Infix(left, ts).rest);
    assert ts == [QuestionT] + Yield(y) + [ColonT] + Yield(n) + Infix(left, ts).rest;
  }

  lemma {:induction false} InfixedMade(l: Form, t: Token, r: Form)
    requires IsInfix(t) && Proper(l) && Proper(r) && Level(l) >= OperandLevel(t) && Level(r) >= LastLevel(t)
    ensures Proper(Infixed(l, t, r)) && Tree(Infixed(l, t, r)) == InfixTree(Tree(l), t, Tree(r))
    ensures Yield(Infixed(l, t, r)) == Yield(l) + [t] + Yield(r)
  {
  }

  lemma {:induction false} ChoiceMade(c: Form, y: Form, n: Form)
    requires Proper(c) && Proper(y) && Proper(n) && Level(c) >= OperandLevel(QuestionT)
    ensures Proper(Choice(c, y, n)) && Tree(Choice(c, y, n)) == Cond(Tree(c), Tree(y), Tree(n))
    ensures Yield(Choice(c, y, n)) == Yield(c) + [QuestionT] + Yield(y) + [ColonT] + Yield(n)
  {
  }

  lemma {:induction false} InfixReads(left: Expr, ts: seq<Token>)
    requires ts != [] && ts[0] != QuestionT && Infix(left, ts).Ok?
    ensures var m := Precedence(LastLevel(ts[0]), ts[1..]);
            IsInfix(ts[0]) && m.Ok? && Infix(left, ts) == Ok(InfixTree(left, ts[0], m.value), m.rest)
  {
    hide Precedence;
  }

  /** What may follow an operator's last operand takes the whole as its own operand without parentheses. */
  lemma {:induction false} NextBelow(t: Token, next: Token)
    requires (IsInfix(t) || t == QuestionT) && (IsInfix(next) || next == QuestionT) && Prec(next) < LastLevel(t)
    ensures OperandLevel(next) <= Prec(t)
  {
  }

  lemma {:induction false} InfixedEnough(f: Form, level: nat, rest: seq<Token>)
    requires f.Infixed? && Proper(f) && level <= Prec(f.t) && Over(LastLevel(f.t), rest)
    ensures Enough(f, Tree(f), level, rest)
  {
    hide Proper, Tree;
    assert IsInfix(f.t) by { ProperInfix(f); }
    if rest != [] && (IsInfix(rest[0]) || rest[0] == QuestionT) { NextBelow(f.t, rest[0]); }
  }

  lemma {:induction false} ProperInfix(f: Form)
    requires f.Infixed? && Proper(f)
    ensures IsInfix(f.t)
  {
  }

  lemma {:induction false} ChoiceEnough(f: Form, level: nat, rest: seq<Token>)
    requires f.Choice? && Proper(f) && ASSIGN <= level <= CONDITIONAL && Over(ASSIGN, rest)
    ensures Enough(f, Tree(f), level, rest)
  {
  }

  /** The parser reads an expression off the front of a text exactly if the text begins with a proper form of it, and
      what comes next does not go on with it. */
  lemma {:induction false} ExpressionIs(ts: seq<Token>, e: Expr, rest: seq<Token>)
    ensures Expression(ts) == Ok(e, rest) <==>
              Over(ASSIGN, rest) && exists f :: Proper(f) && Tree(f) == e && ts == Yield(f) + rest
  {
    hide Precedence, Proper, Tree, Yield;
    if Expression(ts) == Ok(e, rest) {
      var f := FormOf(ASSIGN, ts);
    }
    if Over(ASSIGN, rest) && exists f :: Proper(f) && Tree(f) == e && ts == Yield(f) + rest {
      var f :| Proper(f) && Tree(f) == e && ts == Yield(f) + rest;
      FormLevel(f);
      ReadsWhole(f, ASSIGN, rest);
    }
  }
}
