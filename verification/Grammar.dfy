/** The grammar the parser accepts, as functions from tokens to trees; Failure stands for any reported parse error. */
module Grammar {
  import opened Base
  import opened Syntax

  datatype Parsed<+T> = Ok(value: T, rest: seq<Token>) | Failure

  const ASSIGN: nat := 1
  const CONDITIONAL: nat := 2
  const OR: nat := 3
  const AND: nat := 4
  const UNARY: nat := 13
  const CALL: nat := 14
  const ATOM: nat := 16

  function OpPrec(op: BinOp): nat {
    match op
    case BitOr => 5
    case BitXor => 6
    case BitAnd => 7
    case Eq => 8 case Neq => 8
    case Lt => 9 case Le => 9 case Gt => 9 case Ge => 9
    case Shl => 10 case Shr => 10
    case Add => 11 case Sub => 11
    case Mul => 12 case Div => 12 case Mod => 12
  }

  /** The rule table's infix column. A call and a misplaced '!' or '~' bind but have no handler in this subset. */
  function Prec(t: Token): nat {
    match t
    case Op(op) => OpPrec(op)
    case AndT => AND
    case OrT => OR
    case QuestionT => CONDITIONAL
    case BangT => UNARY
    case TildeT => UNARY
    case LParen => CALL
    case _ => 0
  }

  /** The level at which the handler parses the right operand: its own level for the bitwise and shift handlers. */
  function RightLevel(op: BinOp): nat {
    if op in {BitAnd, BitOr, BitXor, Shl, Shr} then OpPrec(op) else OpPrec(op) + 1
  }

  predicate Starts(ts: seq<Token>, t: Token) {
    ts != [] && ts[0] == t
  }

  function Expect<T>(r: Parsed<T>, t: Token): (q: Parsed<T>)
    ensures q.Ok? ==> r.Ok? && q.value == r.value && Starts(r.rest, t) && q.rest == r.rest[1..]
  {
    if r.Ok? && Starts(r.rest, t) then Ok(r.value, r.rest[1..]) else Failure
  }

  /** parse_precedence: a prefix form, then infix forms that bind at least as tightly as the level. */
  function Precedence(level: nat, ts: seq<Token>): (r: Parsed<Expr>)
    ensures r.Ok? ==> |r.rest| < |ts|
    decreases |ts|, 2
  {
    var left := Prefix(level <= ASSIGN, ts);
    if left.Failure? then Failure else Finish(level, Infixes(level, left.value, left.rest))
  }

  /** An '=' left over where assignment was allowed is an error. */
  function Finish(level: nat, r: Parsed<Expr>): Parsed<Expr> {
    if r.Ok? && level <= ASSIGN && Starts(r.rest, AssignT) then Failure else r
  }

  function Prefix(canAssign: bool, ts: seq<Token>): (r: Parsed<Expr>)
    ensures r.Ok? ==> |r.rest| < |ts|
    decreases |ts|, 1
  {
    if ts == [] then Failure
    else
      match ts[0]
      case NumT(n) => Ok(Int(n), ts[1..])
      case TrueT => Ok(BoolLit(true), ts[1..])
      case FalseT => Ok(BoolLit(false), ts[1..])
      case NoneT => Ok(NoneLit, ts[1..])
      case IdT(x) =>
        if canAssign && Starts(ts[1..], AssignT) then
          var r := Precedence(ASSIGN, ts[2..]);
          if r.Ok? then Ok(Assign(x, r.value), r.rest) else Failure
        else Ok(Var(x), ts[1..])
      case BangT => Prefixed(Not, ts[1..])
      case TildeT => Prefixed(BitNot, ts[1..])
      case LParen => Expect(Precedence(ASSIGN, ts[1..]), RParen)
      case Op(op) => if op == Sub then Prefixed(Neg, ts[1..]) else Failure
      case _ => Failure
  }

  function Prefixed(u: UnOp, ts: seq<Token>): (r: Parsed<Expr>)
    ensures r.Ok? ==> |r.rest| < |ts|
    decreases |ts|, 3
  {
    var r := Precedence(UNARY, ts);
    if r.Ok? then Ok(Unary(u, r.value), r.rest) else Failure
  }

  function Infixes(level: nat, left: Expr, ts: seq<Token>): (r: Parsed<Expr>)
    ensures r.Ok? ==> |r.rest| <= |ts|
    decreases |ts|, 1
  {
    if ts == [] || Prec(ts[0]) < level then Ok(left, ts)
    else
      var r := Infix(left, ts);
      if r.Failure? then Failure else Infixes(level, r.value, r.rest)
  }

  function Infix(left: Expr, ts: seq<Token>): (r: Parsed<Expr>)
    requires ts != []
    ensures r.Ok? ==> |r.rest| < |ts|
    decreases |ts|, 0
  {
    match ts[0]
    case Op(op) =>
      var r := Precedence(RightLevel(op), ts[1..]);
      if r.Ok? then Ok(Binary(op, left, r.value), r.rest) else Failure
    case AndT =>
      var r := Precedence(AND, ts[1..]);
      if r.Ok? then Ok(And(left, r.value), r.rest) else Failure
    case OrT =>
      var r := Precedence(OR, ts[1..]);
      if r.Ok? then Ok(Or(left, r.value), r.rest) else Failure
    case QuestionT =>
      var t := Expect(Precedence(ASSIGN, ts[1..]), ColonT);
      if t.Failure? then Failure
      else
        var f := Precedence(ASSIGN, t.rest);
        if f.Ok? then Ok(Cond(left, t.value, f.value), f.rest) else Failure
    case _ => Failure
  }

  function Expression(ts: seq<Token>): (r: Parsed<Expr>)
    ensures r.Ok? ==> |r.rest| < |ts|
  {
    Precedence(ASSIGN, ts)
  }

  /** The head of if, while and match: an expression, in parentheses when it starts with one. */
  function Condition(ts: seq<Token>): (r: Parsed<Expr>)
    ensures r.Ok? ==> |r.rest| < |ts|
  {
    if Starts(ts, LParen) then Expect(Expression(ts[1..]), RParen) else Expression(ts)
  }

  function SkipOne(ts: seq<Token>, t: Token): (r: seq<Token>)
    ensures |r| <= |ts|
  {
    if Starts(ts, t) then ts[1..] else ts
  }

  function ExprStatement(ts: seq<Token>): (r: Parsed<Stmt>)
    ensures r.Ok? ==> |r.rest| < |ts|
  {
    var e := Expression(ts);
    if e.Ok? then Ok(ExprS(e.value), SkipOne(e.rest, Semi)) else Failure
  }

  function Statement(ts: seq<Token>): (r: Parsed<Stmt>)
    ensures r.Ok? ==> |r.rest| < |ts|
    decreases |ts|, 2
  {
    if ts == [] then Failure
    else
      match ts[0]
      case ForT => For(ts[1..])
      case IfT => IfStatement(ts[1..])
      case BreakT => Expect(Ok(Break, ts[1..]), Semi)
      case ContinueT => Expect(Ok(Continue, ts[1..]), Semi)
      case MatchT => MatchStatement(ts[1..])
      case WhileT =>
        var c := Condition(ts[1..]);
        if c.Failure? then Failure
        else
          var b := Statement(c.rest);
          if b.Ok? then Ok(While(c.value, b.value), b.rest) else Failure
      case LoopT =>
        var b := Statement(ts[1..]);
        if b.Ok? then Ok(Loop(b.value), b.rest) else Failure
      case LBrace =>
        var ds := BlockItems(ts[1..]);
        if ds.Ok? then Ok(Block(ds.value), ds.rest) else Failure
      case _ => ExprStatement(ts)
  }

  function IfStatement(ts: seq<Token>): (r: Parsed<Stmt>)
    ensures r.Ok? ==> |r.rest| < |ts|
    decreases |ts|, 3
  {
    var c := Condition(ts);
    if c.Failure? then Failure
    else
      var t := Statement(c.rest);
      if t.Failure? then Failure
      else if Starts(t.rest, ElseT) then
        var f := Statement(t.rest[1..]);
        if f.Ok? then Ok(If(c.value, t.value, f.value), f.rest) else Failure
      else Ok(If(c.value, t.value, Block(End)), t.rest)
  }

  /** A whole script: statements up to the end. A `var` out here would declare a global, which is no local. */
  function Script(ts: seq<Token>): (r: Parsed<Decls>)
    ensures r.Ok? ==> r.rest == []
    decreases |ts|
  {
    if ts == [] then Ok(End, [])
    else
      var s := Statement(ts);
      if s.Failure? then Failure
      else
        var rest := Script(s.rest);
        if rest.Ok? then Ok(StmtD(s.value, rest.value), []) else Failure
  }

  /** Declarations and statements up to and including the closing brace. */
  function BlockItems(ts: seq<Token>): (r: Parsed<Decls>)
    ensures r.Ok? ==> |r.rest| < |ts|
    decreases |ts|, 3
  {
    if ts == [] then Failure
    else if ts[0] == RBrace then Ok(End, ts[1..])
    else if ts[0] == VarT then Vars(ts[1..], false)
    else
      var s := Statement(ts);
      if s.Failure? then Failure
      else
        var rest := BlockItems(s.rest);
        if rest.Ok? then Ok(StmtD(s.value, rest.value), rest.rest) else Failure
  }

  /** One or more declarators, then ';' and the rest of the block or of the `for` header. */
  function Vars(ts: seq<Token>, inFor: bool): (r: Parsed<Decls>)
    ensures r.Ok? ==> |r.rest| < |ts|
    decreases |ts|, 1
  {
    if ts == [] || !ts[0].IdT? then Failure
    else
      var e := if Starts(ts[1..], AssignT) then Expression(ts[2..]) else Ok(NoneLit, ts[1..]);
      if e.Failure? || e.rest == [] then Failure
      else
        var rest := if e.rest[0] == Comma then Vars(e.rest[1..], inFor)
                    else if e.rest[0] != Semi then Failure
                    else if inFor then ForRest(e.rest[1..])
                    else BlockItems(e.rest[1..]);
        if rest.Ok? then Ok(VarD(ts[0].x, e.value, rest.value), rest.rest) else Failure
  }

  /** A `for` is a scope holding its initialiser and then the loop. */
  function For(ts: seq<Token>): (r: Parsed<Stmt>)
    ensures r.Ok? ==> |r.rest| < |ts|
    decreases |ts|, 3
  {
    if !Starts(ts, LParen) then Failure
    else
      var ds := ForInit(ts[1..]);
      if ds.Ok? then Ok(Block(ds.value), ds.rest) else Failure
  }

  function ForInit(ts: seq<Token>): (r: Parsed<Decls>)
    ensures r.Ok? ==> |r.rest| < |ts|
    decreases |ts|, 2
  {
    if Starts(ts, Semi) then ForRest(ts[1..])
    else if Starts(ts, VarT) then Vars(ts[1..], true)
    else
      var s := ExprStatement(ts);
      if s.Failure? then Failure
      else
        var rest := ForRest(s.rest);
        if rest.Ok? then Ok(StmtD(s.value, rest.value), rest.rest) else Failure
  }

  /** Optional condition, then the increment; a header without an increment is outside the subset. */
  function ForRest(ts: seq<Token>): (r: Parsed<Decls>)
    ensures r.Ok? ==> |r.rest| < |ts|
    decreases |ts|, 1
  {
    var c := if Starts(ts, Semi) then Ok(None, ts[1..])
             else
               var e := Expect(Expression(ts), Semi);
               if e.Ok? then Ok(Some(e.value), e.rest) else Failure;
    if c.Failure? || Starts(c.rest, RParen) then Failure
    else
      var i := Expect(Expression(c.rest), RParen);
      if i.Failure? then Failure
      else
        var b := Statement(i.rest);
        if b.Ok? then Ok(StmtD(ForLoop(c.value, i.value, b.value), End), b.rest) else Failure
  }

  function MatchStatement(ts: seq<Token>): (r: Parsed<Stmt>)
    ensures r.Ok? ==> |r.rest| < |ts|
    decreases |ts|, 3
  {
    var e := Expect(Condition(ts), LBrace);
    if e.Failure? then Failure
    else
      var arms := MatchArms(e.rest);
      if arms.Ok? then Ok(Match(e.value, arms.value), arms.rest) else Failure
  }

  /** Arms up to and including the closing brace; nothing may follow the default arm. */
  function MatchArms(ts: seq<Token>): (r: Parsed<Arms>)
    ensures r.Ok? ==> |r.rest| < |ts|
    decreases |ts|, 3
  {
    if ts == [] then Failure
    else if ts[0] == RBrace then Ok(NoMore, ts[1..])
    else if ts[0] == Underscore then
      if !Starts(ts[1..], FatArrow) then Failure
      else
        var b := ArmBody(ts[2..]);
        if b.Failure? then Failure
        else Expect(Ok(Default(b.value), SkipOne(b.rest, Comma)), RBrace)
    else
      var p := Expect(Expression(ts), FatArrow);
      if p.Failure? then Failure
      else
        var b := ArmBody(p.rest);
        if b.Failure? then Failure
        else
          var rest := MatchArms(SkipOne(SkipOne(b.rest, Comma), Comma));
          if rest.Ok? then Ok(Arm(p.value, b.value, rest.value), rest.rest) else Failure
  }

  function ArmBody(ts: seq<Token>): (r: Parsed<Stmt>)
    ensures r.Ok? ==> |r.rest| < |ts|
    decreases |ts|, 3
  {
    if Starts(ts, MatchT) || Starts(ts, LoopT) || Starts(ts, LBrace) then Statement(ts) else ExprStatement(ts)
  }
}
