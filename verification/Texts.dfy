/** Scripts as they are written: which token lists are read as which trees, both ways. */
module Texts {
  import opened Base
  import opened Syntax
  import opened Grammar
  import opened Forms

  /** A written statement: its tree and which of the optional tokens are there. */
  datatype Text =
    | ExprText(f: Form, semi: bool)
    | BlockText(items: Items)
    | IfText(c: Head, t: Text, e: Option<Text>)
    | WhileText(c: Head, body: Text)
    | LoopText(body: Text)
    | ForText(init: Init, cond: Option<Form>, inc: Form, body: Text)
    | MatchText(c: Head, arms: ArmTexts)
    | BreakText
    | ContinueText

  // The head of an if, while or match.
  datatype Head = Head(f: Form, parens: bool)

  /** The variables of one `var` line; one without a value is None. */
  datatype Names = Last(x: Name, init: Option<Form>) | More(x: Name, init: Option<Form>, rest: Names)

  datatype Items = Closed | Item(s: Text, rest: Items) | VarItem(names: Names, rest: Items)

  datatype Init = NoInit | VarInit(names: Names) | ExprInit(f: Form, semi: bool)

  // An arm may be followed by up to two commas, the default arm by one.
  datatype ArmTexts = ClosedArms | DefaultText(body: Text, comma: bool)
    | ArmText(p: Form, body: Text, commas: nat, rest: ArmTexts)

  datatype Lines = NoLines | Line(s: Text, rest: Lines)

  function When(b: bool, t: Token, rest: seq<Token>): seq<Token> {
    if b then [t] + rest else rest
  }

  /** The tokens of a text, followed by the given ones. */
  function Write(s: Text, rest: seq<Token>): seq<Token>
    decreases s
  {
    match s
    case ExprText(f, semi) => Yield(f) + When(semi, Semi, rest)
    case BlockText(items) => [LBrace] + WriteItems(items, rest)
    case IfText(c, t, e) => [IfT] + WriteHead(c, Write(t, if e.Some? then [ElseT] + Write(e.value, rest) else rest))
    case WhileText(c, body) => [WhileT] + WriteHead(c, Write(body, rest))
    case LoopText(body) => [LoopT] + Write(body, rest)
    case ForText(init, cond, inc, body) =>
      [ForT] + ([LParen] + WriteInit(init, WriteRest(cond, inc, Write(body, rest))))
    case MatchText(c, arms) => [MatchT] + WriteHead(c, [LBrace] + WriteArms(arms, rest))
    case BreakText => [BreakT] + ([Semi] + rest)
    case ContinueText => [ContinueT] + ([Semi] + rest)
  }

  function WriteHead(c: Head, rest: seq<Token>): seq<Token> {
    if c.parens then [LParen] + (Yield(c.f) + ([RParen] + rest)) else Yield(c.f) + rest
  }

  function WriteInit(init: Init, rest: seq<Token>): seq<Token> {
    match init
    case NoInit => [Semi] + rest
    case VarInit(names) => [VarT] + WriteNames(names, [Semi] + rest)
    case ExprInit(f, semi) => Yield(f) + When(semi, Semi, rest)
  }

  /** The condition and the increment of a `for`. */
  function WriteRest(cond: Option<Form>, inc: Form, rest: seq<Token>): seq<Token> {
    WriteCond(cond, Yield(inc) + ([RParen] + rest))
  }

  function WriteCond(cond: Option<Form>, rest: seq<Token>): seq<Token> {
    if cond.Some? then Yield(cond.value) + ([Semi] + rest) else [Semi] + rest
  }

  function WriteName(x: Name, init: Option<Form>, rest: seq<Token>): seq<Token> {
    [IdT(x)] + (if init.Some? then [AssignT] + (Yield(init.value) + rest) else rest)
  }

  function WriteNames(names: Names, rest: seq<Token>): seq<Token> {
    match names
    case Last(x, init) => WriteName(x, init, rest)
    case More(x, init, more) => WriteName(x, init, [Comma] + WriteNames(more, rest))
  }

  function WriteItems(items: Items, rest: seq<Token>): seq<Token>
    decreases items
  {
    match items
    case Closed => [RBrace] + rest
    case Item(s, more) => Write(s, WriteItems(more, rest))
    case VarItem(names, more) => [VarT] + WriteNames(names, [Semi] + WriteItems(more, rest))
  }

  function Commas(n: nat, rest: seq<Token>): seq<Token> {
    if n == 0 then rest else [Comma] + Commas(n - 1, rest)
  }

  function WriteArms(arms: ArmTexts, rest: seq<Token>): seq<Token>
    decreases arms
  {
    match arms
    case ClosedArms => [RBrace] + rest
    case DefaultText(body, comma) =>
      [Underscore] + ([FatArrow] + Write(body, When(comma, Comma, [RBrace] + rest)))
    case ArmText(p, body, commas, more) =>
      Yield(p) + ([FatArrow] + Write(body, Commas(commas, WriteArms(more, rest))))
  }

  function WriteLines(lines: Lines): seq<Token> {
    match lines
    case NoLines => []
    case Line(s, more) => Write(s, WriteLines(more))
  }

  function Meant(s: Text): Stmt {
    match s
    case ExprText(f, _) => ExprS(Tree(f))
    case BlockText(items) => Block(ItemTrees(items))
    case IfText(c, t, e) => If(Tree(c.f), Meant(t), if e.Some? then Meant(e.value) else Block(End))
    case WhileText(c, body) => While(Tree(c.f), Meant(body))
    case LoopText(body) => Loop(Meant(body))
    case ForText(init, cond, inc, body) =>
      var loop := ForLoop(if cond.Some? then Some(Tree(cond.value)) else None, Tree(inc), Meant(body));
      Block(InitTrees(init, StmtD(loop, End)))
    case MatchText(c, arms) => Match(Tree(c.f), ArmTrees(arms))
    case BreakText => Break
    case ContinueText => Continue
  }

  function InitTrees(init: Init, rest: Decls): Decls {
    match init
    case NoInit => rest
    case VarInit(names) => NameTrees(names, rest)
    case ExprInit(f, _) => StmtD(ExprS(Tree(f)), rest)
  }

  function InitTree(init: Option<Form>): Expr {
    if init.Some? then Tree(init.value) else NoneLit
  }

  function NameTrees(names: Names, rest: Decls): Decls {
    match names
    case Last(x, init) => VarD(x, InitTree(init), rest)
    case More(x, init, more) => VarD(x, InitTree(init), NameTrees(more, rest))
  }

  function ItemTrees(items: Items): Decls {
    match items
    case Closed => End
    case Item(s, more) => StmtD(Meant(s), ItemTrees(more))
    case VarItem(names, more) => NameTrees(names, ItemTrees(more))
  }

  function ArmTrees(arms: ArmTexts): Arms {
    match arms
    case ClosedArms => NoMore
    case DefaultText(body, _) => Default(Meant(body))
    case ArmText(p, body, _, more) => Arm(Tree(p), Meant(body), ArmTrees(more))
  }

  function LineTrees(lines: Lines): Decls {
    match lines
    case NoLines => End
    case Line(s, more) => StmtD(Meant(s), LineTrees(more))
  }

  /** The tokens that an expression cannot end before. */
  predicate GoesOn(t: Token) {
    t.Op? || t == AndT || t == OrT || t == QuestionT || t == BangT || t == TildeT || t == LParen || t == AssignT
  }

  predicate Parted(rest: seq<Token>) {
    rest == [] || !GoesOn(rest[0])
  }

  lemma {:induction false} PartedIs(rest: seq<Token>)
    ensures Parted(rest) <==> Over(ASSIGN, rest)
  {
  }

  /** What is left out is not missed: nothing that follows an expression could be taken for more of it, nor an `else` or
      `;` for one of this statement's own. */
  predicate Fair(s: Text, rest: seq<Token>)
    decreases s, 0
  {
    match s
    case ExprText(f, semi) => Proper(f) && (!semi ==> Parted(rest) && !Starts(rest, Semi))
    case BlockText(items) => FairItems(items, rest)
    case IfText(c, t, e) =>
      var after := if e.Some? then [ElseT] + Write(e.value, rest) else rest;
      && FairHead(c, Write(t, after)) && Fair(t, after)
      && (if e.Some? then Fair(e.value, rest) else !Starts(rest, ElseT))
    case WhileText(c, body) => FairHead(c, Write(body, rest)) && Fair(body, rest)
    case LoopText(body) => Fair(body, rest)
    case ForText(init, cond, inc, body) =>
      && FairInit(init, WriteRest(cond, inc, Write(body, rest)))
      && (cond.Some? ==> Proper(cond.value)) && Proper(inc) && Fair(body, rest)
    case MatchText(c, arms) => FairHead(c, [LBrace] + WriteArms(arms, rest)) && FairArms(arms, rest)
    case BreakText => true
    case ContinueText => true
  }

  /** Without its own parentheses a head begins with none. */
  predicate FairHead(c: Head, rest: seq<Token>) {
    Proper(c.f) && (!c.parens ==> Parted(rest) && !Starts(Yield(c.f), LParen))
  }

  predicate FairInit(init: Init, rest: seq<Token>) {
    match init
    case NoInit => true
    case VarInit(names) => FairNames(names)
    case ExprInit(f, semi) => Proper(f) && (!semi ==> Parted(rest) && !Starts(rest, Semi))
  }

  predicate FairNames(names: Names) {
    && (names.init.Some? ==> Proper(names.init.value))
    && (names.More? ==> FairNames(names.rest))
  }

  predicate FairItems(items: Items, rest: seq<Token>)
    decreases items, 0
  {
    match items
    case Closed => true
    case Item(s, more) => Fair(s, WriteItems(more, rest)) && FairItems(more, rest)
    case VarItem(names, more) => FairNames(names) && FairItems(more, rest)
  }

  /** An arm's body is an expression, a block, a `loop` or a `match`. */
  predicate FairBody(body: Text, rest: seq<Token>)
    decreases body, 1
  {
    (body.ExprText? || body.BlockText? || body.LoopText? || body.MatchText?) && Fair(body, rest)
  }

  predicate FairArms(arms: ArmTexts, rest: seq<Token>)
    decreases arms, 0
  {
    match arms
    case ClosedArms => true
    case DefaultText(body, comma) => FairBody(body, When(comma, Comma, [RBrace] + rest))
    case ArmText(p, body, commas, more) =>
      Proper(p) && commas <= 2 && FairBody(body, Commas(commas, WriteArms(more, rest))) && FairArms(more, rest)
  }

  predicate FairLines(lines: Lines) {
    match lines
    case NoLines => true
    case Line(s, more) => Fair(s, WriteLines(more)) && FairLines(more)
  }

  predicate BeginsForm(t: Token) {
    IsLeaf(t) || t == LParen || t == BangT || t == TildeT || t == Op(Sub)
  }

  lemma {:induction false} FormBegins(f: Form)
    requires Proper(f)
    ensures Yield(f) != [] && BeginsForm(Yield(f)[0])
  {
    match f
    case Infixed(l, _, _) => FormBegins(l);
    case Choice(c, _, _) => FormBegins(c);
    case _ =>
  }

  lemma {:induction false} ReadsExpression(f: Form, rest: seq<Token>)
    requires Proper(f) && Parted(rest)
    ensures Expression(Yield(f) + rest) == Ok(Tree(f), rest)
  {
    hide Precedence, Proper, Yield, Tree;
    PartedIs(rest);
    ExpressionIs(Yield(f) + rest, Tree(f), rest);
  }

  lemma {:induction false} ReadsExprStatement(f: Form, semi: bool, rest: seq<Token>)
    requires Fair(ExprText(f, semi), rest)
    ensures ExprStatement(Write(ExprText(f, semi), rest)) == Ok(ExprS(Tree(f)), rest)
  {
    hide Precedence, Proper, Yield, Tree;
    ReadsExpression(f, When(semi, Semi, rest));
  }

  lemma {:induction false} ReadsHead(c: Head, rest: seq<Token>)
    requires FairHead(c, rest)
    ensures Condition(WriteHead(c, rest)) == Ok(Tree(c.f), rest)
  {
    hide Precedence, Proper, Tree;
    if c.parens {
      ReadsExpression(c.f, [RParen] + rest);
      var ts := WriteHead(c, rest);
      assert ts[1..] == Yield(c.f) + ([RParen] + rest);
    } else {
      FormBegins(c.f);
      ReadsExpression(c.f, rest);
    }
  }

  /** A fair text is read as what it means, and what follows it is left. */
  lemma {:induction false} ReadsText(s: Text, rest: seq<Token>)
    requires Fair(s, rest)
    ensures Statement(Write(s, rest)) == Ok(Meant(s), rest)
    decreases s, 1
  {
    hide Precedence, Proper, Yield, Tree, Condition, Expression, Statement, BlockItems;
    match s
    case ExprText(f, semi) =>
      FormBegins(f);
      ReadsExprStatement(f, semi, rest);
      ExprStep(Write(s, rest));
    case BlockText(items) =>
      ReadsItems(items, rest);
      BlockStep(WriteItems(items, rest), ItemTrees(items), rest);
    case IfText(c, t, e) => ReadsIf(c, t, e, rest);
    case WhileText(c, body) =>
      ReadsHead(c, Write(body, rest));
      ReadsText(body, rest);
      WhileStep(WriteHead(c, Write(body, rest)), Tree(c.f), Write(body, rest), Meant(body), rest);
    case LoopText(body) =>
      ReadsText(body, rest);
      LoopStep(Write(body, rest), Meant(body), rest);
    case ForText(init, cond, inc, body) => ReadsFor(init, cond, inc, body, rest);
    case MatchText(c, arms) => ReadsMatch(c, arms, rest);
    case BreakText => EscapeStep(rest);
    case ContinueText => EscapeStep(rest);
  }

  lemma {:induction false} ExprStep(ts: seq<Token>)
    requires ts != [] && BeginsForm(ts[0])
    ensures Statement(ts) == ExprStatement(ts)
  {
    hide ExprStatement;
  }

  lemma {:induction false} EscapeStep(rest: seq<Token>)
    ensures Statement([BreakT] + ([Semi] + rest)) == Ok(Break, rest)
    ensures Statement([ContinueT] + ([Semi] + rest)) == Ok(Continue, rest)
  {
    After(BreakT, [Semi] + rest);
    After(ContinueT, [Semi] + rest);
    After(Semi, rest);
  }

  lemma {:induction false} BlockStep(ts: seq<Token>, ds: Decls, rest: seq<Token>)
    requires BlockItems(ts) == Ok(ds, rest)
    ensures Statement([LBrace] + ts) == Ok(Block(ds), rest)
  {
    hide BlockItems;
    After(LBrace, ts);
  }

  lemma {:induction false} LoopStep(ts: seq<Token>, body: Stmt, rest: seq<Token>)
    requires Statement(ts) == Ok(body, rest)
    ensures Statement([LoopT] + ts) == Ok(Loop(body), rest)
  {
    After(LoopT, ts);
  }

  lemma {:induction false} WhileStep(ts: seq<Token>, c: Expr, mid: seq<Token>, body: Stmt, rest: seq<Token>)
    requires Condition(ts) == Ok(c, mid) && Statement(mid) == Ok(body, rest)
    ensures Statement([WhileT] + ts) == Ok(While(c, body), rest)
  {
    hide Condition;
    After(WhileT, ts);
  }

  lemma {:induction false} IfStep(ts: seq<Token>, c: Expr, mid: seq<Token>, t: Stmt, after: seq<Token>)
    requires Condition(ts) == Ok(c, mid) && Statement(mid) == Ok(t, after)
    ensures !Starts(after, ElseT) ==> Statement([IfT] + ts) == Ok(If(c, t, Block(End)), after)
    ensures Starts(after, ElseT) ==>
              var f := Statement(after[1..]);
              Statement([IfT] + ts) == if f.Ok? then Ok(If(c, t, f.value), f.rest) else Failure
  {
    hide Condition;
    After(IfT, ts);
  }

  lemma {:induction false} After(t: Token, rest: seq<Token>)
    ensures [t] + rest != [] && ([t] + rest)[0] == t && ([t] + rest)[1..] == rest
  {
  }

  lemma {:induction false} ReadsIf(c: Head, t: Text, e: Option<Text>, rest: seq<Token>)
    requires Fair(IfText(c, t, e), rest)
    ensures Statement(Write(IfText(c, t, e), rest)) == Ok(Meant(IfText(c, t, e)), rest)
    decreases IfText(c, t, e), 0
  {
    hide Precedence, Proper, Yield, Tree, Condition, WriteHead, Statement;
    var after := if e.Some? then [ElseT] + Write(e.value, rest) else rest;
    ReadsHead(c, Write(t, after));
    ReadsText(t, after);
    IfStep(WriteHead(c, Write(t, after)), Tree(c.f), Write(t, after), Meant(t), after);
    if e.Some? {
      ReadsText(e.value, rest);
      After(ElseT, Write(e.value, rest));
    }
  }

  lemma {:induction false} ReadsItems(items: Items, rest: seq<Token>)
    requires FairItems(items, rest)
    ensures BlockItems(WriteItems(items, rest)) == Ok(ItemTrees(items), rest)
    decreases items, 1
  {
    hide Precedence, Proper, Yield, Tree, Statement, Vars;
    match items
    case Closed => After(RBrace, rest);
    case Item(s, more) =>
      var next := WriteItems(more, rest);
      ReadsText(s, next);
      TextBegins(s, next);
      ReadsItems(more, rest);
      ItemStep(Write(s, next), Meant(s), next, ItemTrees(more), rest);
    case VarItem(names, more) =>
      var next := WriteItems(more, rest);
      ReadsItems(more, rest);
      After(VarT, WriteNames(names, [Semi] + next));
      After(Semi, next);
      ReadsNames(names, false, [Semi] + next, ItemTrees(more), rest);
  }

  /** No statement begins with a token that ends a block or begins a declaration. */
  lemma {:induction false} TextBegins(s: Text, rest: seq<Token>)
    requires Fair(s, rest)
    ensures var ts := Write(s, rest); ts != [] && ts[0] != RBrace && ts[0] != VarT && ts[0] != Semi && ts[0] != ElseT
  {
    if s.ExprText? { FormBegins(s.f); }
  }

  lemma {:induction false} ItemStep(ts: seq<Token>, s: Stmt, next: seq<Token>, ds: Decls, rest: seq<Token>)
    requires Statement(ts) == Ok(s, next) && ts != [] && ts[0] != RBrace && ts[0] != VarT
    requires BlockItems(next) == Ok(ds, rest)
    ensures BlockItems(ts) == Ok(StmtD(s, ds), rest)
  {
    hide Statement;
  }

  /** What follows a list of variables: the rest of the block, or of the `for` header. */
  lemma {:induction false} ReadsNames(names: Names, inFor: bool, after: seq<Token>, ds: Decls, rest: seq<Token>)
    requires FairNames(names) && Starts(after, Semi)
    requires (if inFor then ForRest(after[1..]) else BlockItems(after[1..])) == Ok(ds, rest)
    ensures Vars(WriteNames(names, after), inFor) == Ok(NameTrees(names, ds), rest)
  {
    hide Precedence, Proper, Yield, Tree, BlockItems, ForRest, Vars;
    match names
    case Last(x, init) => ReadsName(x, init, inFor, after, ds, rest);
    case More(x, init, more) =>
      ReadsNames(more, inFor, after, ds, rest);
      var next := [Comma] + WriteNames(more, after);
      After(Comma, WriteNames(more, after));
      ReadsName(x, init, inFor, next, NameTrees(more, ds), rest);
  }

  lemma {:induction false} ReadsName(x: Name, init: Option<Form>, inFor: bool, next: seq<Token>, ds: Decls,
                                     rest: seq<Token>)
    requires (init.Some? ==> Proper(init.value)) && (Starts(next, Semi) || Starts(next, Comma))
    requires Starts(next, Comma) ==> Vars(next[1..], inFor) == Ok(ds, rest)
    requires Starts(next, Semi) ==> (if inFor then ForRest(next[1..]) else BlockItems(next[1..])) == Ok(ds, rest)
    ensures Vars(WriteName(x, init, next), inFor) == Ok(VarD(x, InitTree(init), ds), rest)
  {
    hide Precedence, Proper, Yield, Tree, BlockItems, ForRest;
    var ts := WriteName(x, init, next);
    if init.Some? {
      ReadsExpression(init.value, next);
      assert ts[1..] == [AssignT] + (Yield(init.value) + next);
      assert ts[2..] == Yield(init.value) + next;
    } else {
      assert ts[1..] == next;
    }
  }

  lemma {:induction false} ReadsFor(init: Init, cond: Option<Form>, inc: Form, body: Text, rest: seq<Token>)
    requires Fair(ForText(init, cond, inc, body), rest)
    ensures Statement(Write(ForText(init, cond, inc, body), rest)) == Ok(Meant(ForText(init, cond, inc, body)), rest)
    decreases ForText(init, cond, inc, body), 0
  {
    hide Precedence, Proper, Yield, Tree, Statement, ForRest, ForInit;
    var next := WriteRest(cond, inc, Write(body, rest));
    ReadsText(body, rest);
    var loop := ForLoop(if cond.Some? then Some(Tree(cond.value)) else None, Tree(inc), Meant(body));
    ReadsRest(cond, inc, Meant(body), Write(body, rest), rest);
    ReadsInit(init, next, StmtD(loop, End), rest);
    ForStep(WriteInit(init, next), InitTrees(init, StmtD(loop, End)), rest);
  }

  lemma {:induction false} ForStep(ts: seq<Token>, ds: Decls, rest: seq<Token>)
    requires ForInit(ts) == Ok(ds, rest)
    ensures Statement([ForT] + ([LParen] + ts)) == Ok(Block(ds), rest)
  {
    hide ForInit;
    After(ForT, [LParen] + ts);
    After(LParen, ts);
  }

  lemma {:induction false} ReadsRest(cond: Option<Form>, inc: Form, body: Stmt, mid: seq<Token>, rest: seq<Token>)
    requires (cond.Some? ==> Proper(cond.value)) && Proper(inc) && Statement(mid) == Ok(body, rest)
    ensures var loop := ForLoop(if cond.Some? then Some(Tree(cond.value)) else None, Tree(inc), body);
            ForRest(WriteRest(cond, inc, mid)) == Ok(StmtD(loop, End), rest)
  {
    hide Precedence, Proper, Yield, Tree, Statement;
    var ts := WriteRest(cond, inc, mid);
    var step := Yield(inc) + ([RParen] + mid);
    FormBegins(inc);
    ReadsExpression(inc, [RParen] + mid);
    After(RParen, mid);
    After(Semi, step);
    assert !Starts(step, RParen);
    if cond.Some? {
      FormBegins(cond.value);
      ReadsExpression(cond.value, [Semi] + step);
      assert !Starts(ts, Semi);
    }
  }

  lemma {:induction false} ReadsInit(init: Init, next: seq<Token>, ds: Decls, rest: seq<Token>)
    requires FairInit(init, next) && ForRest(next) == Ok(ds, rest)
    ensures ForInit(WriteInit(init, next)) == Ok(InitTrees(init, ds), rest)
  {
    hide Precedence, Proper, Yield, Tree, ForRest, Vars, ExprStatement;
    After(Semi, next);
    match init
    case NoInit =>
    case VarInit(names) =>
      ReadsNames(names, true, [Semi] + next, ds, rest);
      After(VarT, WriteNames(names, [Semi] + next));
    case ExprInit(f, semi) =>
      ReadsExprStatement(f, semi, next);
      FormBegins(f);
  }

  lemma {:induction false} ReadsMatch(c: Head, arms: ArmTexts, rest: seq<Token>)
    requires Fair(MatchText(c, arms), rest)
    ensures Statement(Write(MatchText(c, arms), rest)) == Ok(Meant(MatchText(c, arms)), rest)
    decreases MatchText(c, arms), 0
  {
    hide Precedence, Proper, Yield, Tree, Statement, MatchArms, Condition, WriteHead;
    var open := [LBrace] + WriteArms(arms, rest);
    ReadsHead(c, open);
    ReadsArms(arms, rest);
    MatchStep(WriteHead(c, open), Tree(c.f), WriteArms(arms, rest), ArmTrees(arms), rest);
  }

  lemma {:induction false} MatchStep(ts: seq<Token>, c: Expr, mid: seq<Token>, arms: Arms, rest: seq<Token>)
    requires Condition(ts) == Ok(c, [LBrace] + mid) && MatchArms(mid) == Ok(arms, rest)
    ensures Statement([MatchT] + ts) == Ok(Match(c, arms), rest)
  {
    hide Condition, MatchArms;
    After(MatchT, ts);
    After(LBrace, mid);
  }

  lemma {:induction false} ReadsBody(body: Text, rest: seq<Token>)
    requires FairBody(body, rest)
    ensures ArmBody(Write(body, rest)) == Ok(Meant(body), rest)
    decreases body, 2
  {
    hide Precedence, Proper, Yield, Tree, Statement, ExprStatement;
    if body.ExprText? {
      FormBegins(body.f);
      ReadsExprStatement(body.f, body.semi, rest);
    } else {
      ReadsText(body, rest);
    }
  }

  lemma {:induction false} ReadsArms(arms: ArmTexts, rest: seq<Token>)
    requires FairArms(arms, rest)
    ensures MatchArms(WriteArms(arms, rest)) == Ok(ArmTrees(arms), rest)
    decreases arms, 1
  {
    hide Precedence, Proper, Yield, Tree, Statement, MatchArms, ArmBody;
    match arms
    case ClosedArms => CloseStep(rest);
    case DefaultText(body, comma) =>
      var close := When(comma, Comma, [RBrace] + rest);
      ReadsBody(body, close);
      DefaultStep(Write(body, close), Meant(body), comma, rest);
    case ArmText(p, body, commas, more) =>
      var next := WriteArms(more, rest);
      ReadsArms(more, rest);
      ArmsBegin(more, rest);
      ReadsBody(body, Commas(commas, next));
      FormBegins(p);
      ReadsExpression(p, [FatArrow] + Write(body, Commas(commas, next)));
      ArmStep(Yield(p) + ([FatArrow] + Write(body, Commas(commas, next))), Tree(p), Write(body, Commas(commas, next)),
              Meant(body), commas, next, ArmTrees(more), rest);
  }

  lemma {:induction false} CloseStep(rest: seq<Token>)
    ensures MatchArms([RBrace] + rest) == Ok(NoMore, rest)
  {
    After(RBrace, rest);
  }

  lemma {:induction false} DefaultStep(ts: seq<Token>, body: Stmt, comma: bool, rest: seq<Token>)
    requires ArmBody(ts) == Ok(body, When(comma, Comma, [RBrace] + rest))
    ensures MatchArms([Underscore] + ([FatArrow] + ts)) == Ok(Default(body), rest)
  {
    hide ArmBody;
    var us := [Underscore] + ([FatArrow] + ts);
    assert us[1..] == [FatArrow] + ts && us[2..] == ts;
    After(Comma, [RBrace] + rest);
    After(RBrace, rest);
  }

  lemma {:induction false} ArmStep(ts: seq<Token>, p: Expr, mid: seq<Token>, body: Stmt, commas: nat, next: seq<Token>,
                                   arms: Arms, rest: seq<Token>)
    requires ts != [] && BeginsForm(ts[0]) && Expression(ts) == Ok(p, [FatArrow] + mid)
    requires ArmBody(mid) == Ok(body, Commas(commas, next)) && commas <= 2 && !Starts(next, Comma)
    requires MatchArms(next) == Ok(arms, rest)
    ensures MatchArms(ts) == Ok(Arm(p, body, arms), rest)
  {
    hide ArmBody, Expression;
    After(FatArrow, mid);
    CommasSkipped(commas, next);
  }

  lemma {:induction false} CommasSkipped(n: nat, next: seq<Token>)
    requires n <= 2 && !Starts(next, Comma)
    ensures SkipOne(SkipOne(Commas(n, next), Comma), Comma) == next
  {
    After(Comma, next);
    After(Comma, [Comma] + next);
    assert Commas(1, next) == [Comma] + Commas(0, next);
    assert Commas(2, next) == [Comma] + Commas(1, next);
  }

  lemma {:induction false} ArmsBegin(arms: ArmTexts, rest: seq<Token>)
    requires FairArms(arms, rest)
    ensures !Starts(WriteArms(arms, rest), Comma)
  {
    if arms.ArmText? { FormBegins(arms.p); }
  }

  lemma {:induction false} ReadsLines(lines: Lines)
    requires FairLines(lines)
    ensures Script(WriteLines(lines)) == Ok(LineTrees(lines), [])
  {
    hide Statement, Fair, Write;
    match lines
    case NoLines =>
    case Line(s, more) =>
      ReadsText(s, WriteLines(more));
      TextBegins(s, WriteLines(more));
      ReadsLines(more);
  }
}
