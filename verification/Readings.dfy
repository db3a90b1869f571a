/** Whatever the parser reads was a written text, so the texts are all there is to read. */
module Readings {
  import opened Base
  import opened Syntax
  import opened Grammar
  import opened Forms
  import opened Texts

  lemma {:induction false} FormRead(ts: seq<Token>) returns (f: Form)
    requires Expression(ts).Ok?
    ensures var r := Expression(ts);
            Yield(f) + r.rest == ts && Yield(f) != [] && Proper(f) && Tree(f) == r.value && Parted(r.rest)
  {
    hide Precedence, Proper, Yield, Tree;
    f := FormOf(ASSIGN, ts);
    FormBegins(f);
    PartedIs(Expression(ts).rest);
  }

  lemma {:induction false} ExprTextRead(ts: seq<Token>) returns (f: Form, semi: bool)
    requires ExprStatement(ts).Ok?
    ensures var r := ExprStatement(ts);
            && Write(ExprText(f, semi), r.rest) == ts && Meant(ExprText(f, semi)) == r.value
            && Fair(ExprText(f, semi), r.rest)
  {
    hide Expression, Proper, Yield, Tree;
    f := FormRead(ts);
    var after := Expression(ts).rest;
    semi := Starts(after, Semi);
    assert ExprStatement(ts) == Ok(ExprS(Tree(f)), SkipOne(after, Semi));
    assert When(semi, Semi, SkipOne(after, Semi)) == after;
  }

  lemma {:induction false} HeadRead(ts: seq<Token>) returns (c: Head)
    requires Condition(ts).Ok?
    ensures var r := Condition(ts); WriteHead(c, r.rest) == ts && Tree(c.f) == r.value && FairHead(c, r.rest)
  {
    hide Expression, Proper, Yield, Tree;
    if Starts(ts, LParen) {
      var f := FormRead(ts[1..]);
      c := Head(f, true);
      var close := Expression(ts[1..]).rest;
      assert close == [RParen] + close[1..] && ts == [LParen] + ts[1..];
    } else {
      var f := FormRead(ts);
      c := Head(f, false);
    }
  }

  /** Every statement that is read was a fair text of it. */
  lemma {:induction false} TextRead(ts: seq<Token>) returns (s: Text)
    requires Statement(ts).Ok?
    ensures var r := Statement(ts); Write(s, r.rest) == ts && Meant(s) == r.value && Fair(s, r.rest)
    decreases |ts|, 5
  {
    hide Condition, ExprStatement, BlockItems, FairItems, WriteItems, IfStatement, For, MatchStatement;
    var us := ts[1..];
    assert ts == [ts[0]] + us;
    match ts[0]
    case ForT => s := ForRead(us);
    case IfT => s := IfRead(us);
    case MatchT => s := MatchRead(us);
    case WhileT =>
      s := WhileRead(us);
    case LoopT =>
      var body := TextRead(us);
      s := LoopText(body);
    case LBrace =>
      var items := ItemsRead(us);
      s := BlockText(items);
    case BreakT =>
      s := BreakText;
      assert us == [Semi] + us[1..];
    case ContinueT =>
      s := ContinueText;
      assert us == [Semi] + us[1..];
    case _ =>
      var f, semi := ExprTextRead(ts);
      s := ExprText(f, semi);
  }

  lemma {:induction false} WhileRead(ts: seq<Token>) returns (s: Text)
    requires Condition(ts).Ok? && Statement(Condition(ts).rest).Ok?
    ensures var b := Statement(Condition(ts).rest);
            && Write(s, b.rest) == [WhileT] + ts && Meant(s) == While(Condition(ts).value, b.value)
            && Fair(s, b.rest)
    decreases |ts|, 6
  {
    hide Condition, Statement;
    var c := HeadRead(ts);
    var body := TextRead(Condition(ts).rest);
    s := WhileText(c, body);
  }

  lemma {:induction false} IfRead(ts: seq<Token>) returns (s: Text)
    requires IfStatement(ts).Ok?
    ensures var r := IfStatement(ts); Write(s, r.rest) == [IfT] + ts && Meant(s) == r.value && Fair(s, r.rest)
    decreases |ts|, 6
  {
    hide Condition, Statement;
    var c := HeadRead(ts);
    var first := Statement(Condition(ts).rest);
    var t := TextRead(Condition(ts).rest);
    if Starts(first.rest, ElseT) {
      var e := TextRead(first.rest[1..]);
      assert first.rest == [ElseT] + first.rest[1..];
      s := IfText(c, t, Some(e));
    } else {
      s := IfText(c, t, None);
    }
  }

  lemma {:induction false} ItemsRead(ts: seq<Token>) returns (items: Items)
    requires BlockItems(ts).Ok?
    ensures var r := BlockItems(ts);
            WriteItems(items, r.rest) == ts && ItemTrees(items) == r.value && FairItems(items, r.rest)
    decreases |ts|, 6
  {
    hide Statement, Write, Fair, Meant, Vars, FairNames, WriteNames, NameTrees;
    assert ts == [ts[0]] + ts[1..];
    if ts[0] == RBrace {
      items := Closed;
    } else if ts[0] == VarT {
      var names, after := NamesRead(ts[1..], false);
      var more := ItemsRead(after[1..]);
      assert after == [Semi] + after[1..];
      items := VarItem(names, more);
    } else {
      var s := TextRead(ts);
      var more := ItemsRead(Statement(ts).rest);
      items := Item(s, more);
    }
  }

  /** The rest of the block or of the `for` header that follows a list of variables. */
  function Following(ts: seq<Token>, inFor: bool): Parsed<Decls> {
    if inFor then ForRest(ts) else BlockItems(ts)
  }

  lemma {:induction false} NamesRead(ts: seq<Token>, inFor: bool) returns (names: Names, after: seq<Token>)
    requires Vars(ts, inFor).Ok?
    ensures Starts(after, Semi) && |after| < |ts| && Following(after[1..], inFor).Ok?
    ensures var r, ds := Vars(ts, inFor), Following(after[1..], inFor);
            && WriteNames(names, after) == ts && NameTrees(names, ds.value) == r.value && FairNames(names)
            && r.rest == ds.rest
    decreases |ts|
  {
    hide Expression, Proper, Yield, Tree, ForRest, BlockItems;
    var x, us := ts[0].x, ts[1..];
    assert ts == [IdT(x)] + us;
    var init, next := None, us;
    if Starts(us, AssignT) {
      var f := FormRead(ts[2..]);
      init, next := Some(f), Expression(ts[2..]).rest;
      assert us == [AssignT] + ts[2..];
    }
    assert WriteName(x, init, next) == ts;
    if next[0] == Comma {
      var more;
      more, after := NamesRead(next[1..], inFor);
      assert next == [Comma] + next[1..];
      names := More(x, init, more);
    } else {
      names, after := Last(x, init), next;
    }
  }

  lemma {:induction false} ForRead(ts: seq<Token>) returns (s: Text)
    requires For(ts).Ok?
    ensures var r := For(ts); Write(s, r.rest) == [ForT] + ts && Meant(s) == r.value && Fair(s, r.rest)
    decreases |ts|, 6
  {
    hide ForInit, ForRest, WriteRest, WriteInit, FairInit, Proper, Tree;
    var init, next := InitRead(ts[1..]);
    var cond, inc, body := RestRead(next);
    assert ts == [LParen] + ts[1..];
    s := ForText(init, cond, inc, body);
  }

  lemma {:induction false} InitRead(ts: seq<Token>) returns (init: Init, next: seq<Token>)
    requires ForInit(ts).Ok?
    ensures |next| < |ts| && ForRest(next).Ok?
    ensures var r, ds := ForInit(ts), ForRest(next);
            && WriteInit(init, next) == ts && InitTrees(init, ds.value) == r.value && FairInit(init, next)
            && r.rest == ds.rest
  {
    hide ForRest, Vars, ExprStatement, Proper, Tree, Yield;
    if Starts(ts, Semi) {
      init, next := NoInit, ts[1..];
    } else if Starts(ts, VarT) {
      var names, after := NamesRead(ts[1..], true);
      init, next := VarInit(names), after[1..];
      assert after == [Semi] + next && ts == [VarT] + ts[1..];
    } else {
      var f, semi := ExprTextRead(ts);
      init, next := ExprInit(f, semi), ExprStatement(ts).rest;
    }
  }

  lemma {:induction false} RestRead(ts: seq<Token>) returns (cond: Option<Form>, inc: Form, body: Text)
    requires ForRest(ts).Ok?
    ensures var r := ForRest(ts);
            var loop := ForLoop(if cond.Some? then Some(Tree(cond.value)) else None, Tree(inc), Meant(body));
            && WriteRest(cond, inc, Write(body, r.rest)) == ts && r.value == StmtD(loop, End)
            && (cond.Some? ==> Proper(cond.value)) && Proper(inc) && Fair(body, r.rest)
    decreases |ts|, 6
  {
    hide Expression, Statement, Proper, Tree, Yield, Meant, Fair, Write;
    var mid;
    cond, mid := CondRead(ts);
    inc := FormRead(mid);
    var step := Expression(mid).rest;
    body := TextRead(step[1..]);
    assert step == [RParen] + step[1..];
  }

  lemma {:induction false} CondRead(ts: seq<Token>) returns (cond: Option<Form>, mid: seq<Token>)
    requires Starts(ts, Semi) || Expect(Expression(ts), Semi).Ok?
    ensures mid == if Starts(ts, Semi) then ts[1..] else Expect(Expression(ts), Semi).rest
    ensures cond.Some? <==> !Starts(ts, Semi)
    ensures cond.Some? ==> Proper(cond.value) && Tree(cond.value) == Expression(ts).value
    ensures WriteCond(cond, mid) == ts
  {
    hide Expression, Proper, Tree, Yield;
    if Starts(ts, Semi) {
      cond, mid := None, ts[1..];
    } else {
      var f := FormRead(ts);
      var semi := Expression(ts).rest;
      cond, mid := Some(f), semi[1..];
      assert semi == [Semi] + semi[1..];
    }
  }

  lemma {:induction false} MatchRead(ts: seq<Token>) returns (s: Text)
    requires MatchStatement(ts).Ok?
    ensures var r := MatchStatement(ts); Write(s, r.rest) == [MatchT] + ts && Meant(s) == r.value && Fair(s, r.rest)
    decreases |ts|, 7
  {
    hide Condition, MatchArms, WriteArms, FairArms;
    var c := HeadRead(ts);
    var open := Condition(ts).rest;
    var arms := ArmsRead(open[1..]);
    assert open == [LBrace] + open[1..];
    s := MatchText(c, arms);
  }

  lemma {:induction false} ArmsRead(ts: seq<Token>) returns (arms: ArmTexts)
    requires MatchArms(ts).Ok?
    ensures var r := MatchArms(ts);
            WriteArms(arms, r.rest) == ts && ArmTrees(arms) == r.value && FairArms(arms, r.rest)
    decreases |ts|, 7
  {
    hide Expression, ArmBody, FairBody, Proper, Write, Meant;
    assert ts == [ts[0]] + ts[1..];
    if ts[0] == RBrace {
      arms := ClosedArms;
    } else if ts[0] == Underscore {
      arms := DefaultRead(ts);
    } else {
      arms := ArmRead(ts);
    }
  }

  lemma {:induction false} BodyRead(ts: seq<Token>) returns (s: Text)
    requires ArmBody(ts).Ok?
    ensures var r := ArmBody(ts); Write(s, r.rest) == ts && Meant(s) == r.value && FairBody(s, r.rest)
    decreases |ts|, 6
  {
    if Starts(ts, MatchT) || Starts(ts, LoopT) || Starts(ts, LBrace) {
      s := TextRead(ts);
      TextKind(s, Statement(ts).rest);
    } else {
      var f, semi := ExprTextRead(ts);
      s := ExprText(f, semi);
    }
  }

  lemma {:induction false} TextKind(s: Text, rest: seq<Token>)
    requires Fair(s, rest)
    ensures s.MatchText? || s.LoopText? || s.BlockText? || s.ExprText? <==>
              !(Write(s, rest)[0] in {IfT, WhileT, ForT, BreakT, ContinueT})
  {
    if s.ExprText? { FormBegins(s.f); }
  }

  lemma {:induction false} DefaultRead(ts: seq<Token>) returns (arms: ArmTexts)
    requires Starts(ts, Underscore) && MatchArms(ts).Ok?
    ensures var r := MatchArms(ts);
            WriteArms(arms, r.rest) == ts && ArmTrees(arms) == r.value && FairArms(arms, r.rest)
    decreases |ts|, 6
  {
    hide ArmBody, FairBody, Write, Meant;
    var body := BodyRead(ts[2..]);
    var b := ArmBody(ts[2..]);
    var comma := Starts(b.rest, Comma);
    var close := SkipOne(b.rest, Comma);
    assert close == [RBrace] + close[1..];
    assert When(comma, Comma, close) == b.rest;
    assert ts == [Underscore] + ([FatArrow] + ts[2..]);
    arms := DefaultText(body, comma);
  }

  lemma {:induction false} ArmParts(ts: seq<Token>)
    requires ts != [] && ts[0] != RBrace && ts[0] != Underscore && MatchArms(ts).Ok?
    ensures var p := Expression(ts);
            && p.Ok? && Starts(p.rest, FatArrow) && ArmBody(p.rest[1..]).Ok?
            && var b := ArmBody(p.rest[1..]);
            var more := MatchArms(SkipOne(SkipOne(b.rest, Comma), Comma));
            more.Ok? && MatchArms(ts) == Ok(Arm(p.value, b.value, more.value), more.rest)
  {
    hide Expression, ArmBody;
  }

  lemma {:induction false} ArmRead(ts: seq<Token>) returns (arms: ArmTexts)
    requires ts != [] && ts[0] != RBrace && ts[0] != Underscore && MatchArms(ts).Ok?
    ensures var r := MatchArms(ts);
            WriteArms(arms, r.rest) == ts && ArmTrees(arms) == r.value && FairArms(arms, r.rest)
    decreases |ts|, 6
  {
    ArmParts(ts);
    hide MatchArms, ArmBody, FairBody, Write, Meant, Expression, Proper, Tree, Yield;
    var p := FormRead(ts);
    var arrow := Expression(ts).rest;
    assert arrow == [FatArrow] + arrow[1..];
    var body := BodyRead(arrow[1..]);
    var b := ArmBody(arrow[1..]);
    var commas, next := CommasRead(b.rest);
    var more := ArmsRead(next);
    arms := ArmText(p, body, commas, more);
  }

  lemma {:induction false} CommasRead(ts: seq<Token>) returns (n: nat, next: seq<Token>)
    ensures n <= 2 && Commas(n, next) == ts && next == SkipOne(SkipOne(ts, Comma), Comma)
  {
    var us := SkipOne(ts, Comma);
    next := SkipOne(us, Comma);
    n := (if Starts(ts, Comma) then 1 else 0) + (if Starts(us, Comma) then 1 else 0);
    assert Commas(0, next) == next;
    assert Commas(1, next) == [Comma] + Commas(0, next);
    assert Commas(2, next) == [Comma] + Commas(1, next);
  }

  /** What the parser takes for a statement, and leaves after it, is exactly what the fair texts say. */
  lemma {:induction false} StatementIs(ts: seq<Token>, s: Stmt, rest: seq<Token>)
    ensures Statement(ts) == Ok(s, rest) <==> exists t :: Fair(t, rest) && Write(t, rest) == ts && Meant(t) == s
  {
    hide *;
    if Statement(ts) == Ok(s, rest) {
      var t := TextRead(ts);
    }
    if t :| Fair(t, rest) && Write(t, rest) == ts && Meant(t) == s {
      ReadsText(t, rest);
    }
  }

  lemma {:induction false} LinesRead(ts: seq<Token>) returns (lines: Lines)
    requires Script(ts).Ok?
    ensures FairLines(lines) && WriteLines(lines) == ts && LineTrees(lines) == Script(ts).value
    decreases |ts|
  {
    hide Statement, Fair, Write, Meant;
    if ts == [] {
      lines := NoLines;
    } else {
      var s := TextRead(ts);
      var more := LinesRead(Statement(ts).rest);
      lines := Line(s, more);
    }
  }

  /** A token list is a script of some trees exactly if it is a list of fair texts that mean them. */
  lemma {:induction false} ScriptIs(ts: seq<Token>, ds: Decls)
    ensures Script(ts) == Ok(ds, []) <==>
              exists lines :: FairLines(lines) && WriteLines(lines) == ts && LineTrees(lines) == ds
  {
    hide Script, FairLines, WriteLines, LineTrees;
    if Script(ts) == Ok(ds, []) {
      var lines := LinesRead(ts);
    }
    if lines :| FairLines(lines) && WriteLines(lines) == ts && LineTrees(lines) == ds {
      ReadsLines(lines);
    }
  }
}
