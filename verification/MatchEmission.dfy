/** A `match`'s arms: their end jumps stay unpatched until the last arm is done and are then filled in together. */
module MatchEmission {
  import opened Base
  import opened Syntax
  import opened Bytecode
  import opened CodeGen
  import opened Grammar
  import opened Emission
  import opened ExprEmission
  import opened StmtEmission

  /** Arms before patching: their bytes, where the operands of their end jumps lie, and how many have a pattern. */
  datatype Raw = Raw(o: Out, sites: seq<nat>, arms: nat)

  function Shift(sites: seq<nat>, base: nat): (r: seq<nat>)
    ensures |r| == |sites|
  {
    seq(|sites|, i requires 0 <= i < |sites| => base + sites[i])
  }

  function RawJoin(a: Raw, b: Raw): Raw {
    Raw(Join(a.o, b.o), a.sites + Shift(b.sites, |a.o.code|), a.arms + b.arms)
  }

  function ArmRaw(p: Out, b: Out, cx: Cx): Option<Raw>
    requires |cx.locals| <= |b.locals|
  {
    if |b.code| + 3 > JUMP_MAX then None
    else Some(Raw(ArmOut(p, b, [41, 255, 255], cx), [|p.code| + 3 + |b.code| + 1], 1))
  }

  function DefaultRaw(b: Out, cx: Cx): Raw
    requires |cx.locals| <= |b.locals|
  {
    Raw(Join(b, Plain([41, 255, 255] + Pops(|b.locals| - |cx.locals|), [], cx)), [|b.code| + 1], 0)
  }

  function RawArms(arms: Arms, cx: Cx): (r: Option<Raw>)
    ensures r.Some? ==> r.value.o.locals == cx.locals
    decreases arms
  {
    match arms
    case NoMore => Some(Raw(Plain([], [], cx), [], 0))
    case Default(body) =>
      var b :- CodeArmBody(body, cx);
      Some(DefaultRaw(b, cx))
    case Arm(pattern, body, rest) =>
      var p :- Fragment(pattern, cx.(depth := cx.depth + 1));
      var b :- CodeArmBody(body, PatternCx(p, cx));
      var one :- ArmRaw(p, b, cx);
      var d :- RawArms(rest, After(cx, one.o));
      Some(RawJoin(one, d))
  }

  predicate HasDefault(arms: Arms) {
    match arms
    case NoMore => false
    case Default(_) => true
    case Arm(_, _, rest) => HasDefault(rest)
  }

  /** Without a default arm, one more jump stands at the end, over nothing. */
  function EndJump(arms: Arms): seq<Byte> {
    if HasDefault(arms) then [] else [41, 0, 0]
  }

  ghost predicate SitesFit(sites: seq<nat>, end: nat) {
    forall i :: 0 <= i < |sites| ==> sites[i] + 2 <= end
  }

  ghost predicate Reachable(sites: seq<nat>, end: nat) {
    forall i :: 0 <= i < |sites| ==> end - sites[i] - 2 <= JUMP_MAX
  }

  /** Each site in turn is made to land on the end of the code. */
  function PatchAll(code: seq<Byte>, sites: seq<nat>): (r: seq<Byte>)
    requires SitesFit(sites, |code|) && Reachable(sites, |code|)
    ensures |r| == |code|
    decreases |sites|
  {
    if sites == [] then code
    else PatchAll(Offset(code, sites[0], |code| - sites[0] - 2), sites[1..])
  }

  lemma {:induction false} RawSites(arms: Arms, cx: Cx)
    requires RawArms(arms, cx).Some?
    ensures var r := RawArms(arms, cx).value; SitesFit(r.sites, |r.o.code|)
    ensures RawArms(arms, cx).value.arms == ArmCount(arms)
    decreases arms
  {
    match arms
    case NoMore =>
    case Default(body) =>
    case Arm(pattern, body, rest) =>
      var p := Fragment(pattern, cx.(depth := cx.depth + 1)).value;
      var b := CodeArmBody(body, PatternCx(p, cx)).value;
      var one := ArmRaw(p, b, cx).value;
      RawSites(rest, After(cx, one.o));
  }

  lemma {:induction false} ShiftJoin(one: Raw, d: Raw, base: nat)
    requires |one.sites| == 1
    ensures var s := Shift(RawJoin(one, d).sites, base);
            s != [] && s[0] == base + one.sites[0] && s[1..] == Shift(d.sites, base + |one.o.code|)
  {
  }

  lemma {:induction false} ArmSize(p: Out, b: Out, end: seq<Byte>, cx: Cx)
    requires |cx.locals| <= |b.locals| && |b.code| + 3 <= JUMP_MAX && |end| == 3
    ensures var o := ArmOut(p, b, end, cx);
            && |o.code| == |p.code| + |b.code| + 6 + (|b.locals| - |cx.locals|)
            && o.consts == p.consts + b.consts && o.locals == cx.locals
            && (p.hole == -1 && b.Valid() ==> o.Valid() && (o.hole >= 0 ==> b.hole >= 0))
  {
    assert p.consts + [] + b.consts + [] == p.consts + b.consts;
  }

  /** Patching an arm's end jump in place. */
  lemma {:induction false} ArmPatched(pre: seq<Byte>, p: Out, b: Out, cx: Cx, post: seq<Byte>, off: Short)
    requires |cx.locals| <= |b.locals| && |b.code| + 3 <= JUMP_MAX
    ensures |ArmOut(p, b, [41, 255, 255], cx).code| >= |p.code| + |b.code| + 6
    ensures Offset(pre + ArmOut(p, b, [41, 255, 255], cx).code + post, |pre| + |p.code| + 3 + |b.code| + 1, off)
              == pre + ArmOut(p, b, [41, Hi(off), Lo(off)], cx).code + post
  {
  }

  /** An arm and the arms after it, in their final form. */
  function ArmThen(p: Out, b: Out, rest: Arms, cx: Cx): Option<Out>
    requires |cx.locals| <= |b.locals|
  {
    if |b.code| + 3 > JUMP_MAX then None
    else
      var d :- CodeArms(rest, After(cx, ArmOut(p, b, [41, 255, 255], cx)));
      var n := |b.locals| - |cx.locals| + |d.code|;
      if n > JUMP_MAX then None else Some(Join(ArmOut(p, b, [41, Hi(n), Lo(n)], cx), d))
  }

  lemma {:induction false} ArmCode(pattern: Expr, body: Stmt, rest: Arms, cx: Cx)
    ensures var w := CodeArms(Arm(pattern, body, rest), cx);
            var p := Fragment(pattern, cx.(depth := cx.depth + 1));
            if p.None? then w.None?
            else
              var b := CodeArmBody(body, PatternCx(p.value, cx));
              w == (if b.None? then None else ArmThen(p.value, b.value, rest, cx))
  {
    hide Fragment, CodeArmBody, CodeS, CodeDs, ArmOut, Join, Plain, Pops, After, PatternCx;
  }

  function Unpatched(arms: Arms, raw: Raw, pre: seq<Byte>): seq<Byte> {
    pre + raw.o.code + EndJump(arms)
  }

  /** What patching every end jump at the end makes of the arms: exactly their final form, when every jump fits. */
  ghost predicate PatchesTo(arms: Arms, cx: Cx, raw: Raw, pre: seq<Byte>) {
    var full := Unpatched(arms, raw, pre);
    var sites := Shift(raw.sites, |pre|);
    var w := CodeArms(arms, cx);
    && SitesFit(sites, |full|)
    && (w.Some? <==> Reachable(sites, |full|))
    && (w.Some? ==>
          && PatchAll(full, sites) == pre + w.value.code
          && |w.value.code| == |raw.o.code| + |EndJump(arms)|
          && w.value.consts == raw.o.consts && w.value.locals == raw.o.locals && w.value.hole == raw.o.hole)
  }

  lemma {:induction false} ArmsPatched(arms: Arms, cx: Cx, pre: seq<Byte>)
    requires RawArms(arms, cx).Some?
    ensures PatchesTo(arms, cx, RawArms(arms, cx).value, pre)
    decreases arms, 1
  {
    hide RawArms, CodeArms;
    match arms
    case NoMore => NoArmsPatched(cx, pre);
    case Default(body) => DefaultPatched(body, cx, pre);
    case Arm(pattern, body, rest) => OneArmPatched(pattern, body, rest, cx, pre);
  }

  lemma {:induction false} NoArmsPatched(cx: Cx, pre: seq<Byte>)
    ensures RawArms(NoMore, cx).Some? && PatchesTo(NoMore, cx, RawArms(NoMore, cx).value, pre)
  {
    var raw := RawArms(NoMore, cx).value;
    assert Shift([], |pre|) == [];
    assert pre + [] + [41, 0, 0] == pre + [41, 0, 0];
  }

  lemma {:induction false} DefaultCode(body: Stmt, cx: Cx)
    ensures var b := CodeArmBody(body, cx);
            CodeArms(Default(body), cx) ==
              if b.None? then None
              else
                var n := |b.value.locals| - |cx.locals|;
                if n > JUMP_MAX then None
                else Some(Join(b.value, Plain([41, Hi(n), Lo(n)] + Pops(n), [], cx)))
  {
    hide CodeArmBody, CodeS, CodeDs, Join, Plain, Pops;
  }

  lemma {:induction false} DefaultPatched(body: Stmt, cx: Cx, pre: seq<Byte>)
    requires RawArms(Default(body), cx).Some?
    ensures PatchesTo(Default(body), cx, RawArms(Default(body), cx).value, pre)
  {
    hide CodeArmBody, CodeArms, Pops;
    DefaultCode(body, cx);
    var b := CodeArmBody(body, cx).value;
    var n := |b.locals| - |cx.locals|;
    DefaultSplice(b, cx, pre);
    var raw := DefaultRaw(b, cx);
    var full := Unpatched(Default(body), raw, pre);
    var sites := Shift(raw.sites, |pre|);
    assert full == pre + raw.o.code;
    assert sites == [|pre| + |b.code| + 1];
    OneSite(full, sites[0]);
  }

  lemma {:induction false} OneSite(code: seq<Byte>, site: nat)
    requires site + 2 <= |code|
    ensures SitesFit([site], |code|) && Reachable([site], |code|) == (|code| - site - 2 <= JUMP_MAX)
    ensures |code| - site - 2 <= JUMP_MAX ==> PatchAll(code, [site]) == Offset(code, site, |code| - site - 2)
  {
    assert [site][0] == site;
    if |code| - site - 2 <= JUMP_MAX { assert [site][1..] == []; }
  }

  lemma {:induction false} DefaultSplice(b: Out, cx: Cx, pre: seq<Byte>)
    requires |cx.locals| <= |b.locals|
    ensures var raw := DefaultRaw(b, cx).o;
            var n := |b.locals| - |cx.locals|;
            && |raw.code| == |b.code| + 3 + n
            && (n <= JUMP_MAX ==>
                  Offset(pre + raw.code, |pre| + |b.code| + 1, n)
                    == pre + Join(b, Plain([41, Hi(n), Lo(n)] + Pops(n), [], cx)).code)
  {
    hide Pops;
  }

  lemma {:induction false} OneArmPatched(pattern: Expr, body: Stmt, rest: Arms, cx: Cx, pre: seq<Byte>)
    requires RawArms(Arm(pattern, body, rest), cx).Some?
    ensures PatchesTo(Arm(pattern, body, rest), cx, RawArms(Arm(pattern, body, rest), cx).value, pre)
    decreases Arm(pattern, body, rest), 0
  {
    hide CodeArms, RawArms, CodeArmBody, Fragment, Pops, ArmOut, PatternCx, After, PatchesTo, RawJoin;
    var p, b, one, d := RawParts(pattern, body, rest, cx);
    ArmCode(pattern, body, rest, cx);
    ArmSize(p, b, [41, 255, 255], cx);
    var n := |b.locals| - |cx.locals| + |d.o.code| + |EndJump(rest)|;
    if n > JUMP_MAX {
      ArmsPatched(rest, After(cx, one.o), pre + one.o.code);
      OneArmTooFar(Arm(pattern, body, rest), p, b, one, d, rest, cx, pre);
    } else {
      ArmsPatched(rest, After(cx, one.o), pre + ArmOut(p, b, [41, Hi(n), Lo(n)], cx).code);
      OneArmInReach(Arm(pattern, body, rest), p, b, one, d, rest, cx, pre, n);
    }
  }

  lemma {:induction false} OneArmTooFar(arms: Arms, p: Out, b: Out, one: Raw, d: Raw, rest: Arms, cx: Cx,
      pre: seq<Byte>)
    requires arms.Arm? && arms.rest == rest && |cx.locals| <= |b.locals| && |b.code| + 3 <= JUMP_MAX
    requires ArmRaw(p, b, cx) == Some(one) && CodeArms(arms, cx) == ArmThen(p, b, rest, cx)
    requires PatchesTo(rest, After(cx, one.o), d, pre + one.o.code)
    requires |b.locals| - |cx.locals| + |d.o.code| + |EndJump(rest)| > JUMP_MAX
    ensures PatchesTo(arms, cx, RawJoin(one, d), pre)
  {
    hide CodeArms, Pops, ArmOut, After, EndJump;
    ArmSize(p, b, [41, 255, 255], cx);
    var raw := RawJoin(one, d);
    EndJumpRest(arms);
    ShiftJoin(one, d, |pre|);
    Regroup3(pre, one.o.code, d.o.code, EndJump(rest));
    SitesApart(Shift(raw.sites, |pre|), |Unpatched(arms, raw, pre)|);
  }

  lemma {:induction false} EndJumpRest(arms: Arms)
    requires arms.Arm?
    ensures EndJump(arms) == EndJump(arms.rest)
  {
  }

  lemma {:induction false} OneArmInReach(arms: Arms, p: Out, b: Out, one: Raw, d: Raw, rest: Arms, cx: Cx,
      pre: seq<Byte>, n: Short)
    requires arms.Arm? && arms.rest == rest && |cx.locals| <= |b.locals| && |b.code| + 3 <= JUMP_MAX && p.hole == -1
             && b.Valid()
    requires ArmRaw(p, b, cx) == Some(one) && CodeArms(arms, cx) == ArmThen(p, b, rest, cx)
    requires n == |b.locals| - |cx.locals| + |d.o.code| + |EndJump(rest)|
    requires PatchesTo(rest, After(cx, one.o), d, pre + ArmOut(p, b, [41, Hi(n), Lo(n)], cx).code)
    ensures PatchesTo(arms, cx, RawJoin(one, d), pre)
  {
    hide CodeArms, Pops, ArmOut, After, EndJump, Offset, Hi, Lo, PatchAll;
    var o := ArmOut(p, b, [41, Hi(n), Lo(n)], cx);
    var raw := RawJoin(one, d);
    ArmSize(p, b, [41, 255, 255], cx);
    ArmSize(p, b, [41, Hi(n), Lo(n)], cx);
    ArmHoles(p, b, cx, n);
    EndJumpRest(arms);
    ShiftJoin(one, d, |pre|);
    Regroup3(pre, one.o.code, d.o.code, EndJump(rest));
    Regroup3(pre, o.code, d.o.code, EndJump(rest));
    ArmPatched(pre, p, b, cx, d.o.code + EndJump(rest), n);
    var sites := Shift(raw.sites, |pre|);
    var full := Unpatched(arms, raw, pre);
    SitesApart(sites, |full|);
    var w := CodeArms(rest, After(cx, one.o));
    if w.Some? { PatchFirst(full, sites, pre, o.code, w.value.code, Unpatched(rest, d, pre + o.code)); }
  }

  lemma {:induction false} ArmHoles(p: Out, b: Out, cx: Cx, n: Short)
    requires |cx.locals| <= |b.locals| && |b.code| + 3 <= JUMP_MAX
    ensures ArmOut(p, b, [41, Hi(n), Lo(n)], cx).hole == ArmOut(p, b, [41, 255, 255], cx).hole
  {
  }

  lemma {:induction false} RawParts(pattern: Expr, body: Stmt, rest: Arms, cx: Cx)
      returns (p: Out, b: Out, one: Raw, d: Raw)
    requires RawArms(Arm(pattern, body, rest), cx).Some?
    ensures Fragment(pattern, cx.(depth := cx.depth + 1)) == Some(p) && p.hole == -1
    ensures CodeArmBody(body, PatternCx(p, cx)) == Some(b) && |cx.locals| <= |b.locals| && |b.code| + 3 <= JUMP_MAX
            && b.Valid()
    ensures ArmRaw(p, b, cx) == Some(one) && RawArms(rest, After(cx, one.o)) == Some(d)
    ensures RawArms(Arm(pattern, body, rest), cx).value == RawJoin(one, d)
  {
    hide CodeArmBody, Fragment, After, RawJoin;
    p := Fragment(pattern, cx.(depth := cx.depth + 1)).value;
    b := CodeArmBody(body, PatternCx(p, cx)).value;
    one := ArmRaw(p, b, cx).value;
    d := RawArms(rest, After(cx, one.o)).value;
  }

  lemma {:induction false} Regroup3(a: seq<Byte>, b: seq<Byte>, c: seq<Byte>, d: seq<Byte>)
    ensures a + (b + c) + d == a + b + c + d && a + b + (c + d) == a + b + c + d
  {
  }

  lemma {:induction false} SitesApart(sites: seq<nat>, end: nat)
    requires sites != []
    ensures SitesFit(sites, end) == (sites[0] + 2 <= end && SitesFit(sites[1..], end))
    ensures Reachable(sites, end) == (end - sites[0] - 2 <= JUMP_MAX && Reachable(sites[1..], end))
  {
    forall i | 0 < i < |sites| ensures sites[i] == sites[1..][i - 1] {}
    assert forall i :: 0 <= i < |sites| - 1 ==> sites[1..][i] == sites[i + 1];
  }

  lemma {:induction false} PatchFirst(full: seq<Byte>, sites: seq<nat>, pre: seq<Byte>, one: seq<Byte>, w: seq<Byte>,
      next: seq<Byte>)
    requires sites != [] && SitesFit(sites, |full|) && Reachable(sites, |full|) && |next| == |full|
    requires Offset(full, sites[0], |full| - sites[0] - 2) == next
    requires SitesFit(sites[1..], |full|) && Reachable(sites[1..], |full|)
    requires PatchAll(next, sites[1..]) == pre + one + w
    ensures PatchAll(full, sites) == pre + (one + w)
  {
    Regroup(pre, one, w);
  }

  lemma {:induction false} RawNone(arms: Arms, cx: Cx)
    requires RawArms(arms, cx).None?
    ensures CodeArms(arms, cx).None?
    decreases arms
  {
    hide Fragment, CodeArmBody, CodeArms, ArmOut, PatternCx, After;
    match arms
    case NoMore =>
    case Default(body) => DefaultCode(body, cx);
    case Arm(pattern, body, rest) =>
      ArmCode(pattern, body, rest, cx);
      var p := Fragment(pattern, cx.(depth := cx.depth + 1));
      if p.Some? {
        var b := CodeArmBody(body, PatternCx(p.value, cx));
        if b.Some? && ArmRaw(p.value, b.value, cx).Some? {
          RawNone(rest, After(cx, ArmRaw(p.value, b.value, cx).value.o));
        }
      }
  }

  /** Unpatched arms and the tokens after their closing brace. */
  datatype RawEmission = RawEmits(raw: Raw, rest: seq<Token>, closed: bool) | RawFails

  function RawOf(r: Parsed<Arms>, cx: Cx): (e: RawEmission)
    ensures e.RawEmits? ==>
              r.Ok? && e.rest == r.rest && RawArms(r.value, cx) == Some(e.raw) && e.closed == HasDefault(r.value)
  {
    if r.Failure? then RawFails
    else
      var raw := RawArms(r.value, cx);
      if raw.None? then RawFails else RawEmits(raw.value, r.rest, HasDefault(r.value))
  }

  function RawThen(a: Raw, e: RawEmission): RawEmission {
    if e.RawEmits? then RawEmits(RawJoin(a, e.raw), e.rest, e.closed) else RawFails
  }

  lemma {:induction false} RawThenThen(a: Raw, b: Raw, e: RawEmission)
    ensures RawThen(a, RawThen(b, e)) == RawThen(RawJoin(a, b), e)
  {
    if e.RawEmits? {
      JoinAssociates(a.o, b.o, e.raw.o);
      var l, r := RawJoin(a, RawJoin(b, e.raw)).sites, RawJoin(RawJoin(a, b), e.raw).sites;
      assert l == r;
    }
  }

  /** After the pattern and the body of an arm. */
  lemma {:induction false} ArmIs(ts: seq<Token>, cx: Cx)
    requires ts != [] && ts[0] != RBrace && ts[0] != Underscore
    ensures var p := CodeOfE(Expect(Expression(ts), FatArrow), cx.(depth := cx.depth + 1));
            var w := RawOf(MatchArms(ts), cx);
            if p.Fails? then w.RawFails?
            else
              var b := CodeOfBody(ArmBody(p.rest), PatternCx(p.o, cx));
              if b.Fails? || ArmRaw(p.o, b.o, cx).None? then w.RawFails?
              else
                var one := ArmRaw(p.o, b.o, cx).value;
                w == RawThen(one, RawOf(MatchArms(SkipOne(SkipOne(b.rest, Comma), Comma)), After(cx, one.o)))
  {
    hide Fragment, CodeArmBody, ArmRaw, PatternCx, After, Expression, ArmBody, RawJoin;
    var p := Expect(Expression(ts), FatArrow);
    if p.Ok? {
      var b := ArmBody(p.rest);
      if b.Ok? {
        var r := MatchArms(SkipOne(SkipOne(b.rest, Comma), Comma));
      }
    }
  }

  lemma {:induction false} DefaultIs(ts: seq<Token>, cx: Cx)
    requires Starts(ts, Underscore)
    ensures var w := RawOf(MatchArms(ts), cx);
            if !Starts(ts[1..], FatArrow) then w.RawFails?
            else
              var b := CodeOfBody(ArmBody(ts[1..][1..]), cx);
              if b.Fails? then w.RawFails?
              else
                var after := SkipOne(b.rest, Comma);
                w == (if Starts(after, RBrace) then RawEmits(DefaultRaw(b.o, cx), after[1..], true) else RawFails)
  {
    hide CodeArmBody, ArmBody, DefaultRaw;
    if Starts(ts[1..], FatArrow) { assert ts[1..][1..] == ts[2..]; }
  }

  lemma {:induction false} ArmsEnd(ts: seq<Token>, cx: Cx)
    requires ts == [] || ts[0] == RBrace
    ensures RawOf(MatchArms(ts), cx) == (if ts == [] then RawFails
            else RawEmits(Raw(Plain([], [], cx), [], 0), ts[1..], false))
  {
  }

  lemma {:induction false} RawThenNothing(a: Raw, ts: seq<Token>, cx: Cx)
    requires a.o.Valid() && a.o.locals == cx.locals
    ensures RawThen(a, RawEmits(Raw(Plain([], [], cx), [], 0), ts, false)) == RawEmits(a, ts, false)
  {
    assert a.o.code + [] == a.o.code;
    assert a.o.consts + [] == a.o.consts;
    assert a.sites + Shift([], |a.o.code|) == a.sites;
  }

  lemma {:induction false} NotBlocks(ts: seq<Token>)
    ensures Starts(ts, MatchT) && MatchStatement(ts[1..]).Ok? ==> MatchStatement(ts[1..]).value.Match?
    ensures Starts(ts, LoopT) && Statement(ts).Ok? ==> Statement(ts).value.Loop?
    ensures ExprStatement(ts).Ok? ==> ExprStatement(ts).value.ExprS?
  {
    hide BlockItems, Expression, Condition, MatchArms, For;
  }

  /** Which way an arm's body is emitted. */
  lemma {:induction false} BodyIs(ts: seq<Token>, cx: Cx)
    ensures var inner := cx.(depth := cx.depth + 1);
            var w := CodeOfBody(ArmBody(ts), cx);
            && (Starts(ts, LBrace) ==> w == CodeOfDs(BlockItems(ts[1..]), inner))
            && (Starts(ts, MatchT) ==> w == CodeOf(MatchStatement(ts[1..]), inner))
            && (Starts(ts, LoopT) ==> w == CodeOf(Statement(ts), inner))
            && (!Starts(ts, LBrace) && !Starts(ts, MatchT) && !Starts(ts, LoopT) ==>
                w == CodeOf(ExprStatement(ts), inner))
  {
    hide CodeS, CodeDs, BlockItems, Expression, Condition, MatchArms;
    NotBlocks(ts);
    hide MatchStatement, ExprStatement, For, IfStatement;
  }

  /** What an arm's body leaves in scope: the locals before it, then its own, one level deeper. */
  lemma {:induction false} BodyLocals(r: Parsed<Stmt>, cx: Cx)
    requires CodeOfBody(r, cx).Emits? && |cx.locals| <= LOCALS_MAX
    ensures var b := CodeOfBody(r, cx).o;
            && b.Valid() && |cx.locals| <= |b.locals| <= LOCALS_MAX && b.locals[..|cx.locals|] == cx.locals
            && (forall i :: |cx.locals| <= i < |b.locals| ==> b.locals[i].depth == cx.depth + 1)
            && (b.hole >= 0 ==> cx.loop.InLoop? && !cx.loop.broken)
  {
    hide CodeS, CodeDs;
    var inner := cx.(depth := cx.depth + 1);
    if r.value.Block? { NewLocals(r.value.ds, inner); }
  }

  ghost predicate Opens(s: Snap, b: Out) {
    && b.Valid() && |s.locals| <= |b.locals| <= LOCALS_MAX && b.locals[..|s.locals|] == s.locals
    && (forall i :: |s.locals| <= i < |b.locals| ==> b.locals[i].depth == s.depth + 1)
  }

  /** Closing an arm's scope, after its end jump. */
  lemma {:induction false} ArmScope(s: Snap, o: Out, b: Out, ts: seq<Token>, end: seq<Byte>)
    requires s.Valid() && Opens(s, b) && o.locals == b.locals
    ensures var n := Trailing(b.locals, s.depth);
            var q := Emit(s.(depth := s.depth + 1), o, ts).Put(end);
            var d := Join(o, Plain(end + Pops(n), [], Context(s)));
            && n == |b.locals| - |s.locals|
            && q.Put(Pops(n)).(locals := b.locals[..|b.locals| - n], depth := s.depth) == Emit(s, d, ts)
            && Emit(s, d, ts).Valid()
  {
    hide Pops;
    forall i | 0 <= i < |s.locals| ensures b.locals[i].depth <= s.depth {
      assert b.locals[..|s.locals|][i] == s.locals[i];
    }
    var n := |b.locals| - |s.locals|;
    TrailingIs(b.locals, s.depth, n);
    assert s.consts + o.consts == s.consts + (o.consts + []);
    assert s.code + o.code + end + Pops(n) == s.code + (o.code + (end + Pops(n)));
  }

  lemma {:induction false} ArmTest(s: Snap, p: Out, t: seq<Token>, b: Out, ts: seq<Token>, cx: Cx)
    requires p.hole == -1 && b.Valid() && p.locals == s.locals == cx.locals
    ensures var q := Emit(Emit(s, p, t).Put([40, 255, 255]), b, ts).Put([41, 255, 255]);
            var off := |b.code| + 3;
            && |q.code| - (|s.code| + |p.code| + 1) - 2 == off
            && (off <= JUMP_MAX ==>
                  q.Patched(|s.code| + |p.code| + 1)
                    == Emit(s, Join(Join(p, Plain([40, Hi(off), Lo(off)], [], cx)), b), ts).Put([41, 255, 255]))
  {
    hide Offset;
    if |b.code| + 3 <= JUMP_MAX {
      var q1 := Emit(s, p, t).Put([40, 255, 255]);
      assert q1.Put([]) == q1;
      PatchOver(s, p, t, 40, [], b, [41, 255, 255], ts, cx);
      var off := |b.code| + 3;
      assert [40, Hi(off), Lo(off)] + [] == [40, Hi(off), Lo(off)];
    }
  }

  lemma {:induction false} ArmBodyContext(s: Snap, p: Out, t: seq<Token>, ts: seq<Token>)
    requires s.Valid() && p.locals == s.locals && p.hole == -1
    ensures var q := Emit(s.(depth := s.depth + 1), p, t).Put([40, 255, 255]).Past(ts);
            q.Valid() && Context(q) == PatternCx(p, Context(s)).(depth := s.depth + 1)
  {
  }

  lemma {:induction false} ArmOutIs(p: Out, b: Out, cx: Cx)
    requires |cx.locals| <= |b.locals| && |b.code| + 3 <= JUMP_MAX
    ensures var off := |b.code| + 3;
            var n := |b.locals| - |cx.locals|;
            ArmRaw(p, b, cx) ==
              Some(Raw(Join(Join(Join(p, Plain([40, Hi(off), Lo(off)], [], cx)), b),
                  Plain([41, 255, 255] + Pops(n), [], cx)),
                       [|p.code| + 3 + |b.code| + 1], 1))
  {
  }

  /** One arm done: emitted with its end jump open, and the list's emission is this arm's and then the rest's. */
  ghost predicate ArmDone(before: Snap, after: Snap, one: Raw, site: nat, whole: RawEmission, next: RawEmission)
    requires before.Valid()
  {
    && after == Emit(before, one.o, after.rest) && after.Valid() && |after.rest| < |before.rest|
    && one.o.Valid() && one.o.locals == before.locals
    && (one.o.hole >= 0 ==> Context(before).loop.InLoop? && !Context(before).loop.broken)
    && one.sites == [site - |before.code|] && site >= |before.code|
    && whole == RawThen(one, next)
  }

  /** One arm with a pattern: it is done and the rest of the arms follows it, or the whole list fails to compile. */
  ghost predicate MemberParsed(ok: bool, before: Snap, after: Snap, one: Raw, site: nat)
    requires before.Valid()
  {
    if !ok then RawOf(MatchArms(before.rest), Context(before)).RawFails?
    else
      && one.arms == 1
      && ArmDone(before, after, one, site, RawOf(MatchArms(before.rest), Context(before)),
                 RawOf(MatchArms(SkipOne(SkipOne(after.rest, Comma), Comma)), After(Context(before), one.o)))
  }

  lemma {:induction false} MemberMeans(ok: bool, before: Snap, after: Snap, one: Raw, site: nat)
    requires before.Valid() && MemberParsed(ok, before, after, one, site)
    ensures !ok ==> RawOf(MatchArms(before.rest), Context(before)).RawFails?
    ensures ok ==> one.arms == 1 && ArmDone(before, after, one, site, RawOf(MatchArms(before.rest), Context(before)),
                                            RawOf(MatchArms(SkipOne(SkipOne(after.rest, Comma), Comma)),
                                                After(Context(before), one.o)))
  {
  }

  lemma {:induction false} MemberFails(s: Snap, after: Snap, one: Raw, site: nat)
    requires s.Valid() && s.rest != [] && s.rest[0] != RBrace && s.rest[0] != Underscore
    requires CodeOfE(Expect(Expression(s.rest), FatArrow), Context(s).(depth := s.depth + 1)).Fails?
    ensures MemberParsed(false, s, after, one, site)
  {
    hide CodeOfE, CodeOfBody, MatchArms, RawOf, RawThen, ArmRaw, ArmDone, PatternCx, Context, ArmBody, Expression;
    ArmIs(s.rest, Context(s));
  }

  lemma {:induction false} MemberDone(s: Snap, after: Snap, p: Out, mid: seq<Token>, one: Raw, site: nat, ok: bool)
    requires s.Valid() && s.rest != [] && s.rest[0] != RBrace && s.rest[0] != Underscore
    requires CodeOfE(Expect(Expression(s.rest), FatArrow), Context(s).(depth := s.depth + 1)) == Emits(p, mid)
    requires var b := CodeOfBody(ArmBody(mid), PatternCx(p, Context(s)));
             && (!ok ==> b.Fails? || ArmRaw(p, b.o, Context(s)).None?)
             && (ok ==>
                   && b.Emits? && ArmRaw(p, b.o, Context(s)) == Some(one) && one.arms == 1
                   && after.rest == b.rest
                   && forall whole, next :: whole == RawThen(one, next) ==> ArmDone(s, after, one, site, whole, next))
    ensures MemberParsed(ok, s, after, one, site)
  {
    hide CodeOfE, CodeOfBody, MatchArms, RawOf, RawThen, ArmRaw, ArmDone, PatternCx, Context, ArmBody, Expression,
        SkipOne, After, Emit, Expect;
    ArmIs(s.rest, Context(s));
  }

  lemma {:induction false} OpensParts(s: Snap, b: Out)
    requires Opens(s, b)
    ensures b.Valid() && |s.locals| <= |b.locals|
  {
  }

  lemma {:induction false} BodyFits(r: Parsed<Stmt>, p: Out, s: Snap)
    requires s.Valid() && p.locals == s.locals && p.hole == -1 && CodeOfBody(r, PatternCx(p, Context(s))).Emits?
    ensures Opens(s, CodeOfBody(r, PatternCx(p, Context(s))).o)
    ensures CodeOfBody(r, PatternCx(p, Context(s))).o.hole >= 0 ==> Context(s).loop.InLoop? && !Context(s).loop.broken
  {
    hide CodeOfBody;
    BodyLocals(r, PatternCx(p, Context(s)));
  }

  lemma {:induction false} ArmIsDone(before: Snap, after: Snap, p: Out, b: Out, site: nat, whole: RawEmission,
      next: RawEmission, ts: seq<Token>)
    requires before.Valid() && p.Valid() && p.hole == -1 && Opens(before, b) && ArmRaw(p, b, Context(before)).Some?
    requires b.hole >= 0 ==> Context(before).loop.InLoop? && !Context(before).loop.broken
    requires var one := ArmRaw(p, b, Context(before)).value;
             after == Emit(before, one.o, ts) && after.Valid() && whole == RawThen(one, next)
    requires |ts| < |before.rest| && site == |before.code| + |p.code| + 3 + |b.code| + 1
    ensures ArmDone(before, after, ArmRaw(p, b, Context(before)).value, site, whole, next)
  {
    hide Emit, RawThen, ArmOut, Context;
    ArmSize(p, b, [41, 255, 255], Context(before));
  }

  lemma {:induction false} BodyShrinks(ts: seq<Token>, cx: Cx)
    ensures var e := CodeOfBody(ArmBody(ts), cx); e.Emits? ==> |e.rest| < |ts|
  {
    hide CodeArmBody;
  }

  lemma {:induction false} DefaultFits(r: Parsed<Stmt>, s: Snap)
    requires s.Valid() && CodeOfBody(r, Context(s)).Emits?
    ensures Opens(s, CodeOfBody(r, Context(s)).o) && |s.locals| <= |CodeOfBody(r, Context(s)).o.locals|
    ensures CodeOfBody(r, Context(s)).o.hole >= 0 ==> Context(s).loop.InLoop? && !Context(s).loop.broken
  {
    hide CodeOfBody;
    BodyLocals(r, Context(s));
  }

  lemma {:induction false} DefaultParts(b: Out, cx: Cx)
    requires b.Valid() && |cx.locals| <= |b.locals|
    ensures var one := DefaultRaw(b, cx);
            && one.o == Join(b, Plain([41, 255, 255] + Pops(|b.locals| - |cx.locals|), [], cx)) && one.o.Valid()
            && one.o.locals == cx.locals && one.sites == [|b.code| + 1] && one.arms == 0
            && (one.o.hole >= 0 ==> b.hole >= 0)
  {
  }

  /** What the arms read so far have left, and what is still to come. */
  ghost predicate ArmsSoFar(s0: Snap, now: Snap, all: Raw, stack: seq<nat>, whole: RawEmission) {
    && s0.Valid() && now.Valid() && now == Emit(s0, all.o, now.rest) && |now.rest| <= |s0.rest|
    && all.o.Valid() && all.o.locals == s0.locals
    && (all.o.hole >= 0 ==> Context(s0).loop.InLoop? && !Context(s0).loop.broken)
    && stack == Shift(all.sites, |s0.code|)
    && whole == RawThen(all, RawOf(MatchArms(now.rest), Context(now)))
  }

  /** What reading all the arms comes to; the closing brace is still to be read. */
  ghost predicate ArmsParsed(ok: bool, s0: Snap, now: Snap, stack: seq<nat>, hasDefault: bool, all: Raw,
      whole: RawEmission) {
    if !ok then whole.RawFails? || whole.raw.arms >= 256
    else
      && s0.Valid() && now.Valid() && now == Emit(s0, all.o, now.rest) && |now.rest| <= |s0.rest|
      && all.o.Valid() && all.o.locals == s0.locals && all.arms < 256
      && (all.o.hole >= 0 ==> Context(s0).loop.InLoop? && !Context(s0).loop.broken)
      && stack == Shift(all.sites, |s0.code|)
      && whole == (if Starts(now.rest, RBrace) then RawEmits(all, now.rest[1..], hasDefault) else RawFails)
  }

  lemma {:induction false} NoArmsYet(s: Snap, whole: RawEmission)
    requires s.Valid() && whole == RawOf(MatchArms(s.rest), Context(s))
    ensures ArmsSoFar(s, s, Raw(Plain([], [], Context(s)), [], 0), [], whole)
  {
    hide MatchArms, RawArms;
    EmitPlain(s, [], s.rest);
    assert s.code + [] == s.code;
    assert Shift([], |s.code|) == [];
    if whole.RawEmits? {
      RawValid(MatchArms(s.rest), Context(s));
      EmptyJoin(whole.raw.o, Context(s));
      assert [] + Shift(whole.raw.sites, 0) == whole.raw.sites;
    }
  }

  lemma {:induction false} RawArmsValid(arms: Arms, cx: Cx)
    requires RawArms(arms, cx).Some?
    ensures RawArms(arms, cx).value.o.Valid()
    decreases arms
  {
    hide Fragment, CodeArmBody, ArmOut, PatternCx, After;
    match arms
    case NoMore =>
    case Default(body) =>
    case Arm(pattern, body, rest) =>
      var p, b, one, d := RawParts(pattern, body, rest, cx);
      RawArmsValid(rest, After(cx, one.o));
      ArmSize(p, b, [41, 255, 255], cx);
      JoinKeeps(one.o, d.o);
  }

  lemma {:induction false} RawValid(r: Parsed<Arms>, cx: Cx)
    ensures var e := RawOf(r, cx); e.RawEmits? ==> e.raw.o.Valid()
  {
    hide RawArms;
    if RawOf(r, cx).RawEmits? { RawArmsValid(r.value, cx); }
  }

  lemma {:induction false} FailsRaw(a: Raw, e: RawEmission)
    ensures e.RawFails? ==> RawThen(a, e).RawFails?
  {
  }

  lemma {:induction false} TooManyArms(a: Raw, e: RawEmission)
    requires a.arms >= 256
    ensures var w := RawThen(a, e); w.RawFails? || w.raw.arms >= 256
  {
  }

  lemma {:induction false} AllArms(s0: Snap, now: Snap, all: Raw, whole: RawEmission)
    requires now.Valid() && all.o.Valid() && all.o.locals == now.locals
    requires whole == RawThen(all, RawOf(MatchArms(now.rest), Context(now)))
    requires now.rest == [] || now.rest[0] == RBrace
    ensures whole == (if Starts(now.rest, RBrace) then RawEmits(all, now.rest[1..], false) else RawFails)
  {
    hide RawThen, RawOf, MatchArms, RawJoin;
    ArmsEnd(now.rest, Context(now));
    if now.rest != [] { RawThenNothing(all, now.rest[1..], Context(now)); } else { FailsRaw(all, RawFails); }
  }

  /** The bookkeeping of one more arm. */
  lemma {:induction false} JoinArm(s0: Snap, s1: Snap, s2: Snap, all: Raw, one: Raw, site: nat, stack: seq<nat>)
    requires s0.Valid() && s1.Valid() && s1 == Emit(s0, all.o, s1.rest) && all.o.Valid() && all.o.locals == s0.locals
    requires all.o.hole >= 0 ==> Context(s0).loop.InLoop? && !Context(s0).loop.broken
    requires s2 == Emit(s1, one.o, s2.rest) && s2.Valid() && one.o.Valid() && one.o.locals == s1.locals
    requires one.o.hole >= 0 ==> Context(s1).loop.InLoop? && !Context(s1).loop.broken
    requires one.sites == [site - |s1.code|] && site >= |s1.code| && stack == Shift(all.sites, |s0.code|) + [site]
    ensures var j := RawJoin(all, one);
            && s2 == Emit(s0, j.o, s2.rest) && j.o.Valid() && j.o.locals == s0.locals
            && (j.o.hole >= 0 ==> Context(s0).loop.InLoop? && !Context(s0).loop.broken)
            && stack == Shift(j.sites, |s0.code|) && j.arms == all.arms + one.arms
            && Context(s2) == After(Context(s1), one.o)
  {
    hide Emit, Context, Join;
    EmitContext(s0, all.o, s1.rest);
    EmitContext(s1, one.o, s2.rest);
    HoleFits(s0, all.o, s1.rest);
    EmitJoin(s0, all.o, s1.rest, one.o, s2.rest);
    JoinKeeps(all.o, one.o);
    BeforeHole(Context(s0), all.o);
    var j := RawJoin(all, one);
    assert Shift(j.sites, |s0.code|) == Shift(all.sites, |s0.code|) + [site];
    assert Join(all.o, one.o).locals == one.o.locals by { JoinLocals(all.o, one.o); }
  }

  lemma {:induction false} JoinLocals(a: Out, b: Out)
    ensures Join(a, b).locals == b.locals
  {
  }

  lemma {:induction false} BeforeHole(cx: Cx, o: Out)
    ensures After(cx, o).loop.InLoop? && !After(cx, o).loop.broken ==> cx.loop.InLoop? && !cx.loop.broken
  {
  }

  /** The default arm done. */
  ghost predicate DefaultAt(before: Snap, after: Snap, one: Raw, site: nat)
    requires before.Valid()
  {
    && after == Emit(before, one.o, after.rest) && after.Valid() && one.arms == 0
    && one.o.Valid() && one.o.locals == before.locals
    && (one.o.hole >= 0 ==> Context(before).loop.InLoop? && !Context(before).loop.broken)
    && one.sites == [site - |before.code|] && site >= |before.code|
  }

  lemma {:induction false} DefaultPast(before: Snap, t: seq<Token>, after: Snap, one: Raw, site: nat, ts: seq<Token>)
    requires before.Valid() && before.Past(t).Valid() && DefaultAt(before.Past(t), after, one, site)
    ensures after.Past(ts).Valid() && DefaultAt(before, after.Past(ts), one, site)
  {
  }

  lemma {:induction false} DefaultIsAt(s: Snap, b: Out, ts: seq<Token>, site: nat)
    requires s.Valid() && Opens(s, b) && |s.locals| <= |b.locals| && site == |s.code| + |b.code| + 1
    requires b.hole >= 0 ==> Context(s).loop.InLoop? && !Context(s).loop.broken
    requires Emit(s, DefaultRaw(b, Context(s)).o, ts).Valid()
    ensures DefaultAt(s, Emit(s, DefaultRaw(b, Context(s)).o, ts), DefaultRaw(b, Context(s)), site)
  {
    hide DefaultRaw, Context;
    DefaultParts(b, Context(s));
  }

  lemma {:induction false} MemberJoins(s0: Snap, s1: Snap, s2: Snap, now: Snap, all: Raw, one: Raw, site: nat,
      stack: seq<nat>, whole: RawEmission)
    requires stack != [] && stack[|stack| - 1] == site && ArmsSoFar(s0, s1, all, stack[..|stack| - 1], whole)
    requires ArmDone(s1, s2, one, site, RawOf(MatchArms(s1.rest), Context(s1)),
                     RawOf(MatchArms(SkipOne(SkipOne(s2.rest, Comma), Comma)), After(Context(s1), one.o)))
    requires now == s2.Past(SkipOne(SkipOne(s2.rest, Comma), Comma))
    ensures ArmsSoFar(s0, now, RawJoin(all, one), stack, whole) && |now.rest| < |s1.rest| && now.Valid()
  {
    hide Emit, Context, RawOf, MatchArms, RawThen, After, RawJoin, Shift;
    assert stack == stack[..|stack| - 1] + [site];
    JoinArm(s0, s1, s2, all, one, site, stack);
    var j := RawJoin(all, one);
    EmitPast(s0, s2.rest, j.o, now.rest);
    PutContext(s2, [], now.rest);
    RawThenThen(all, one, RawOf(MatchArms(now.rest), Context(now)));
  }

  lemma {:induction false} DefaultDone(s0: Snap, s1: Snap, now: Snap, all: Raw, one: Raw, site: nat, stack: seq<nat>,
      whole: RawEmission, ts: seq<Token>)
    requires stack != [] && stack[|stack| - 1] == site && ArmsSoFar(s0, s1, all, stack[..|stack| - 1], whole)
    requires s1.Valid() && |now.rest| < |s1.rest| && all.arms < 256 && DefaultAt(s1, now, one, site)
    requires RawOf(MatchArms(s1.rest), Context(s1)) ==
               (if Starts(now.rest, RBrace) then RawEmits(one, now.rest[1..], true) else RawFails)
    ensures ArmsParsed(true, s0, now, stack, true, RawJoin(all, one), whole)
  {
    hide Emit, Context, RawOf, MatchArms, After, RawJoin, Shift;
    assert stack == stack[..|stack| - 1] + [site];
    JoinArm(s0, s1, now, all, one, site, stack);
  }

  lemma {:induction false} SoFarFails(s0: Snap, s1: Snap, all: Raw, stack: seq<nat>, whole: RawEmission)
    requires ArmsSoFar(s0, s1, all, stack, whole)
    ensures RawOf(MatchArms(s1.rest), Context(s1)).RawFails? ==> whole.RawFails?
  {
    hide RawOf, MatchArms, Context;
  }

  lemma {:induction false} ParsedFails(s0: Snap, whole: RawEmission)
    ensures whole.RawFails? ==>
              forall now, stack, hasDefault, all :: ArmsParsed(false, s0, now, stack, hasDefault, all, whole)
  {
  }

  lemma {:induction false} SoFarTooMany(s0: Snap, now: Snap, all: Raw, stack: seq<nat>, whole: RawEmission)
    requires ArmsSoFar(s0, now, all, stack, whole) && all.arms >= 256
    ensures whole.RawFails? || whole.raw.arms >= 256
  {
    hide RawOf, MatchArms, Context;
    TooManyArms(all, RawOf(MatchArms(now.rest), Context(now)));
  }

  lemma {:induction false} SoFarEnds(s0: Snap, now: Snap, all: Raw, stack: seq<nat>, whole: RawEmission)
    requires ArmsSoFar(s0, now, all, stack, whole) && all.arms < 256 && (now.rest == [] || now.rest[0] == RBrace)
    ensures ArmsParsed(true, s0, now, stack, false, all, whole)
  {
    hide RawOf, MatchArms, Context, RawThen;
    AllArms(s0, now, all, whole);
  }

  lemma {:induction false} JoinCount(a: Raw, b: Raw)
    ensures RawJoin(a, b).arms == a.arms + b.arms
  {
  }

  function ArmsCx(a: Out, cx: Cx): Cx {
    var cx0 := cx.(depth := cx.depth + 1);
    After(cx0, Join(a, Plain([50, 255, 255], [], cx0)))
  }

  function MatchEnd(cx: Cx, a: Out, arms: Arms): Option<Out>
    requires a.Valid() && a.hole == -1
  {
    var b :- CodeArms(arms, ArmsCx(a, cx));
    MatchOut(cx, a, b)
  }

  lemma {:induction false} MatchCode(e: Expr, arms: Arms, cx: Cx)
    ensures var a := Fragment(e, cx.(depth := cx.depth + 1));
            CodeS(Match(e, arms), cx) ==
              (if a.None? || ArmCount(arms) >= 256 then None else MatchEnd(cx, a.value, arms))
  {
    hide Fragment, CodeArms, MatchOut, Join, Plain, After;
  }

  lemma {:induction false} MatchIs(ts: seq<Token>, cx: Cx)
    ensures var e := CodeOfE(Expect(Condition(ts), LBrace), cx.(depth := cx.depth + 1));
            var w := CodeOf(MatchStatement(ts), cx);
            if e.Fails? then w.Fails?
            else
              var r := RawOf(MatchArms(e.rest), ArmsCx(e.o, cx));
              if r.RawFails? || r.raw.arms >= 256 then w.Fails?
              else w == OrFails(MatchEnd(cx, e.o, MatchArms(e.rest).value), r.rest)
  {
    hide Fragment, CodeArms, RawArms, MatchOut, ArmsCx, Condition, MatchArms, CodeS;
    var e := Expect(Condition(ts), LBrace);
    if e.Ok? && Fragment(e.value, cx.(depth := cx.depth + 1)).Some? {
      var arms := MatchArms(e.rest);
      var a := Fragment(e.value, cx.(depth := cx.depth + 1)).value;
      if arms.Ok? {
        MatchCode(e.value, arms.value, cx);
        if RawArms(arms.value, ArmsCx(a, cx)).Some? {
          RawSites(arms.value, ArmsCx(a, cx));
        } else {
          RawNone(arms.value, ArmsCx(a, cx));
        }
      }
    } else if e.Ok? {
      var arms := MatchArms(e.rest);
      if arms.Ok? { MatchCode(e.value, arms.value, cx); }
    }
  }

  /** The match operand, patched once the arms and what ends them are emitted. */
  lemma {:induction false} MatchHead(s: Snap, o: Out, ts: seq<Token>, ending: seq<Byte>)
    requires o.Valid()
    ensures var n := |o.code| + |ending|;
            var x := Emit(s.Put([50, 255, 255]), o, ts).Put(ending);
            && |x.code| - (|s.code| + 1) - 2 == n
            && (n <= JUMP_MAX ==> x.Patched(|s.code| + 1) == Emit(s.Put([50, Hi(n), Lo(n)]), o, ts).Put(ending))
  {
    hide Offset;
    var n := |o.code| + |ending|;
    if n <= JUMP_MAX {
      var cx := Cx(o.locals, 0, 0, NoLoop);
      var m := Join(o, Plain(ending, [], cx));
      PutJoin(s.Put([50, 255, 255]), o, ts, ending, cx);
      PutJoin(s.Put([50, Hi(n), Lo(n)]), o, ts, ending, cx);
      PatchAfter(s, 50, m, ts);
    }
  }

  lemma {:induction false} EndPatched(y: Snap)
    ensures var x := y.Put([41, 255, 255]);
            |x.code| - (|y.code| + 1) - 2 == 0 && x.Patched(|y.code| + 1) == y.Put([41, 0, 0])
  {
    assert Offset(y.code + [41, 255, 255], |y.code| + 1, 0) == y.code + [41, 0, 0];
  }

  /** The whole `match`, once its arms are patched and its value is popped. */
  lemma {:induction false} MatchDone(s: Snap, a: Out, t: seq<Token>, raw: Raw, arms: Arms, ts: seq<Token>,
      ts1: seq<Token>, pre: seq<Byte>)
    requires s.Valid() && a.Valid() && a.hole == -1 && a.locals == s.locals
    requires RawArms(arms, ArmsCx(a, Context(s))) == Some(raw)
    requires CodeArms(arms, ArmsCx(a, Context(s))).Some?
    requires PatchesTo(arms, ArmsCx(a, Context(s)), raw, pre)
    requires |raw.o.code| + |EndJump(arms)| <= JUMP_MAX
    ensures var n := |raw.o.code| + |EndJump(arms)|;
            var w := CodeArms(arms, ArmsCx(a, Context(s))).value;
            var z := Emit(Emit(s.(depth := s.depth + 1), a, t).Put([50, Hi(n), Lo(n)]), raw.o, ts).Put(EndJump(arms));
            && MatchOut(Context(s), a, w).Some?
            && z.(code := s.code + a.code + [50, Hi(n), Lo(n)] + w.code).Put(POP).(rest := ts1, depth := s.depth)
                 == Emit(s, MatchOut(Context(s), a, w).value, ts1)
            && Emit(s, MatchOut(Context(s), a, w).value, ts1).Valid()
            && Trailing(s.locals, s.depth) == 0
  {
    hide CodeArms, RawArms, PatchAll, EndJump, Shift, SitesFit, Reachable, CodeArmBody, ArmOut, PatternCx;
    var n := |raw.o.code| + |EndJump(arms)|;
    var w := CodeArms(arms, ArmsCx(a, Context(s))).value;
    assert Encode(IMatch(n)) == [50, Hi(n), Lo(n)];
    assert s.code + a.code + [50, Hi(n), Lo(n)] + w.code + POP == s.code + (a.code + [50, Hi(n), Lo(n)] + w.code + POP);
    assert s.consts + a.consts + raw.o.consts == s.consts + (a.consts + [] + w.consts + []);
  }

  /** The state with the arms emitted and the match operand patched, before the arms' own jumps are. */
  function ArmsEmitted(s: Snap, a: Out, t: seq<Token>, raw: Raw, arms: Arms, ts: seq<Token>): Snap
    requires |raw.o.code| + |EndJump(arms)| <= JUMP_MAX
  {
    var n := |raw.o.code| + |EndJump(arms)|;
    Emit(Emit(s.(depth := s.depth + 1), a, t).Put([50, Hi(n), Lo(n)]), raw.o, ts).Put(EndJump(arms))
  }

  /** Patching the match operand, and with no default arm also the jump after the last arm. */
  lemma {:induction false} HeadPatched(s: Snap, a: Out, t: seq<Token>, raw: Raw, arms: Arms, ts: seq<Token>)
    requires raw.o.Valid()
    ensures var n := |raw.o.code| + |EndJump(arms)|;
            var q := Emit(s.(depth := s.depth + 1), a, t);
            var x := Emit(q.Put([50, 255, 255]), raw.o, ts);
            if HasDefault(arms) then
              && |x.code| - (|q.code| + 1) - 2 == n
              && (n <= JUMP_MAX ==> x.Patched(|q.code| + 1) == ArmsEmitted(s, a, t, raw, arms, ts))
            else
              var y := x.Put([41, 255, 255]);
              && |y.code| - (|q.code| + 1) - 2 == n
              && (n <= JUMP_MAX ==>
                    var z := y.Patched(|q.code| + 1);
                    && |z.code| - (|x.code| + 1) - 2 == 0
                    && z.Patched(|x.code| + 1) == ArmsEmitted(s, a, t, raw, arms, ts))
  {
    hide Offset, Emit;
    var q := Emit(s.(depth := s.depth + 1), a, t);
    if HasDefault(arms) {
      MatchHead(q, raw.o, ts, []);
      var n := |raw.o.code|;
      assert EndJump(arms) == [];
      PutNothing(Emit(q.Put([50, 255, 255]), raw.o, ts));
      if n <= JUMP_MAX { PutNothing(Emit(q.Put([50, Hi(n), Lo(n)]), raw.o, ts)); }
    } else {
      MatchHead(q, raw.o, ts, [41, 255, 255]);
      var n := |raw.o.code| + 3;
      if n <= JUMP_MAX { EndPatched(Emit(q.Put([50, Hi(n), Lo(n)]), raw.o, ts)); }
    }
  }

  lemma {:induction false} PutNothing(s: Snap)
    ensures s.Put([]) == s
  {
    assert s.code + [] == s.code;
  }

  /** From there on: the arms' jumps fit exactly when the arms have a final form, and patching them yields it. */
  lemma {:induction false} JumpsPatched(s: Snap, a: Out, t: seq<Token>, raw: Raw, arms: Arms, ts: seq<Token>,
      ts1: seq<Token>)
    requires s.Valid() && a.Valid() && a.hole == -1 && a.locals == s.locals
    requires RawArms(arms, ArmsCx(a, Context(s))) == Some(raw) && |raw.o.code| + |EndJump(arms)| <= JUMP_MAX
    ensures var z := ArmsEmitted(s, a, t, raw, arms, ts);
            var sites := Shift(raw.sites, |s.code| + |a.code| + 3);
            var w := MatchEnd(Context(s), a, arms);
            && SitesFit(sites, |z.code|)
            && w.Some? == Reachable(sites, |z.code|)
            && (w.Some? ==>
                  && z.(code := PatchAll(z.code, sites)).Put(POP).(rest := ts1, depth := s.depth) ==
                      Emit(s, w.value, ts1)
                  && Emit(s, w.value, ts1).Valid())
            && z.locals == s.locals && z.depth == s.depth + 1 && Trailing(s.locals, s.depth) == 0
  {
    hide CodeArms, RawArms, PatchAll, Shift, SitesFit, Reachable, MatchOut, Trailing, PatchesTo, ArmsCx, Context;
    var n := |raw.o.code| + |EndJump(arms)|;
    var pre := s.code + a.code + [50, Hi(n), Lo(n)];
    var cx := ArmsCx(a, Context(s));
    ArmsPatched(arms, cx, pre);
    PatchesParts(arms, cx, raw, pre);
    NothingTrails(s);
    RawLocals(arms, a, s);
    if CodeArms(arms, cx).Some? { MatchDone(s, a, t, raw, arms, ts, ts1, pre); }
  }

  lemma {:induction false} RawLocals(arms: Arms, a: Out, s: Snap)
    requires s.Valid() && RawArms(arms, ArmsCx(a, Context(s))).Some?
    ensures RawArms(arms, ArmsCx(a, Context(s))).value.o.locals == s.locals
  {
    hide RawArms;
  }

  lemma {:induction false} NothingTrails(s: Snap)
    requires s.Valid()
    ensures Trailing(s.locals, s.depth) == 0
  {
  }

  lemma {:induction false} PatchesParts(arms: Arms, cx: Cx, raw: Raw, pre: seq<Byte>)
    requires PatchesTo(arms, cx, raw, pre)
    ensures var full := pre + raw.o.code + EndJump(arms);
            var sites := Shift(raw.sites, |pre|);
            && SitesFit(sites, |full|)
            && (CodeArms(arms, cx).Some? <==> Reachable(sites, |full|))
            && (CodeArms(arms, cx).Some? ==> PatchAll(full, sites) == pre + CodeArms(arms, cx).value.code)
  {
    hide CodeArms, PatchAll, SitesFit, Reachable, Shift;
  }

  lemma {:induction false} ArmsContext(s: Snap, a: Out, t: seq<Token>, ts: seq<Token>)
    requires s.Valid() && a.locals == s.locals && a.hole == -1
    ensures var q := Emit(s.(depth := s.depth + 1), a, t).Put([50, 255, 255]).Past(ts);
            q.Valid() && Context(q) == ArmsCx(a, Context(s))
  {
  }

  lemma {:induction false} TooLongArms(s: Snap, a: Out, raw: Raw, arms: Arms)
    requires s.Valid() && a.Valid() && a.hole == -1 && RawArms(arms, ArmsCx(a, Context(s))) == Some(raw)
    ensures |raw.o.code| + |EndJump(arms)| > JUMP_MAX ==> MatchEnd(Context(s), a, arms).None?
  {
    hide CodeArms, RawArms, ArmsCx, EndJump, PatchAll, Shift, Context;
    ArmsPatched(arms, ArmsCx(a, Context(s)), []);
  }

  /** A `match` after its opening brace. */
  function MatchRest(a: Out, ts: seq<Token>, cx: Cx): Emission
    requires a.Valid() && a.hole == -1
  {
    var r := RawOf(MatchArms(ts), ArmsCx(a, cx));
    if r.RawFails? || r.raw.arms >= 256 then Fails else OrFails(MatchEnd(cx, a, MatchArms(ts).value), r.rest)
  }

  lemma {:induction false} MatchSplit(ts: seq<Token>, cx: Cx)
    ensures var e := CodeOfE(Expect(Condition(ts), LBrace), cx.(depth := cx.depth + 1));
            var w := CodeOf(MatchStatement(ts), cx);
            w == (if e.Fails? then Fails else MatchRest(e.o, e.rest, cx))
  {
    hide CodeOfE, CodeOf, MatchStatement, MatchArms, RawOf, ArmsCx, MatchEnd, Condition, Expect;
    MatchIs(ts, cx);
  }
}
