/** Mark and sweep: a gray stack over an object graph, then a linked list swept in place. Roots and edges are given. */
module Collector {
  import opened Base

  /** A walk along edges from a root. */
  ghost predicate Path(edges: seq<seq<nat>>, roots: seq<nat>, p: seq<nat>)
    decreases |p|
  {
    if |p| < 2 then p != [] && p[0] in roots
    else
      var q := p[..|p| - 1];
      Path(edges, roots, q) && q[|q| - 1] < |edges| && p[|p| - 1] in edges[q[|q| - 1]]
  }

  ghost predicate Reachable(edges: seq<seq<nat>>, roots: seq<nat>, o: nat) {
    exists p :: Path(edges, roots, p) && p[|p| - 1] == o
  }

  /** Every edge of an object leads to an object. */
  ghost predicate Graph(edges: seq<seq<nat>>) {
    forall o :: 0 <= o < |edges| ==> Within(edges[o], |edges|)
  }

  ghost predicate Within(s: seq<nat>, n: nat) {
    forall i :: 0 <= i < |s| ==> s[i] < n
  }

  lemma {:induction false} ReachRoot(edges: seq<seq<nat>>, roots: seq<nat>, o: nat)
    requires o in roots
    ensures Reachable(edges, roots, o)
  {
    assert Path(edges, roots, [o]);
  }

  lemma {:induction false} ReachEdge(edges: seq<seq<nat>>, roots: seq<nat>, o: nat, c: nat)
    requires Reachable(edges, roots, o) && o < |edges| && c in edges[o]
    ensures Reachable(edges, roots, c)
  {
    var p :| Path(edges, roots, p) && p[|p| - 1] == o;
    assert (p + [c])[..|p|] == p;
    assert Path(edges, roots, p + [c]);
  }

  /** A set of objects with the roots and closed under edges has everything reachable. */
  lemma {:induction false} ClosedHasAll(edges: seq<seq<nat>>, roots: seq<nat>, marks: seq<bool>, p: seq<nat>)
    requires |marks| == |edges| && Graph(edges) && Within(roots, |edges|)
    requires forall r :: r in roots ==> marks[r]
    requires forall o :: 0 <= o < |edges| && marks[o] ==> forall c :: c in edges[o] ==> c < |marks| && marks[c]
    requires Path(edges, roots, p)
    ensures p[|p| - 1] < |marks| && marks[p[|p| - 1]]
    decreases |p|
  {
    if |p| > 1 {
      var q := p[..|p| - 1];
      ClosedHasAll(edges, roots, marks, q);
    }
  }

  function White(marks: seq<bool>): (n: nat)
    ensures n <= |marks|
  {
    if marks == [] then 0 else White(marks[..|marks| - 1]) + (if marks[|marks| - 1] then 0 else 1)
  }

  lemma {:induction false} WhiteUpdate(marks: seq<bool>, o: nat)
    requires o < |marks| && !marks[o]
    ensures White(marks[o := true]) == White(marks) - 1
    decreases |marks|
  {
    var last := |marks| - 1;
    if o < last {
      WhiteUpdate(marks[..last], o);
      assert marks[o := true][..last] == marks[..last][o := true];
    } else {
      assert marks[o := true][..last] == marks[..last];
    }
  }

  /** The objects of the list that are marked, in order. */
  function Kept(list: seq<nat>, marks: seq<bool>): (r: seq<nat>)
    ensures forall o :: o in r <==> o in list && o < |marks| && marks[o]
  {
    if list == [] then []
    else if list[0] < |marks| && marks[list[0]] then [list[0]] + Kept(list[1..], marks)
    else Kept(list[1..], marks)
  }

  /** What tracing keeps true: gray objects are marked and waiting, black ones other than the busy one have only marked
      children, and nothing is marked that no root reaches. */
  ghost predicate Tricolor(edges: seq<seq<nat>>, roots: seq<nat>, marks: seq<bool>, gray: seq<nat>, busy: Option<nat>) {
    && |marks| == |edges|
    && (forall g :: g in gray ==> g < |marks| && marks[g])
    && (forall o :: 0 <= o < |marks| && marks[o] ==> Reachable(edges, roots, o))
    && (forall o :: 0 <= o < |marks| && marks[o] && o !in gray && busy != Some(o) ==> Black(edges, marks, o))
  }

  ghost predicate Black(edges: seq<seq<nat>>, marks: seq<bool>, o: nat)
    requires o < |edges|
  {
    forall c :: c in edges[o] ==> c < |marks| && marks[c]
  }

  lemma {:induction false} MarkKeeps(edges: seq<seq<nat>>, roots: seq<nat>, marks: seq<bool>, gray: seq<nat>,
      busy: Option<nat>, c: nat)
    requires Tricolor(edges, roots, marks, gray, busy) && c < |marks| && Reachable(edges, roots, c)
    ensures Tricolor(edges, roots, marks[c := true], if marks[c] then gray else gray + [c], busy)
  {
    hide Reachable;
    if marks[c] { assert marks[c := true] == marks; }
  }

  /** When nothing is gray any more, what is marked is exactly what the roots reach. */
  lemma {:induction false} MarkedIsReachable(edges: seq<seq<nat>>, roots: seq<nat>, marks: seq<bool>)
    requires Tricolor(edges, roots, marks, [], None) && Graph(edges) && Within(roots, |edges|)
    requires forall r :: r in roots ==> marks[r]
    ensures forall o :: 0 <= o < |marks| ==> marks[o] == Reachable(edges, roots, o)
  {
    forall o | 0 <= o < |marks| && Reachable(edges, roots, o) ensures marks[o] {
      var p :| Path(edges, roots, p) && p[|p| - 1] == o;
      ClosedHasAll(edges, roots, marks, p);
    }
  }

  lemma {:induction false} KeptTail(list: seq<nat>, marks: seq<bool>, i: nat)
    requires i < |list| && forall j :: 0 <= j < |list| ==> list[j] < |marks|
    ensures Kept(list[i..], marks) == (if marks[list[i]] then [list[i]] else []) + Kept(list[i + 1..], marks)
  {
    assert list[i..][1..] == list[i + 1..];
  }

  function Older(i: int): Option<nat> {
    if i <= 0 then None else Some(i - 1)
  }

  function Newest(n: nat): (r: seq<nat>)
    ensures |r| == n && forall i :: 0 <= i < n ==> r[i] == n - 1 - i
  {
    seq(n, i requires 0 <= i < n => n - 1 - i)
  }

  lemma {:induction false} NewestLinked(n: nat, next: seq<Option<nat>>)
    requires n <= |next| && forall i :: 0 <= i < |next| ==> next[i] == Older(i)
    ensures Linked(next, Older(n), Newest(n))
    decreases n
  {
    if n > 0 {
      NewestLinked(n - 1, next);
      assert Newest(n)[1..] == Newest(n - 1) && Newest(n)[0] == n - 1;
    }
  }

  lemma {:induction false} NewestAll(edges: seq<seq<nat>>)
    requires Graph(edges)
    ensures Distinct(Newest(|edges|))
    ensures forall o :: o in Newest(|edges|) ==> o < |edges| && forall c :: c in edges[o] ==> c in Newest(|edges|)
  {
    var all := Newest(|edges|);
    forall o | o in all ensures o < |edges| && forall c :: c in edges[o] ==> c in all {
      forall c | c in edges[o] ensures c in all {
        assert all[|edges| - 1 - c] == c;
      }
    }
  }

  /** Every marked object has been on the gray stack once, and no other object has. */
  ghost predicate PushedOnce(pushed: seq<nat>, marks: seq<bool>) {
    Distinct(pushed) && forall p: nat :: p in pushed <==> p < |marks| && marks[p]
  }

  lemma {:induction false} PushOnce(pushed: seq<nat>, marks: seq<bool>, c: nat)
    requires PushedOnce(pushed, marks) && c < |marks|
    ensures PushedOnce(if marks[c] then pushed else pushed + [c], marks[c := true])
  {
  }

  /** The first i children are marked. */
  ghost predicate FirstMarked(children: seq<nat>, marks: seq<bool>, i: nat) {
    i <= |children| && forall j :: 0 <= j < i ==> children[j] < |marks| && marks[children[j]]
  }

  lemma {:induction false} NoneMarked(children: seq<nat>, marks: seq<bool>)
    ensures FirstMarked(children, marks, 0)
  {
  }

  lemma {:induction false} MoreMarked(children: seq<nat>, marks: seq<bool>, i: nat)
    requires FirstMarked(children, marks, i) && i < |children| && children[i] < |marks|
    ensures FirstMarked(children, marks[children[i] := true], i + 1)
  {
  }

  /** Marking an object keeps the number of objects that are white or gray. */
  lemma {:induction false} WhiteMark(marks: seq<bool>, gray: seq<nat>, c: nat)
    requires c < |marks|
    ensures White(marks[c := true]) + |if marks[c] then gray else gray + [c]| == White(marks) + |gray|
  {
    if marks[c] { assert marks[c := true] == marks; } else { WhiteUpdate(marks, c); }
  }

  class Heap {
    const edges: seq<seq<nat>>
    const marked: array<bool>
    const next: array<Option<nat>>
    var objects: Option<nat>
    var gray: seq<nat>
    ghost var pushed: seq<nat>
    ghost var list: seq<nat>

    /** The object list is linked as list says, and live objects only refer to live ones. */
    ghost predicate Valid()
      reads this, marked, next
    {
      && Graph(edges) && marked.Length == |edges| && next.Length == |edges|
      && Linked(next[..], objects, list) && Distinct(list)
      && (forall o :: o in list ==> o < |edges| && forall c :: c in edges[o] ==> c in list)
    }

    /** Objects in the list from the newest to the oldest, as allocation links them. */
    constructor (es: seq<seq<nat>>)
      requires Graph(es)
      ensures Valid() && edges == es && gray == [] && pushed == [] && list == Newest(|es|)
      ensures fresh(marked) && fresh(next) && forall o :: 0 <= o < |es| ==> !marked[o]
    {
      edges, marked := es, new bool[|es|](_ => false);
      next := new Option<nat>[|es|](i => Older(i));
      objects, gray, pushed, list := Older(|es|), [], [], Newest(|es|);
      new;
      hide Newest, Linked;
      NewestLinked(|es|, next[..]);
      NewestAll(es);
    }

    /** Marks an object once; a marked object is not pushed again. */
    method MarkObject(o: nat)
      requires Valid() && o < |edges| && PushedOnce(pushed, marked[..])
      modifies marked, `gray, `pushed
      ensures Valid() && PushedOnce(pushed, marked[..])
      ensures marked[..] == old(marked[..])[o := true]
      ensures gray == if old(marked[o]) then old(gray) else old(gray) + [o]
      ensures pushed == if old(marked[o]) then old(pushed) else old(pushed) + [o]
    {
      PushOnce(pushed, marked[..], o);
      if marked[o] {
        assert marked[..] == old(marked[..])[o := true];
        return;
      }
      marked[o] := true;
      gray := gray + [o];
      pushed := pushed + [o];
      assert marked[..] == old(marked[..])[o := true];
    }

    /** blacken_object: marks every child. */
    method Blacken(o: nat, ghost roots: seq<nat>)
      requires Valid() && o < |edges| && Tricolor(edges, roots, marked[..], gray, Some(o)) && Reachable(edges, roots, o)
      requires PushedOnce(pushed, marked[..])
      modifies marked, `gray, `pushed
      ensures Valid() && Tricolor(edges, roots, marked[..], gray, None)
      ensures PushedOnce(pushed, marked[..])
      ensures FirstMarked(edges[o], marked[..], |edges[o]|)
      ensures forall p :: 0 <= p < |edges| && old(marked[p]) ==> marked[p]
      ensures White(marked[..]) + |gray| == old(White(marked[..]) + |gray|)
    {
      hide Reachable, Tricolor, White, Linked, PushedOnce, Distinct, FirstMarked;
      NoneMarked(edges[o], marked[..]);
      for i := 0 to |edges[o]|
        invariant Valid() && Tricolor(edges, roots, marked[..], gray, Some(o))
        invariant PushedOnce(pushed, marked[..])
        invariant FirstMarked(edges[o], marked[..], i)
        invariant forall p :: 0 <= p < |edges| && old(marked[p]) ==> marked[p]
        invariant White(marked[..]) + |gray| == old(White(marked[..]) + |gray|)
      {
        var c := edges[o][i];
        ReachEdge(edges, roots, o, c);
        MarkKeeps(edges, roots, marked[..], gray, Some(o), c);
        WhiteMark(marked[..], gray, c);
        MoreMarked(edges[o], marked[..], i);
        MarkObject(c);
      }
      Blackened(edges, roots, marked[..], gray, o);
    }

    /** trace_references: until no object is gray. Each round takes one object off the gray stack for good. */
    method Trace(ghost roots: seq<nat>)
      requires Valid() && Within(roots, |edges|) && Tricolor(edges, roots, marked[..], gray, None)
      requires forall r :: r in roots ==> marked[r]
      requires PushedOnce(pushed, marked[..])
      modifies marked, `gray, `pushed
      ensures Valid() && gray == [] && PushedOnce(pushed, marked[..])
      ensures forall o :: 0 <= o < |edges| ==> marked[o] == Reachable(edges, roots, o)
    {
      hide Reachable, Tricolor, White, Linked, PushedOnce, Distinct;
      while gray != []
        invariant Valid() && Tricolor(edges, roots, marked[..], gray, None)
        invariant forall r :: r in roots ==> marked[r]
        invariant PushedOnce(pushed, marked[..])
        decreases White(marked[..]) + |gray|
      {
        var o := gray[|gray| - 1];
        TopOfGray(edges, roots, marked[..], gray);
        gray := gray[..|gray| - 1];
        Blacken(o, roots);
      }
      MarkedIsReachable(edges, roots, marked[..]);
    }

    method MarkRoots(roots: seq<nat>)
      requires Valid() && Within(roots, |edges|) && gray == [] && pushed == []
      requires forall o :: 0 <= o < |edges| ==> !marked[o]
      modifies marked, `gray, `pushed
      ensures Valid() && Tricolor(edges, roots, marked[..], gray, None)
      ensures forall r :: r in roots ==> marked[r]
      ensures PushedOnce(pushed, marked[..])
    {
      hide Reachable, Linked;
      for i := 0 to |roots|
        invariant Valid() && Tricolor(edges, roots, marked[..], gray, None)
        invariant forall j :: 0 <= j < i ==> marked[roots[j]]
        invariant PushedOnce(pushed, marked[..])
      {
        ReachRoot(edges, roots, roots[i]);
        MarkKeeps(edges, roots, marked[..], gray, None, roots[i]);
        hide Tricolor;
        MarkObject(roots[i]);
      }
    }

    /** sweep: unlinks every unmarked object and unmarks the others, in one pass over the list. */
    method Sweep()
      requires Valid()
      requires forall o :: 0 <= o < |edges| && marked[o] ==> o in list && forall c :: c in edges[o] ==> marked[c]
      modifies marked, next, `objects, `list
      ensures Valid() && list == Kept(old(list), old(marked[..]))
      ensures forall o :: 0 <= o < |edges| ==> !marked[o]
    {
      hide Linked, Kept, Graph, Sweeping;
      ghost var all, marks := list, marked[..];
      var prev: Option<nat> := None;
      var curr := objects;
      ghost var kept: seq<nat> := [];
      ghost var i: nat := 0;
      InBounds(all, edges);
      SweepStarts(next[..], objects, marked[..], all);
      while curr != None
        invariant marked.Length == next.Length == |edges| && i <= |all|
                  && curr == (if i < |all| then Some(all[i]) else None)
        invariant Sweeping(next[..], objects, marked[..], prev, kept, all, i, marks)
        decreases |all| - i
      {
        var o := curr.value;
        SweepKeeps(next[..], objects, marked[..], prev, kept, all, i, marks);
        SweepDrops(next[..], objects, marked[..], prev, kept, all, i, marks);
        curr := next[o];
        if marked[o] {
          marked[o] := false;
          prev := Some(o);
          kept := kept + [o];
        } else if prev == None {
          objects := curr;
        } else {
          next[prev.value] := curr;
        }
        i := i + 1;
      }
      SweepEnds(next[..], objects, marked[..], prev, kept, all, marks);
      list := kept;
      KeptClosed(edges, all, marks);
    }

    /** collect_garbage, for given roots and edges: the list keeps exactly the objects the roots reach, in order, and is
        ready for the next collection. */
    method Collect(roots: seq<nat>)
      requires Valid() && gray == [] && (forall o :: 0 <= o < |edges| ==> !marked[o])
      requires forall r :: r in roots ==> r in list
      modifies this, marked, next
      ensures Valid() && gray == [] && forall o :: 0 <= o < |edges| ==> !marked[o]
      ensures list == Filter(old(list), edges, roots)
      ensures Distinct(pushed) && forall o: nat :: o in pushed <==> o < |edges| && Reachable(edges, roots, o)
      ensures forall r :: r in roots ==> r in list
    {
      hide Reachable, Linked, Tricolor, Kept, Path;
      assert Within(roots, |edges|) by {
        forall i | 0 <= i < |roots| ensures roots[i] < |edges| { assert roots[i] in list; }
      }
      pushed := [];
      MarkRoots(roots);
      Trace(roots);
      ReachableLive(edges, roots, list);
      InBounds(list, edges);
      KeptIsFilter(list, edges, roots, marked[..]);
      forall o | 0 <= o < |edges| && marked[o] ensures forall c :: c in edges[o] ==> marked[c] {
        forall c | c in edges[o] ensures marked[c] { ReachEdge(edges, roots, o, c); }
      }
      forall r | r in roots ensures Reachable(edges, roots, r) { ReachRoot(edges, roots, r); }
      Sweep();
    }
  }

  /** The objects of a list that the roots reach, in order. */
  ghost function Filter(list: seq<nat>, edges: seq<seq<nat>>, roots: seq<nat>): (r: seq<nat>)
    ensures forall o :: o in r <==> o in list && Reachable(edges, roots, o)
  {
    if list == [] then []
    else if Reachable(edges, roots, list[0]) then [list[0]] + Filter(list[1..], edges, roots)
    else Filter(list[1..], edges, roots)
  }

  lemma {:induction false} InBounds(list: seq<nat>, edges: seq<seq<nat>>)
    requires forall o :: o in list ==> o < |edges|
    ensures forall i :: 0 <= i < |list| ==> list[i] < |edges|
  {
    forall i | 0 <= i < |list| ensures list[i] < |edges| { assert list[i] in list; }
  }

  lemma {:induction false} KeptIsFilter(list: seq<nat>, edges: seq<seq<nat>>, roots: seq<nat>, marks: seq<bool>)
    requires forall i :: 0 <= i < |list| ==> list[i] < |marks|
    requires forall o :: 0 <= o < |marks| ==> marks[o] == Reachable(edges, roots, o)
    ensures Kept(list, marks) == Filter(list, edges, roots)
    decreases |list|
  {
    hide Reachable;
    if list != [] { KeptIsFilter(list[1..], edges, roots, marks); }
  }

  /** Live objects refer to live objects, so whatever live roots reach is live. */
  lemma {:induction false} ReachableLive(edges: seq<seq<nat>>, roots: seq<nat>, list: seq<nat>)
    requires forall r :: r in roots ==> r in list
    requires forall o :: o in list ==> o < |edges| && forall c :: c in edges[o] ==> c in list
    ensures forall o: nat :: Reachable(edges, roots, o) ==> o in list
  {
    forall o: nat | Reachable(edges, roots, o) ensures o in list {
      var p :| Path(edges, roots, p) && p[|p| - 1] == o;
      PathLive(edges, roots, list, p);
    }
  }

  lemma {:induction false} PathLive(edges: seq<seq<nat>>, roots: seq<nat>, list: seq<nat>, p: seq<nat>)
    requires forall r :: r in roots ==> r in list
    requires forall o :: o in list ==> o < |edges| && forall c :: c in edges[o] ==> c in list
    requires Path(edges, roots, p)
    ensures p[|p| - 1] in list
    decreases |p|
  {
    if |p| > 1 { PathLive(edges, roots, list, p[..|p| - 1]); }
  }

  lemma {:induction false} LinkedHead(next: seq<Option<nat>>, head: Option<nat>, list: seq<nat>)
    requires Linked(next, head, list)
    ensures head == if list == [] then None else Some(list[0])
    ensures list != [] ==> list[0] < |next| && Linked(next, next[list[0]], list[1..])
  {
  }

  lemma {:induction false} LinkedFrom(next: seq<Option<nat>>, head: Option<nat>, list: seq<nat>, i: nat)
    requires Linked(next, head, list) && i < |list|
    ensures list[i] < |next| && next[list[i]] == if i + 1 < |list| then Some(list[i + 1]) else None
    decreases i
  {
    LinkedHead(next, head, list);
    if i == 0 {
      LinkedHead(next, next[list[0]], list[1..]);
    } else {
      LinkedFrom(next, next[list[0]], list[1..], i - 1);
    }
  }

  /** Skipping the node after a prefix relinks the rest. */
  lemma {:induction false} LinkedSkip(next: seq<Option<nat>>, head: Option<nat>, kept: seq<nat>, x: nat, rest: seq<nat>)
    requires Linked(next, head, kept + [x] + rest) && Distinct(kept + [x] + rest) && x < |next|
    ensures kept == [] ==> Linked(next, next[x], rest)
    ensures kept != [] ==> kept[|kept| - 1] < |next| && Linked(next[kept[|kept| - 1] := next[x]], head, kept + rest)
    decreases |kept|
  {
    var all := kept + [x] + rest;
    if kept == [] {
      assert all[1..] == rest;
    } else {
      var last := kept[|kept| - 1];
      assert all[0] == kept[0] && all[1..] == kept[1..] + [x] + rest;
      DistinctTail(all);
      LinkedFrom(next, head, all, |kept| - 1);
      if |kept| == 1 {
        assert all[1..][1..] == rest && all[1] == x;
        assert all[2..] == rest;
        Elsewhere(next, next[x], rest, last, next[x]);
        assert (kept + rest)[1..] == rest;
      } else {
        LinkedSkip(next, next[kept[0]], kept[1..], x, rest);
        assert kept[1..][|kept[1..]| - 1] == last;
        assert all[0] != all[|kept| - 1];
        assert (kept + rest)[1..] == kept[1..] + rest;
      }
    }
  }

  lemma {:induction false} DistinctTail(s: seq<nat>)
    requires Distinct(s) && s != []
    ensures Distinct(s[1..]) && s[0] !in s[1..]
  {
  }

  lemma {:induction false} Elsewhere(next: seq<Option<nat>>, head: Option<nat>, list: seq<nat>, n: nat, v: Option<nat>)
    requires Linked(next, head, list) && n < |next| && n !in list
    ensures Linked(next[n := v], head, list)
    decreases |list|
  {
    if list != [] { Elsewhere(next, next[list[0]], list[1..], n, v); }
  }

  /** One step of the sweep over the list: where the next object is, and what keeping or dropping this one makes of
      it. */
  lemma {:induction false} ListStep(next: seq<Option<nat>>, head: Option<nat>, kept: seq<nat>, all: seq<nat>, i: nat,
      marks: seq<bool>)
    requires i < |all| && Linked(next, head, kept + all[i..]) && Distinct(kept + all[i..])
    requires forall j :: 0 <= j < |all| ==> all[j] < |marks|
    ensures var o := all[i];
            && o < |next| && next[o] == (if i + 1 < |all| then Some(all[i + 1]) else None)
            && Kept(all[i..], marks) == (if marks[o] then [o] else []) + Kept(all[i + 1..], marks)
            && kept + [o] + all[i + 1..] == kept + all[i..] && Distinct(kept + all[i + 1..]) && o !in all[i + 1..]
            && (forall q :: q in all[i..] <==> q == o || q in all[i + 1..])
            && (kept == [] ==> Linked(next, next[o], all[i + 1..]))
            && (kept != [] ==>
                kept[|kept| - 1] < |next| && Linked(next[kept[|kept| - 1] := next[o]], head, kept + all[i + 1..]))
  {
    var o, rest := all[i], all[i + 1..];
    assert all[i..] == [o] + rest;
    assert kept + [o] + rest == kept + all[i..];
    LinkedFrom(next, head, kept + all[i..], |kept|);
    assert (kept + all[i..])[|kept|] == o;
    if i + 1 < |all| { assert (kept + all[i..])[|kept| + 1] == all[i + 1]; }
    LinkedSkip(next, head, kept, o, rest);
    KeptTail(all, marks, i);
    Dropped(kept, o, rest);
  }

  lemma {:induction false} Dropped(kept: seq<nat>, o: nat, rest: seq<nat>)
    requires Distinct(kept + [o] + rest)
    ensures Distinct(kept + rest) && o !in rest
  {
    var all, less := kept + [o] + rest, kept + rest;
    forall a, b | 0 <= a < b < |less| ensures less[a] != less[b] {
      assert less[a] == all[if a < |kept| then a else a + 1];
      assert less[b] == all[if b < |kept| then b else b + 1];
    }
    forall a | 0 <= a < |rest| ensures rest[a] != o {
      assert all[|kept|] == o && all[|kept| + 1 + a] == rest[a];
    }
  }

  /** The sweep's state: the kept prefix and the rest of the old list are one linked list, and only the rest is
      marked. */
  ghost predicate Sweeping(next: seq<Option<nat>>, head: Option<nat>, marked: seq<bool>, prev: Option<nat>,
                           kept: seq<nat>, all: seq<nat>, i: nat, marks: seq<bool>) {
    && i <= |all| && |marked| == |marks| == |next| && (forall j :: 0 <= j < |all| ==> all[j] < |marks|)
    && prev == (if kept == [] then None else Some(kept[|kept| - 1]))
    && Linked(next, head, kept + all[i..]) && Distinct(kept + all[i..])
    && Kept(all, marks) == kept + Kept(all[i..], marks)
    && forall o :: 0 <= o < |marks| ==> marked[o] == (marks[o] && o in all[i..])
  }

  lemma {:induction false} SweepStarts(next: seq<Option<nat>>, head: Option<nat>, marks: seq<bool>, all: seq<nat>)
    requires Linked(next, head, all) && Distinct(all) && |next| == |marks|
    requires forall j :: 0 <= j < |all| ==> all[j] < |marks|
    requires forall o :: 0 <= o < |marks| && marks[o] ==> o in all
    ensures Sweeping(next, head, marks, None, [], all, 0, marks)
    ensures head == if all == [] then None else Some(all[0])
  {
    hide Linked, Kept;
    LinkedHead(next, head, all);
    assert all[0..] == all && [] + all == all;
    assert [] + Kept(all, marks) == Kept(all, marks);
  }

  lemma {:induction false} SweepKeeps(next: seq<Option<nat>>, head: Option<nat>, marked: seq<bool>, prev: Option<nat>,
                                      kept: seq<nat>, all: seq<nat>, i: nat, marks: seq<bool>)
    requires Sweeping(next, head, marked, prev, kept, all, i, marks) && i < |all|
    ensures var o := all[i];
            && o < |marked| && next[o] == (if i + 1 < |all| then Some(all[i + 1]) else None)
            && (marked[o] ==> Sweeping(next, head, marked[o := false], Some(o), kept + [o], all, i + 1, marks))
  {
    hide Linked, Kept;
    var o := all[i];
    ListStep(next, head, kept, all, i, marks);
    if marked[o] {
      assert kept + ([o] + Kept(all[i + 1..], marks)) == kept + [o] + Kept(all[i + 1..], marks);
    }
  }

  lemma {:induction false} SweepDrops(next: seq<Option<nat>>, head: Option<nat>, marked: seq<bool>, prev: Option<nat>,
                                      kept: seq<nat>, all: seq<nat>, i: nat, marks: seq<bool>)
    requires Sweeping(next, head, marked, prev, kept, all, i, marks) && i < |all|
    ensures var o := all[i];
            && o < |marked| && (prev.Some? ==> prev.value < |next|)
            && (!marked[o] ==>
                  if prev == None then Sweeping(next, next[o], marked, prev, kept, all, i + 1, marks)
                  else Sweeping(next[prev.value := next[o]], head, marked, prev, kept, all, i + 1, marks))
  {
    hide Linked, Kept;
    var o := all[i];
    ListStep(next, head, kept, all, i, marks);
    assert [] + all[i + 1..] == all[i + 1..];
    assert [] + Kept(all[i + 1..], marks) == Kept(all[i + 1..], marks);
  }

  lemma {:induction false} SweepEnds(next: seq<Option<nat>>, head: Option<nat>, marked: seq<bool>, prev: Option<nat>,
                                     kept: seq<nat>, all: seq<nat>, marks: seq<bool>)
    requires Sweeping(next, head, marked, prev, kept, all, |all|, marks)
    ensures Linked(next, head, kept) && Distinct(kept) && kept == Kept(all, marks)
    ensures forall o :: 0 <= o < |marks| ==> !marked[o]
  {
    hide Linked;
    assert all[|all|..] == [] && kept + [] == kept;
  }

  lemma {:induction false} KeptClosed(edges: seq<seq<nat>>, all: seq<nat>, marks: seq<bool>)
    requires forall j :: 0 <= j < |all| ==> all[j] < |marks|
    requires |marks| == |edges| && (forall o :: o in all ==> o < |edges| && forall c :: c in edges[o] ==> c in all)
    requires forall o ::
             0 <= o < |edges| && marks[o] ==> o in all && forall c :: c in edges[o] ==> c < |marks| && marks[c]
    ensures forall o :: o in Kept(all, marks) ==> o < |edges| && forall c :: c in edges[o] ==> c in Kept(all, marks)
  {
    hide Kept;
  }

  lemma {:induction false} Blackened(edges: seq<seq<nat>>, roots: seq<nat>, marks: seq<bool>, gray: seq<nat>, o: nat)
    requires Tricolor(edges, roots, marks, gray, Some(o)) && o < |edges|
    requires FirstMarked(edges[o], marks, |edges[o]|)
    ensures Tricolor(edges, roots, marks, gray, None)
  {
    hide Reachable;
  }

  lemma {:induction false} TopOfGray(edges: seq<seq<nat>>, roots: seq<nat>, marks: seq<bool>, gray: seq<nat>)
    requires Tricolor(edges, roots, marks, gray, None) && gray != []
    ensures var o := gray[|gray| - 1];
            o < |edges| && Reachable(edges, roots, o) && Tricolor(edges, roots, marks, gray[..|gray| - 1], Some(o))
  {
    hide Reachable;
    var o, rest := gray[|gray| - 1], gray[..|gray| - 1];
    assert gray == rest + [o] && o in gray;
    assert forall g :: g in gray <==> g in rest || g == o;
    assert forall g :: g in rest ==> g in gray;
  }

  /** The nodes of list are linked in that order from head. */
  ghost predicate Linked(next: seq<Option<nat>>, head: Option<nat>, list: seq<nat>)
    decreases |list|
  {
    if list == [] then head == None
    else head == Some(list[0]) && list[0] < |next| && Linked(next, next[list[0]], list[1..])
  }
}
