/** The lock-free pool: threads over two Treiber stacks with versioned heads, interleaved at every atomic access. */
module Pool {
  import opened Base

  // A node is named by its index; None is the null pointer.
  datatype Tagged = Tagged(ptr: Option<nat>, ver: nat)
  datatype Which = Head | Free

  /** Where a thread stands inside pool_alloc or pool_free. */
  datatype Local =
    | Idle
    | AStart
    | AHead
    | ARead(which: Which, seen: Tagged)
    | ACas(which: Which, seen: Tagged, want: Tagged)
    | ACount(node: nat)
    | FLoad(node: nat)
    | FStore(node: nat, seen: Tagged)
    | FCas(node: nat, seen: Tagged)
    | FCount

  /** held are the nodes handed to callers and not yet given back. */
  datatype State = State(head: Tagged, free: Tagged, next: seq<Tagged>, allocs: nat, frees: nat,
                         held: multiset<nat>, threads: seq<Local>) {
    function At(w: Which): Tagged {
      if w == Head then head else free
    }

    function Set(w: Which, v: Tagged): State {
      if w == Head then this.(head := v) else this.(free := v)
    }

    function Go(t: nat, l: Local): State
      requires t < |threads|
    {
      this.(threads := threads[t := l])
    }
  }

  // A weak compare-and-swap may also fail for no reason.
  datatype Choice = Proceed | Spurious | CallAlloc | CallFree(node: nat)

  /** One atomic step of thread t; None when the thread cannot take that step. */
  function Advance(s: State, t: nat, c: Choice): Option<State>
    requires t < |s.threads|
  {
    match s.threads[t]
    case Idle =>
      if c == CallAlloc then Some(s.Go(t, AStart))
      else if c.CallFree? && c.node in s.held then
        Some(s.(held := s.held - multiset{c.node}).Go(t, FLoad(c.node)))
      else None
    case AStart => Some(s.Go(t, if s.free.ptr == None then AHead else ARead(Free, s.free)))
    case AHead => Some(s.Go(t, ARead(Head, s.head)))
    case ARead(w, seen) =>
      if seen.ptr == None then Some(s.Go(t, Idle))
      else if seen.ptr.value >= |s.next| then None
      else Some(s.Go(t, ACas(w, seen, Tagged(s.next[seen.ptr.value].ptr, seen.ver + 1))))
    case ACas(w, seen, want) =>
      if seen.ptr == None then None
      else if s.At(w) == seen && c != Spurious then Some(s.Set(w, want).Go(t, ACount(seen.ptr.value)))
      else Some(s.Go(t, ARead(w, s.At(w))))
    case ACount(n) => Some(s.(allocs := s.allocs + 1, held := s.held + multiset{n}).Go(t, Idle))
    case FLoad(n) => Some(s.Go(t, FStore(n, s.free)))
    case FStore(n, seen) =>
      if n >= |s.next| then None
      else Some(s.(next := s.next[n := Tagged(seen.ptr, seen.ver + 1)]).Go(t, FCas(n, seen)))
    case FCas(n, seen) =>
      if s.free == seen && c != Spurious then Some(s.(free := Tagged(Some(n), seen.ver + 1)).Go(t, FCount))
      else Some(s.Go(t, FLoad(n)))
    case FCount => Some(s.(frees := s.frees + 1).Go(t, Idle))
  }

  /** The two stacks as plain sequences, top first. */
  datatype Stacks = Stacks(head: seq<nat>, free: seq<nat>) {
    function At(w: Which): seq<nat> {
      if w == Head then head else free
    }

    function Set(w: Which, v: seq<nat>): Stacks {
      if w == Head then this.(head := v) else this.(free := v)
    }
  }

  /** What a step does to the stacks: only a successful compare-and-swap touches them, and then it is a pop or a
      push. */
  function Effect(a: Stacks, s: State, t: nat, c: Choice): Stacks
    requires t < |s.threads|
  {
    match s.threads[t]
    case ACas(w, seen, _) => if s.At(w) == seen && c != Spurious && a.At(w) != [] then a.Set(w, a.At(w)[1..]) else a
    case FCas(n, seen) => if s.free == seen && c != Spurious then a.(free := [n] + a.free) else a
    case _ => a
  }

  /** The nodes reached from p by next pointers are exactly list. */
  ghost predicate Chain(next: seq<Tagged>, p: Option<nat>, list: seq<nat>)
    decreases |list|
  {
    if list == [] then p == None
    else p == Some(list[0]) && list[0] < |next| && Chain(next, next[list[0]].ptr, list[1..])
  }

  /** Whether a thread is holding node n between its stack operation and its caller. */
  function Holds(l: Local, n: nat): nat {
    match l
    case ACount(m) => if m == n then 1 else 0
    case FLoad(m) => if m == n then 1 else 0
    case FStore(m, _) => if m == n then 1 else 0
    case FCas(m, _) => if m == n then 1 else 0
    case _ => 0
  }

  function Holders(ts: seq<Local>, n: nat): nat {
    if ts == [] then 0 else Holds(ts[0], n) + Holders(ts[1..], n)
  }

  function Busy(l: Local): nat {
    if l.ACount? || l.FLoad? || l.FStore? || l.FCas? then 1 else 0
  }

  function BusyAll(ts: seq<Local>): nat {
    if ts == [] then 0 else Busy(ts[0]) + BusyAll(ts[1..])
  }

  function Occurs(list: seq<nat>, n: nat): nat {
    if list == [] then 0 else (if list[0] == n then 1 else 0) + Occurs(list[1..], n)
  }

  /** A thread that has popped and not yet counted it, or pushed and not yet counted that. */
  function Uncounted(l: Local): int {
    match l case ACount(_) => 1 case FCount => -1 case _ => 0
  }

  function UncountedAll(ts: seq<Local>): int {
    if ts == [] then 0 else Uncounted(ts[0]) + UncountedAll(ts[1..])
  }

  /** A loaded head is no newer than the list's, and if it has the same version it is the list's. */
  ghost predicate Fresh(seen: Tagged, now: Tagged) {
    seen.ver <= now.ver && (seen.ver == now.ver ==> seen == now)
  }

  ghost predicate ThreadOk(s: State, l: Local) {
    match l
    case ARead(w, seen) => Fresh(seen, s.At(w))
    case ACas(w, seen, want) =>
      && Fresh(seen, s.At(w)) && seen.ptr.Some? && want.ver == seen.ver + 1
      && (seen == s.At(w) ==> seen.ptr.value < |s.next| && want.ptr == s.next[seen.ptr.value].ptr)
    case FStore(n, seen) => Fresh(seen, s.free)
    case FCas(n, seen) => Fresh(seen, s.free) && n < |s.next| && s.next[n] == Tagged(seen.ptr, seen.ver + 1)
    case _ => true
  }

  /** How many places node n is in: the lists, the callers' hands, the threads' hands. */
  function Places(s: State, a: Stacks, n: nat): nat {
    Occurs(a.head, n) + Occurs(a.free, n) + s.held[n] + Holders(s.threads, n)
  }

  ghost predicate Conserved(s: State, a: Stacks) {
    forall n: nat :: Places(s, a, n) == if n < |s.next| then 1 else 0
  }

  ghost predicate Counted(s: State, a: Stacks) {
    && s.allocs + UncountedAll(s.threads) == s.frees + |s.held| + BusyAll(s.threads)
    && |a.head| + |a.free| + |s.held| + BusyAll(s.threads) == |s.next|
  }

  /** Every node is in exactly one place, the lists are what the stacks say, the counters are right up to the threads
      that have not counted yet, and no thread's knowledge is newer than the lists. */
  ghost predicate Inv(s: State, a: Stacks) {
    && Chain(s.next, s.head.ptr, a.head) && Chain(s.next, s.free.ptr, a.free)
    && Conserved(s, a) && Counted(s, a)
    && forall t :: 0 <= t < |s.threads| ==> ThreadOk(s, s.threads[t])
  }

  lemma {:induction false} HoldersUpdate(ts: seq<Local>, t: nat, l: Local, n: nat)
    requires t < |ts|
    ensures Holders(ts[t := l], n) + Holds(ts[t], n) == Holders(ts, n) + Holds(l, n)
    decreases |ts|
  {
    hide Holds;
    if t > 0 {
      HoldersUpdate(ts[1..], t - 1, l, n);
      assert ts[t := l][1..] == ts[1..][t - 1 := l];
    } else {
      assert ts[t := l][1..] == ts[1..];
    }
  }

  lemma {:induction false} TotalsUpdate(ts: seq<Local>, t: nat, l: Local)
    requires t < |ts|
    ensures BusyAll(ts[t := l]) + Busy(ts[t]) == BusyAll(ts) + Busy(l)
    ensures UncountedAll(ts[t := l]) + Uncounted(ts[t]) == UncountedAll(ts) + Uncounted(l)
    decreases |ts|
  {
    hide Busy, Uncounted;
    if t > 0 {
      TotalsUpdate(ts[1..], t - 1, l);
      assert ts[t := l][1..] == ts[1..][t - 1 := l];
    } else {
      assert ts[t := l][1..] == ts[1..];
    }
  }

  lemma {:induction false} OneHolder(ts: seq<Local>, t: nat, n: nat)
    requires t < |ts|
    ensures Holds(ts[t], n) <= Holders(ts, n)
    decreases |ts|
  {
    hide Holds;
    if t > 0 { OneHolder(ts[1..], t - 1, n); }
  }

  lemma {:induction false} TwoHolders(ts: seq<Local>, t: nat, u: nat, n: nat)
    requires t < |ts| && u < |ts| && t != u
    ensures Holds(ts[t], n) + Holds(ts[u], n) <= Holders(ts, n)
    decreases |ts|
  {
    hide Holds;
    if t == 0 {
      OneHolder(ts[1..], u - 1, n);
    } else if u == 0 {
      OneHolder(ts[1..], t - 1, n);
    } else {
      TwoHolders(ts[1..], t - 1, u - 1, n);
    }
  }

  lemma {:induction false} NotOccurs(list: seq<nat>, n: nat)
    ensures Occurs(list, n) == 0 <==> n !in list
    decreases |list|
  {
    if list != [] {
      NotOccurs(list[1..], n);
      assert list == [list[0]] + list[1..];
    }
  }

  /** A node in a thread's hand is nowhere else. */
  lemma {:induction false} InHandOnly(s: State, a: Stacks, t: nat, n: nat)
    requires Conserved(s, a) && t < |s.threads| && Holds(s.threads[t], n) == 1
    ensures n < |s.next| && n !in a.head && n !in a.free && n !in s.held
    ensures forall u :: 0 <= u < |s.threads| && u != t ==> Holds(s.threads[u], n) == 0
  {
    hide Holds;
    OneHolder(s.threads, t, n);
    assert Places(s, a, n) >= 1;
    NotOccurs(a.head, n);
    NotOccurs(a.free, n);
    forall u | 0 <= u < |s.threads| && u != t ensures Holds(s.threads[u], n) == 0 {
      TwoHolders(s.threads, t, u, n);
    }
  }

  /** Storing into a node outside a list leaves the list alone. */
  lemma {:induction false} ChainElsewhere(next: seq<Tagged>, p: Option<nat>, list: seq<nat>, n: nat, v: Tagged)
    requires Chain(next, p, list) && n < |next| && n !in list
    ensures Chain(next[n := v], p, list)
    decreases |list|
  {
    if list != [] { ChainElsewhere(next, next[list[0]].ptr, list[1..], n, v); }
  }

  lemma {:induction false} ChainTop(next: seq<Tagged>, p: Option<nat>, list: seq<nat>)
    requires Chain(next, p, list)
    ensures p.Some? <==> list != []
    ensures p.Some? ==> list[0] == p.value < |next| && Chain(next, next[list[0]].ptr, list[1..])
  {
  }

  /** The heads point at the tops of the stacks. */
  ghost predicate Topped(s: State, a: Stacks) {
    && s.head.ptr == (if a.head == [] then None else Some(a.head[0]))
    && s.free.ptr == (if a.free == [] then None else Some(a.free[0]))
  }

  lemma {:induction false} OccursTop(list: seq<nat>, n: nat, m: nat)
    ensures list != [] ==> Occurs(list, n) == (if list[0] == n then 1 else 0) + Occurs(list[1..], n)
    ensures Occurs([m] + list, n) == (if m == n then 1 else 0) + Occurs(list, n)
  {
    assert ([m] + list)[1..] == list;
  }

  /** Wherever a step moves a node, it moves it from one place to one place. */
  lemma {:induction false} PlacesKept(s: State, a: Stacks, t: nat, c: Choice, n: nat)
    requires Topped(s, a) && t < |s.threads| && ThreadOk(s, s.threads[t]) && Advance(s, t, c).Some?
    ensures Places(Advance(s, t, c).value, Effect(a, s, t, c), n) == Places(s, a, n)
  {
    hide Holders, Occurs, Holds;
    match s.threads[t]
    case ACas(_, _, _) => PopKeepsPlaces(s, a, t, c, n);
    case FCas(_, _) => PushKeepsPlaces(s, a, t, c, n);
    case _ => CallKeepsPlaces(s, a, t, c, n);
  }

  lemma {:induction false} PushKeepsPlaces(s: State, a: Stacks, t: nat, c: Choice, n: nat)
    requires t < |s.threads| && s.threads[t].FCas? && Advance(s, t, c).Some?
    ensures Places(Advance(s, t, c).value, Effect(a, s, t, c), n) == Places(s, a, n)
  {
    hide Holders, Occurs;
    HoldersUpdate(s.threads, t, Advance(s, t, c).value.threads[t], n);
    OccursTop(a.free, n, s.threads[t].node);
  }

  lemma {:induction false} CallKeepsPlaces(s: State, a: Stacks, t: nat, c: Choice, n: nat)
    requires t < |s.threads| && !s.threads[t].FCas? && !s.threads[t].ACas? && Advance(s, t, c).Some?
    ensures Places(Advance(s, t, c).value, Effect(a, s, t, c), n) == Places(s, a, n)
  {
    hide Holders, Occurs;
    HoldersUpdate(s.threads, t, Advance(s, t, c).value.threads[t], n);
  }

  lemma {:induction false} PopKeepsPlaces(s: State, a: Stacks, t: nat, c: Choice, n: nat)
    requires Topped(s, a) && t < |s.threads| && ThreadOk(s, s.threads[t]) && s.threads[t].ACas?
             && Advance(s, t, c).Some?
    ensures Places(Advance(s, t, c).value, Effect(a, s, t, c), n) == Places(s, a, n)
  {
    hide Holders, Occurs;
    HoldersUpdate(s.threads, t, Advance(s, t, c).value.threads[t], n);
    if s.threads[t].which == Head { OccursTop(a.head, n, 0); } else { OccursTop(a.free, n, 0); }
  }

  lemma {:induction false} CountedKept(s: State, a: Stacks, t: nat, c: Choice)
    requires Topped(s, a) && t < |s.threads| && ThreadOk(s, s.threads[t]) && Advance(s, t, c).Some?
    requires Counted(s, a)
    ensures Counted(Advance(s, t, c).value, Effect(a, s, t, c))
  {
    hide BusyAll, UncountedAll, Busy, Uncounted;
    match s.threads[t]
    case ACas(_, _, _) => PopCounted(s, a, t, c);
    case Idle => CallerCounted(s, a, t, c);
    case ACount(_) => CallerCounted(s, a, t, c);
    case _ => OtherCounted(s, a, t, c);
  }

  lemma {:induction false} CallerCounted(s: State, a: Stacks, t: nat, c: Choice)
    requires Counted(s, a) && t < |s.threads| && (s.threads[t].Idle? || s.threads[t].ACount?) && Advance(s, t, c).Some?
    ensures Counted(Advance(s, t, c).value, Effect(a, s, t, c))
  {
    hide BusyAll, UncountedAll;
    TotalsUpdate(s.threads, t, Advance(s, t, c).value.threads[t]);
  }

  lemma {:induction false} OtherCounted(s: State, a: Stacks, t: nat, c: Choice)
    requires Counted(s, a) && t < |s.threads| && Advance(s, t, c).Some?
    requires !s.threads[t].ACas? && !s.threads[t].Idle? && !s.threads[t].ACount?
    ensures Counted(Advance(s, t, c).value, Effect(a, s, t, c))
  {
    hide BusyAll, UncountedAll;
    TotalsUpdate(s.threads, t, Advance(s, t, c).value.threads[t]);
  }

  lemma {:induction false} PopCounted(s: State, a: Stacks, t: nat, c: Choice)
    requires Topped(s, a) && t < |s.threads| && ThreadOk(s, s.threads[t]) && s.threads[t].ACas?
             && Advance(s, t, c).Some?
    requires Counted(s, a)
    ensures Counted(Advance(s, t, c).value, Effect(a, s, t, c))
  {
    hide BusyAll, UncountedAll;
    TotalsUpdate(s.threads, t, Advance(s, t, c).value.threads[t]);
  }

  /** The lists follow the stacks: a successful compare-and-swap is exactly a pop or a push. */
  lemma {:induction false} ChainsKept(s: State, a: Stacks, t: nat, c: Choice)
    requires Inv(s, a) && t < |s.threads| && Advance(s, t, c).Some?
    ensures var r := Advance(s, t, c).value;
            var b := Effect(a, s, t, c);
            Chain(r.next, r.head.ptr, b.head) && Chain(r.next, r.free.ptr, b.free)
  {
    hide Chain, Conserved, Counted, Holders;
    assert ThreadOk(s, s.threads[t]);
    match s.threads[t]
    case ACas(w, seen, want) =>
      ChainTop(s.next, s.head.ptr, a.head);
      ChainTop(s.next, s.free.ptr, a.free);
    case FStore(n, seen) =>
      InHandOnly(s, a, t, n);
      ChainElsewhere(s.next, s.head.ptr, a.head, n, Tagged(seen.ptr, seen.ver + 1));
      ChainElsewhere(s.next, s.free.ptr, a.free, n, Tagged(seen.ptr, seen.ver + 1));
    case FCas(n, seen) =>
      InHandOnly(s, a, t, n);
      ChainPush(s.next, s.free.ptr, a.free, n);
    case _ =>
  }

  lemma {:induction false} ChainPush(next: seq<Tagged>, p: Option<nat>, list: seq<nat>, n: nat)
    requires Chain(next, p, list) && n < |next|
    ensures next[n].ptr == p ==> Chain(next, Some(n), [n] + list)
  {
    assert ([n] + list)[1..] == list;
  }

  /** What one thread knows survives what another one does. */
  lemma {:induction false} OthersOk(s: State, a: Stacks, t: nat, c: Choice, u: nat)
    requires Inv(s, a) && t < |s.threads| && u < |s.threads| && t != u && Advance(s, t, c).Some?
    ensures ThreadOk(Advance(s, t, c).value, s.threads[u])
  {
    hide Chain, Conserved, Counted, Holders;
    assert ThreadOk(s, s.threads[u]);
    assert ThreadOk(s, s.threads[t]);
    match s.threads[t]
    case FStore(n, seen) =>
      InHandOnly(s, a, t, n);
      assert Holds(s.threads[u], n) == 0;
      ChainTop(s.next, s.head.ptr, a.head);
      ChainTop(s.next, s.free.ptr, a.free);
    case _ =>
  }

  lemma {:induction false} SelfOk(s: State, a: Stacks, t: nat, c: Choice)
    requires Inv(s, a) && t < |s.threads| && Advance(s, t, c).Some?
    ensures var r := Advance(s, t, c).value; ThreadOk(r, r.threads[t])
  {
    hide Chain, Conserved, Counted;
    assert ThreadOk(s, s.threads[t]);
  }

  /** Every step of every thread keeps the invariant. */
  lemma {:induction false} StepKeeps(s: State, a: Stacks, t: nat, c: Choice)
    requires Inv(s, a) && t < |s.threads| && Advance(s, t, c).Some?
    ensures Inv(Advance(s, t, c).value, Effect(a, s, t, c))
  {
    hide Chain, ThreadOk, Places, Effect, Counted, Advance;
    var r := Advance(s, t, c).value;
    ChainTop(s.next, s.head.ptr, a.head);
    ChainTop(s.next, s.free.ptr, a.free);
    ChainsKept(s, a, t, c);
    CountedKept(s, a, t, c);
    SelfOk(s, a, t, c);
    SameSizes(s, t, c);
    forall n: nat ensures Places(r, Effect(a, s, t, c), n) == Places(s, a, n) { PlacesKept(s, a, t, c, n); }
    forall u | 0 <= u < |s.threads| && u != t ensures ThreadOk(r, r.threads[u]) { OthersOk(s, a, t, c, u); }
  }

  lemma {:induction false} SameSizes(s: State, t: nat, c: Choice)
    requires t < |s.threads| && Advance(s, t, c).Some?
    ensures var r := Advance(s, t, c).value;
            && |r.next| == |s.next| && |r.threads| == |s.threads|
            && forall u :: 0 <= u < |s.threads| && u != t ==> r.threads[u] == s.threads[u]
  {
  }

  /** pool_create: node i points at node i - 1, and the last one made is the head. */
  function Created(capacity: nat, threads: nat): State
    requires capacity > 0
  {
    State(Tagged(Some(capacity - 1), 0), Tagged(None, 0), Links(capacity), 0, 0, multiset{}, seq(threads, _ => Idle))
  }

  function Below(i: nat): Option<nat> {
    if i == 0 then None else Some(i - 1)
  }

  function Links(n: nat): (r: seq<Tagged>)
    ensures |r| == n && forall i :: 0 <= i < n ==> r[i] == Tagged(Below(i), 0)
  {
    seq(n, i requires 0 <= i < n => Tagged(Below(i), 0))
  }

  function Down(n: nat): (r: seq<nat>)
    ensures |r| == n
  {
    if n == 0 then [] else [n - 1] + Down(n - 1)
  }

  method PoolCreate(capacity: nat, threads: nat) returns (s: Option<State>)
    ensures s == if capacity == 0 then None else Some(Created(capacity, threads))
  {
    if capacity == 0 { return None; }
    var next: seq<Tagged> := [];
    var prev: Option<nat> := None;
    for i := 0 to capacity
      invariant |next| == i && prev == Below(i)
      invariant forall k :: 0 <= k < i ==> next[k] == Tagged(Below(k), 0)
    {
      next := next + [Tagged(prev, 0)];
      prev := Some(i);
    }
    assert next == Links(capacity);
    s := Some(State(Tagged(prev, 0), Tagged(None, 0), next, 0, 0, multiset{}, seq(threads, _ => Idle)));
  }

  lemma {:induction false} DownChain(n: nat, next: seq<Tagged>)
    requires n <= |next| && forall i :: 0 <= i < |next| ==> next[i].ptr == Below(i)
    ensures Chain(next, Below(n), Down(n))
    decreases n
  {
    if n > 0 {
      DownChain(n - 1, next);
      assert Down(n)[1..] == Down(n - 1);
    }
  }

  lemma {:induction false} DownOccurs(n: nat, x: nat)
    ensures Occurs(Down(n), x) == if x < n then 1 else 0
    decreases n
  {
    if n > 0 {
      DownOccurs(n - 1, x);
      assert Down(n)[1..] == Down(n - 1);
    }
  }

  lemma {:induction false} IdleTotals(ts: seq<Local>, n: nat)
    requires forall i :: 0 <= i < |ts| ==> ts[i] == Idle
    ensures Holders(ts, n) == 0 && BusyAll(ts) == 0 && UncountedAll(ts) == 0
    decreases |ts|
  {
    if ts != [] { IdleTotals(ts[1..], n); }
  }

  lemma {:induction false} CreatedOk(capacity: nat, threads: nat)
    requires capacity > 0
    ensures Inv(Created(capacity, threads), Stacks(Down(capacity), []))
  {
    hide Chain, Holders, BusyAll, UncountedAll, Occurs;
    var s, a := Created(capacity, threads), Stacks(Down(capacity), []);
    DownChain(capacity, s.next);
    NoChain(s.next);
    IdleTotals(s.threads, 0);
    forall n: nat ensures Places(s, a, n) == if n < capacity then 1 else 0 {
      DownOccurs(capacity, n);
      IdleTotals(s.threads, n);
      NotOccurs([], n);
    }
  }

  lemma {:induction false} NoChain(next: seq<Tagged>)
    ensures Chain(next, None, [])
  {
  }

  datatype Act = Act(thread: nat, choice: Choice)
  datatype Config = Config(s: State, a: Stacks)

  /** A whole interleaved run. */
  function Play(f: Config, acts: seq<Act>): Option<Config>
    decreases |acts|
  {
    if acts == [] then Some(f)
    else if acts[0].thread >= |f.s.threads| then None
    else
      var t, c := acts[0].thread, acts[0].choice;
      var s1 :- Advance(f.s, t, c);
      Play(Config(s1, Effect(f.a, f.s, t, c)), acts[1..])
  }

  /** In every reachable state of every interleaving the invariant holds. */
  lemma {:induction false} Always(f: Config, acts: seq<Act>)
    requires Inv(f.s, f.a) && Play(f, acts).Some?
    ensures Inv(Play(f, acts).value.s, Play(f, acts).value.a)
    decreases |acts|
  {
    hide Inv, Advance, Effect;
    if acts != [] {
      var t, c := acts[0].thread, acts[0].choice;
      StepKeeps(f.s, f.a, t, c);
      Always(Config(Advance(f.s, t, c).value, Effect(f.a, f.s, t, c)), acts[1..]);
    }
  }

  ghost predicate Reachable(f: Config, capacity: nat, threads: nat) {
    capacity > 0 && exists acts :: Play(Config(Created(capacity, threads), Stacks(Down(capacity), [])), acts) == Some(f)
  }

  /** Ownership: every node of the pool is in exactly one of the two lists, a caller's hands or one thread's hands. */
  lemma {:induction false} Ownership(f: Config, capacity: nat, threads: nat)
    requires Reachable(f, capacity, threads)
    ensures Inv(f.s, f.a)
    ensures forall n: nat :: Places(f.s, f.a, n) == if n < |f.s.next| then 1 else 0
  {
    hide Play, Inv;
    var f0 := Config(Created(capacity, threads), Stacks(Down(capacity), []));
    var acts :| Play(f0, acts) == Some(f);
    CreatedOk(capacity, threads);
    Always(f0, acts);
    InvParts(f);
  }

  lemma {:induction false} InvParts(f: Config)
    requires Inv(f.s, f.a)
    ensures Conserved(f.s, f.a) && Counted(f.s, f.a) && Topped(f.s, f.a)
    ensures forall t :: 0 <= t < |f.s.threads| ==> ThreadOk(f.s, f.s.threads[t])
  {
    ChainTop(f.s.next, f.s.head.ptr, f.a.head);
    ChainTop(f.s.next, f.s.free.ptr, f.a.free);
  }

  /** A node about to be handed out is in nobody else's possession, so no node is handed out twice. */
  lemma {:induction false} HandedOutOnce(f: Config, capacity: nat, threads: nat, t: nat)
    requires Reachable(f, capacity, threads) && t < |f.s.threads| && f.s.threads[t].ACount?
    ensures var n := f.s.threads[t].node;
            && n < |f.s.next| && n !in f.s.held && n !in f.a.head && n !in f.a.free
            && forall u :: 0 <= u < |f.s.threads| && u != t ==> Holds(f.s.threads[u], n) == 0
  {
    hide Reachable, Inv, Places;
    Ownership(f, capacity, threads);
    InvParts(f);
    InHandOnly(f.s, f.a, t, f.s.threads[t].node);
  }

  ghost predicate Within(p: Tagged, nodes: nat) {
    p.ptr.Some? ==> p.ptr.value < nodes
  }

  ghost predicate KnowsOnly(l: Local, nodes: nat) {
    match l
    case ARead(_, seen) => Within(seen, nodes)
    case ACas(_, seen, want) => seen.ptr.Some? && Within(seen, nodes) && Within(want, nodes)
    case ACount(n) => n < nodes
    case FLoad(n) => n < nodes
    case FStore(n, seen) => n < nodes && Within(seen, nodes)
    case FCas(n, seen) => n < nodes && Within(seen, nodes)
    case _ => true
  }

  /** Every head, link, loaded head and node in hand is one of the pool's nodes, however stale it is. */
  ghost predicate InPool(s: State) {
    && Within(s.head, |s.next|) && Within(s.free, |s.next|)
    && (forall i :: 0 <= i < |s.next| ==> Within(s.next[i], |s.next|))
    && (forall n :: n in s.held ==> n < |s.next|)
    && forall t :: 0 <= t < |s.threads| ==> KnowsOnly(s.threads[t], |s.next|)
  }

  lemma {:induction false} KnowsStep(s: State, t: nat, c: Choice)
    requires InPool(s) && t < |s.threads| && Advance(s, t, c).Some?
    ensures var r := Advance(s, t, c).value; t < |r.threads| && KnowsOnly(r.threads[t], |s.next|)
  {
    assert KnowsOnly(s.threads[t], |s.next|);
  }

  lemma {:induction false} ListsStep(s: State, t: nat, c: Choice)
    requires InPool(s) && t < |s.threads| && Advance(s, t, c).Some?
    ensures var r := Advance(s, t, c).value;
            && |r.next| == |s.next| && Within(r.head, |s.next|) && Within(r.free, |s.next|)
            && (forall i :: 0 <= i < |r.next| ==> Within(r.next[i], |s.next|))
            && (forall n :: n in r.held ==> n < |s.next|)
  {
    assert KnowsOnly(s.threads[t], |s.next|);
  }

  lemma {:induction false} InPoolStep(s: State, t: nat, c: Choice)
    requires InPool(s) && t < |s.threads| && Advance(s, t, c).Some?
    ensures InPool(Advance(s, t, c).value)
  {
    hide Advance, Within, KnowsOnly;
    SameSizes(s, t, c);
    KnowsStep(s, t, c);
    ListsStep(s, t, c);
  }

  lemma {:induction false} InPoolAlways(f: Config, acts: seq<Act>)
    requires InPool(f.s) && Play(f, acts).Some?
    ensures InPool(Play(f, acts).value.s)
    decreases |acts|
  {
    hide Advance, Effect, InPool;
    if acts != [] {
      var t, c := acts[0].thread, acts[0].choice;
      InPoolStep(f.s, t, c);
      InPoolAlways(Config(Advance(f.s, t, c).value, Effect(f.a, f.s, t, c)), acts[1..]);
    }
  }

  /** No call ever stands still: in every reachable state a thread inside a call has a next step, the node it reads
      through a head it has loaded is a node of the pool, and a thread outside one can begin a call. */
  lemma {:induction false} AlwaysMoves(f: Config, capacity: nat, threads: nat, t: nat)
    requires Reachable(f, capacity, threads) && t < |f.s.threads|
    ensures InPool(f.s)
    ensures f.s.threads[t] != Idle ==> Advance(f.s, t, Proceed).Some?
    ensures f.s.threads[t] == Idle ==>
              && Advance(f.s, t, CallAlloc).Some?
              && forall n: nat :: Advance(f.s, t, CallFree(n)).Some? <==> n in f.s.held
  {
    hide Play;
    var f0 := Config(Created(capacity, threads), Stacks(Down(capacity), []));
    var acts :| Play(f0, acts) == Some(f);
    InPoolAlways(f0, acts);
    assert KnowsOnly(f.s.threads[t], |f.s.next|);
  }

  ghost predicate AtRest(s: State) {
    forall t :: 0 <= t < |s.threads| ==> s.threads[t] == Idle
  }

  /** pool_destroy's check: with no call in progress, the counters agree exactly when every node has been returned, and
      then the two lists hold the whole pool. */
  lemma {:induction false} LeakCheck(f: Config, capacity: nat, threads: nat)
    requires Reachable(f, capacity, threads) && AtRest(f.s)
    ensures f.s.allocs == f.s.frees <==> f.s.held == multiset{}
    ensures f.s.allocs - f.s.frees == |f.s.held|
    ensures f.s.held == multiset{} ==> |f.a.head| + |f.a.free| == |f.s.next|
  {
    hide Reachable, Inv, Places;
    Ownership(f, capacity, threads);
    InvParts(f);
    IdleTotals(f.s.threads, 0);
  }

  /** A compare-and-swap of pool_alloc that succeeds takes the top node off an unbroken stack, and nothing else. */
  lemma {:induction false} AllocIsPop(f: Config, t: nat, c: Choice)
    requires Inv(f.s, f.a) && t < |f.s.threads| && f.s.threads[t].ACas? && c != Spurious
    requires f.s.At(f.s.threads[t].which) == f.s.threads[t].seen
    ensures var w := f.s.threads[t].which;
            var s1 := Advance(f.s, t, c);
            var a1 := Effect(f.a, f.s, t, c);
            && s1.Some? && s1.value.threads[t].ACount?
            && f.a.At(w) == [s1.value.threads[t].node] + a1.At(w)
            && a1.At(if w == Head then Free else Head) == f.a.At(if w == Head then Free else Head)
            && s1.value.At(w).ptr == (if a1.At(w) == [] then None else Some(a1.At(w)[0]))
  {
    hide Conserved, Counted, Chain;
    InvParts(f);
    assert f.s.threads[t].seen.ptr.Some? by { assert ThreadOk(f.s, f.s.threads[t]); }
    StepKeeps(f.s, f.a, t, c);
    InvParts(Config(Advance(f.s, t, c).value, Effect(f.a, f.s, t, c)));
  }

  /** A compare-and-swap of pool_free that succeeds pushes the thread's node, and nothing else. */
  lemma {:induction false} FreeIsPush(f: Config, t: nat, c: Choice)
    requires Inv(f.s, f.a) && t < |f.s.threads| && f.s.threads[t].FCas? && c != Spurious
    requires f.s.free == f.s.threads[t].seen
    ensures var s1 := Advance(f.s, t, c);
            && s1.Some? && s1.value.threads[t] == FCount
            && Effect(f.a, f.s, t, c) == Stacks(f.a.head, [f.s.threads[t].node] + f.a.free)
            && Chain(s1.value.next, s1.value.free.ptr, [f.s.threads[t].node] + f.a.free)
  {
    hide Conserved, Counted, Chain;
    StepKeeps(f.s, f.a, t, c);
  }

  /** Versions only grow, and a list whose version has not moved is the very list it was. */
  lemma {:induction false} VersionsGrow(f: Config, acts: seq<Act>, w: Which)
    requires Inv(f.s, f.a) && Play(f, acts).Some?
    ensures var g := Play(f, acts).value;
            && f.s.At(w).ver <= g.s.At(w).ver
            && (f.s.At(w).ver == g.s.At(w).ver ==> f.s.At(w) == g.s.At(w) && f.a.At(w) == g.a.At(w))
    decreases |acts|
  {
    hide Inv, Advance, Effect;
    if acts != [] {
      var t, c := acts[0].thread, acts[0].choice;
      InvParts(f);
      StepKeeps(f.s, f.a, t, c);
      OneStepGrows(f.s, f.a, t, c, w);
      VersionsGrow(Config(Advance(f.s, t, c).value, Effect(f.a, f.s, t, c)), acts[1..], w);
    }
  }

  lemma {:induction false} OneStepGrows(s: State, a: Stacks, t: nat, c: Choice, w: Which)
    requires t < |s.threads| && ThreadOk(s, s.threads[t]) && Advance(s, t, c).Some?
    ensures var r := Advance(s, t, c).value;
            && s.At(w).ver <= r.At(w).ver
            && (s.At(w).ver == r.At(w).ver ==> s.At(w) == r.At(w) && Effect(a, s, t, c).At(w) == a.At(w))
  {
  }

  lemma {:induction false} PlaySplit(f: Config, acts: seq<Act>, k: nat)
    requires k <= |acts| && Play(f, acts).Some?
    ensures Play(f, acts[..k]).Some? && Play(Play(f, acts[..k]).value, acts[k..]) == Play(f, acts)
    decreases k
  {
    hide Advance, Effect;
    if k > 0 {
      var t, c := acts[0].thread, acts[0].choice;
      PlaySplit(Config(Advance(f.s, t, c).value, Effect(f.a, f.s, t, c)), acts[1..], k - 1);
      assert acts[..k][1..] == acts[1..][..k - 1];
      assert acts[1..][k - 1..] == acts[k..];
    } else {
      assert acts[0..] == acts;
    }
  }

  /** No ABA: if a list's head, compared after any run, is still the one loaded before it, then no step in between
      changed that list. */
  lemma {:induction false} NoAba(f: Config, acts: seq<Act>, w: Which, k: nat)
    requires Inv(f.s, f.a) && Play(f, acts).Some? && k <= |acts|
    requires Play(f, acts).value.s.At(w) == f.s.At(w)
    ensures Play(f, acts[..k]).Some?
    ensures var g := Play(f, acts[..k]).value; g.s.At(w) == f.s.At(w) && g.a.At(w) == f.a.At(w)
  {
    hide Inv, Play;
    PlaySplit(f, acts, k);
    VersionsGrow(f, acts[..k], w);
    Always(f, acts[..k]);
    VersionsGrow(Play(f, acts[..k]).value, acts[k..], w);
  }

  function Then(f: Config, t: nat, c: Choice): Config
    requires t < |f.s.threads| && Advance(f.s, t, c).Some?
  {
    Config(Advance(f.s, t, c).value, Effect(f.a, f.s, t, c))
  }

  predicate Allocating(l: Local) {
    l.AStart? || l.AHead? || l.ARead? || l.ACas? || l.ACount?
  }

  /** A pool_alloc ends in two ways only: from the counting after a swap that succeeded, with its node in the caller's
      hands, or from a load that was null, with nothing. */
  lemma {:induction false} AllocEnds(f: Config, t: nat, c: Choice)
    requires t < |f.s.threads| && Allocating(f.s.threads[t]) && Advance(f.s, t, c).Some?
    requires Then(f, t, c).s.threads[t] == Idle
    ensures var l, g := f.s.threads[t], Then(f, t, c);
            && g.a == f.a
            && (l.ACount? || (l.ARead? && l.seen.ptr == None))
            && (l.ACount? ==> g.s == f.s.(held := f.s.held + multiset{l.node}, allocs := f.s.allocs + 1).Go(t, Idle))
            && (l.ARead? ==> g.s == f.s.Go(t, Idle))
  {
  }

  /** A call is one or the other from its beginning to its end. */
  lemma {:induction false} CallGoesOn(f: Config, t: nat, c: Choice)
    requires t < |f.s.threads| && f.s.threads[t] != Idle && Advance(f.s, t, c).Some?
    ensures var l, m := f.s.threads[t], Then(f, t, c).s.threads[t]; m != Idle ==> (Allocating(l) <==> Allocating(m))
  {
  }

  /** A swap that fails, because the head has changed or for no reason, touches nothing but the thread, which holds the
      list's present head and goes on. */
  lemma {:induction false} LostAlloc(f: Config, t: nat, c: Choice)
    requires Inv(f.s, f.a) && t < |f.s.threads| && f.s.threads[t].ACas?
    requires c == Spurious || f.s.At(f.s.threads[t].which) != f.s.threads[t].seen
    ensures Advance(f.s, t, c).Some?
    ensures var w := f.s.threads[t].which; Then(f, t, c) == Config(f.s.Go(t, ARead(w, f.s.At(w))), f.a)
  {
    hide Conserved, Counted, Chain;
    InvParts(f);
  }

  /** Likewise for pool_free, which still has its node and loads again. */
  lemma {:induction false} LostFree(f: Config, t: nat, c: Choice)
    requires t < |f.s.threads| && f.s.threads[t].FCas?
    requires c == Spurious || f.s.free != f.s.threads[t].seen
    ensures Advance(f.s, t, c).Some?
    ensures Then(f, t, c) == Config(f.s.Go(t, FLoad(f.s.threads[t].node)), f.a)
  {
  }

  /** A pool_free that ends has been counted; so it never ends before its node is on the list. */
  lemma {:induction false} FreeEnds(f: Config, t: nat, c: Choice)
    requires t < |f.s.threads| && !Allocating(f.s.threads[t]) && f.s.threads[t] != Idle && Advance(f.s, t, c).Some?
    requires Then(f, t, c).s.threads[t] == Idle
    ensures f.s.threads[t] == FCount && Then(f, t, c) == Config(f.s.(frees := f.s.frees + 1).Go(t, Idle), f.a)
  {
  }

  /** The thread has just loaded null from a list, and the list is empty. */
  ghost predicate EmptyLoad(g: Config, t: nat) {
    t < |g.s.threads| && g.s.threads[t].ARead? && g.s.threads[t].seen.ptr == None && g.a.At(g.s.threads[t].which) == []
  }

  /** The thread is inside one pool_alloc from f on to the end of the run. */
  ghost predicate OneCall(f: Config, acts: seq<Act>, t: nat) {
    forall k :: 0 <= k <= |acts| ==>
      && Play(f, acts[..k]).Some?
      && var g := Play(f, acts[..k]).value; t < |g.s.threads| && Allocating(g.s.threads[t])
  }

  lemma {:induction false} OneCallStep(f: Config, acts: seq<Act>, t: nat)
    requires acts != [] && OneCall(f, acts, t)
    ensures acts[0].thread < |f.s.threads| && Advance(f.s, acts[0].thread, acts[0].choice).Some?
    ensures var g := Then(f, acts[0].thread, acts[0].choice);
            OneCall(g, acts[1..], t) && t < |f.s.threads| && |g.s.threads| == |f.s.threads|
    ensures forall k :: 0 <= k < |acts| ==>
              Play(f, acts[..k + 1]) == Play(Then(f, acts[0].thread, acts[0].choice), acts[1..][..k])
  {
    hide Advance, Effect;
    assert acts[..1][1..] == [] && Play(f, acts[..0]) == Some(f) && Play(f, acts[..1]).Some?;
    var u, c := acts[0].thread, acts[0].choice;
    var g := Then(f, u, c);
    SameSizes(f.s, u, c);
    forall k | 0 <= k < |acts| ensures Play(f, acts[..k + 1]) == Play(g, acts[1..][..k]) {
      assert acts[..k + 1][1..] == acts[1..][..k];
    }
    forall k | 0 <= k <= |acts[1..]|
      ensures Play(g, acts[1..][..k]).Some?
      ensures var h := Play(g, acts[1..][..k]).value; t < |h.s.threads| && Allocating(h.s.threads[t])
    {
      assert Play(f, acts[..k + 1]) == Play(g, acts[1..][..k]);
    }
  }

  /** A pool_alloc about to return NULL made, during that call, a load of a list that was empty at that moment. */
  lemma {:induction false} NullAfterEmpty(f: Config, capacity: nat, threads: nat, acts: seq<Act>, t: nat)
    requires Reachable(f, capacity, threads) && t < |f.s.threads| && f.s.threads[t] == AStart && OneCall(f, acts, t)
    requires OneCallEnd(f, acts, t)
    requires var l := Play(f, acts).value.s.threads[t]; l.ARead? && l.seen.ptr == None
    ensures exists k :: 0 <= k < |acts| && acts[k].thread == t && Play(f, acts[..k + 1]).Some?
                        && EmptyLoad(Play(f, acts[..k + 1]).value, t)
  {
    hide Reachable, OneCall, Advance, Effect;
    var k := FirstEmpty(f, capacity, threads, acts, t);
  }

  ghost predicate OneCallEnd(f: Config, acts: seq<Act>, t: nat) {
    Play(f, acts).Some? && t < |Play(f, acts).value.s.threads|
  }

  lemma {:induction false} WholeCall(f: Config, acts: seq<Act>, t: nat)
    requires OneCall(f, acts, t)
    ensures OneCallEnd(f, acts, t)
  {
    assert acts[..|acts|] == acts;
  }

  lemma {:induction false} FirstEmpty(f: Config, capacity: nat, threads: nat, acts: seq<Act>, t: nat) returns (k: nat)
    requires Reachable(f, capacity, threads) && OneCall(f, acts, t) && OneCallEnd(f, acts, t) && t < |f.s.threads|
    requires !(f.s.threads[t].ARead? && f.s.threads[t].seen.ptr == None)
    requires var l := Play(f, acts).value.s.threads[t]; l.ARead? && l.seen.ptr == None
    ensures k < |acts| && acts[k].thread == t && Play(f, acts[..k + 1]).Some?
            && EmptyLoad(Play(f, acts[..k + 1]).value, t)
    decreases |acts|
  {
    hide Reachable, OneCall, Advance, Effect;
    assert acts != [];
    OneCallStep(f, acts, t);
    var u, c := acts[0].thread, acts[0].choice;
    var g := Then(f, u, c);
    SameSizes(f.s, u, c);
    ReachStep(f, capacity, threads, u, c);
    WholeCall(g, acts[1..], t);
    if g.s.threads[t].ARead? && g.s.threads[t].seen.ptr == None {
      NullIsRight(f, capacity, threads, t, c);
      k := 0;
      assert Play(f, acts[..0 + 1]) == Play(g, acts[1..][..0]);
    } else {
      assert acts[..|acts| - 1 + 1] == acts && acts[1..][..|acts| - 1] == acts[1..];
      assert Play(f, acts) == Play(g, acts[1..]);
      var m := FirstEmpty(g, capacity, threads, acts[1..], t);
      k := m + 1;
      assert Play(f, acts[..m + 1 + 1]) == Play(g, acts[1..][..m + 1]);
    }
  }

  /** When pool_alloc is about to return NULL, the list it last loaded was empty then, and is empty now unless it has
      changed since. */
  lemma {:induction false} NullMeansEmpty(f: Config, t: nat)
    requires Inv(f.s, f.a) && t < |f.s.threads| && f.s.threads[t].ARead? && f.s.threads[t].seen.ptr == None
    ensures var w := f.s.threads[t].which;
            f.s.At(w).ver == f.s.threads[t].seen.ver ==> f.a.At(w) == []
    ensures Advance(f.s, t, Proceed) == Some(f.s.Go(t, Idle))
  {
    InvParts(f);
  }

  /** Nothing is ever pushed on the head list: over any run it only loses nodes from its top. */
  lemma {:induction false} HeadShrinks(f: Config, acts: seq<Act>)
    requires Play(f, acts).Some?
    ensures var b := Play(f, acts).value.a.head;
            |b| <= |f.a.head| && b == f.a.head[|f.a.head| - |b|..]
    decreases |acts|
  {
    hide Advance;
    if acts != [] {
      var t, c := acts[0].thread, acts[0].choice;
      HeadShrinks(Config(Advance(f.s, t, c).value, Effect(f.a, f.s, t, c)), acts[1..]);
    }
  }

  /** A thread that has read null from the head list is right about it for good. */
  ghost predicate NullSeen(f: Config) {
    forall t :: 0 <= t < |f.s.threads| ==>
      f.s.threads[t].ARead? && f.s.threads[t].which == Head && f.s.threads[t].seen.ptr == None ==> f.a.head == []
  }

  lemma {:induction false} NullSeenStep(f: Config, t: nat, c: Choice)
    requires Inv(f.s, f.a) && NullSeen(f) && t < |f.s.threads| && Advance(f.s, t, c).Some?
    ensures NullSeen(Config(Advance(f.s, t, c).value, Effect(f.a, f.s, t, c)))
  {
    hide Conserved, Counted, Chain;
    InvParts(f);
    SameSizes(f.s, t, c);
  }

  lemma {:induction false} NullSeenAlways(f: Config, acts: seq<Act>)
    requires Inv(f.s, f.a) && NullSeen(f) && Play(f, acts).Some?
    ensures NullSeen(Play(f, acts).value)
    decreases |acts|
  {
    hide Inv, Advance, Effect, NullSeen;
    if acts != [] {
      var t, c := acts[0].thread, acts[0].choice;
      StepKeeps(f.s, f.a, t, c);
      NullSeenStep(f, t, c);
      NullSeenAlways(Config(Advance(f.s, t, c).value, Effect(f.a, f.s, t, c)), acts[1..]);
    }
  }

  /** In every reachable state, a thread about to return NULL that had turned to the head list leaves an empty head list
      behind, now and ever after; so one that leaves nodes there never looked, its first load having found a node. */
  lemma {:induction false} NullLeavesNoHead(f: Config, capacity: nat, threads: nat, t: nat, acts: seq<Act>)
    requires Reachable(f, capacity, threads) && t < |f.s.threads| && f.s.threads[t].ARead?
             && f.s.threads[t].seen.ptr == None
    requires Play(f, acts).Some?
    ensures f.s.threads[t].which == Head ==> f.a.head == [] && Play(f, acts).value.a.head == []
    ensures f.a.head != [] ==> f.s.threads[t].which == Free
  {
    hide Play, Inv;
    var f0 := Config(Created(capacity, threads), Stacks(Down(capacity), []));
    var before :| Play(f0, before) == Some(f);
    CreatedOk(capacity, threads);
    NullSeenAlways(f0, before);
    HeadShrinks(f, acts);
  }

  /** The step by which a thread reads null decides the call. From the free list that happens only to a thread whose
      first load found a node there and which has since lost it to another thread. At that moment the list read is
      empty, so the answer, that no node is left in the pool's lists, is right exactly when the other list is empty
      too. */
  lemma {:induction false} NullIsRight(f: Config, capacity: nat, threads: nat, t: nat, c: Choice)
    requires Reachable(f, capacity, threads) && t < |f.s.threads| && Advance(f.s, t, c).Some?
    requires var l := Then(f, t, c).s.threads[t]; l.ARead? && l.seen.ptr == None
    ensures var g := Then(f, t, c);
            var w := g.s.threads[t].which;
            && g.a == f.a && g.a.At(w) == []
            && (g.a.head == [] && g.a.free == [] <==> g.a.At(if w == Head then Free else Head) == [])
            && (w == Free ==> f.s.threads[t].ACas? && f.s.threads[t].which == Free && f.s.threads[t].seen.ptr.Some?
                              && f.s.threads[t].seen != f.s.free)
            && (w == Head ==> f.s.threads[t].AHead? || (f.s.threads[t].ACas? && f.s.threads[t].which == Head))
  {
    hide Reachable, Places, Conserved, Counted, Chain;
    Ownership(f, capacity, threads);
    InvParts(f);
  }

  /** Where a pool_alloc stands when no other thread has taken a step since it began. */
  ghost predicate Alone(f: Config, t: nat)
    requires t < |f.s.threads|
  {
    var w := if f.a.free == [] then Head else Free;
    match f.s.threads[t]
    case AStart => true
    case AHead => f.a.free == []
    case ARead(v, seen) => v == w && seen == f.s.At(w)
    case ACas(v, seen, _) => v == w && seen == f.s.At(w) && f.a.At(w) != []
    case _ => false
  }

  lemma {:induction false} AloneStep(f: Config, t: nat, c: Choice)
    requires Inv(f.s, f.a) && t < |f.s.threads| && Alone(f, t) && Advance(f.s, t, c).Some?
    ensures var g := Then(f, t, c);
            var w := if f.a.free == [] then Head else Free;
            || (Alone(g, t) && g.a == f.a && g.s.held == f.s.held)
            || (f.a.At(w) == [] && w == Head && g == Config(f.s.Go(t, Idle), f.a))
            || (f.a.At(w) != [] && g.s.threads[t] == ACount(f.a.At(w)[0]) && g.a == f.a.Set(w, f.a.At(w)[1..])
                && g.s.held == f.s.held)
  {
    hide Conserved, Counted, Chain;
    InvParts(f);
    assert ThreadOk(f.s, f.s.threads[t]);
  }

  ghost predicate Returned(f: Config, t: nat) {
    t < |f.s.threads| && f.s.threads[t] == Idle
  }

  /** A pool_alloc that runs without interference returns NULL exactly when both lists are empty; otherwise it hands out
      the top of the free list, or of the head list if the free list is empty. */
  lemma {:induction false} AllocAlone(f: Config, t: nat, acts: seq<Act>)
    requires Inv(f.s, f.a) && t < |f.s.threads| && Alone(f, t)
    requires forall i ::
             0 <= i < |acts| ==> acts[i].thread == t && (acts[i].choice == Proceed || acts[i].choice == Spurious)
    requires Play(f, acts).Some? && Returned(Play(f, acts).value, t)
    ensures var g := Play(f, acts).value;
            var w := if f.a.free == [] then Head else Free;
            && (g.s.held == f.s.held <==> f.a.head == [] && f.a.free == [])
            && (if f.a.At(w) == [] then g.a == f.a
                else g.s.held == f.s.held + multiset{f.a.At(w)[0]} && g.a == f.a.Set(w, f.a.At(w)[1..]))
    decreases |acts|
  {
    hide Inv, Advance, Effect, Alone;
    assert acts != [] by { NotIdle(f, t); }
    var c := acts[0].choice;
    var g := Then(f, t, c);
    AloneStep(f, t, c);
    StepKeeps(f.s, f.a, t, c);
    SameSizes(f.s, t, c);
    if Alone(g, t) {
      NotIdle(g, t);
      AllocAlone(g, t, acts[1..]);
    } else {
      AfterDecision(g, t, acts[1..]);
      OneMore(f.s.held);
    }
  }

  lemma {:induction false} OneMore(held: multiset<nat>)
    ensures forall n :: held + multiset{n} != held && held + multiset{} == held
  {
    forall n ensures held + multiset{n} != held { assert |held + multiset{n}| == |held| + 1; }
  }

  lemma {:induction false} NotIdle(f: Config, t: nat)
    requires t < |f.s.threads| && Alone(f, t)
    ensures f.s.threads[t] != Idle && !f.s.threads[t].ACount?
  {
  }

  /** Once the call is decided, only the count is left to do. */
  lemma {:induction false} AfterDecision(f: Config, t: nat, acts: seq<Act>)
    requires t < |f.s.threads| && (f.s.threads[t] == Idle || f.s.threads[t].ACount?)
    requires forall i ::
             0 <= i < |acts| ==> acts[i].thread == t && (acts[i].choice == Proceed || acts[i].choice == Spurious)
    requires Play(f, acts).Some? && Returned(Play(f, acts).value, t)
    ensures var g := Play(f, acts).value;
            g.a == f.a && g.s.held == f.s.held + (if f.s.threads[t].ACount? then multiset{f.s.threads[t].node}
                else multiset{})
    decreases |acts|
  {
    if f.s.threads[t].ACount? { AfterDecision(Then(f, t, acts[0].choice), t, acts[1..]); }
  }

  lemma {:induction false} PlaySnoc(f: Config, acts: seq<Act>, t: nat, c: Choice)
    requires Play(f, acts).Some?
    requires var g := Play(f, acts).value; t < |g.s.threads| && Advance(g.s, t, c).Some?
    ensures Play(f, acts + [Act(t, c)]) == Some(Then(Play(f, acts).value, t, c))
    decreases |acts|
  {
    hide Advance, Effect;
    if acts != [] {
      var u, d := acts[0].thread, acts[0].choice;
      PlaySnoc(Config(Advance(f.s, u, d).value, Effect(f.a, f.s, u, d)), acts[1..], t, c);
      assert (acts + [Act(t, c)])[1..] == acts[1..] + [Act(t, c)];
    } else {
      var one := [Act(t, c)];
      assert acts + one == one && one[1..] == [];
      assert Play(Then(f, t, c), one[1..]) == Some(Then(f, t, c));
    }
  }

  lemma {:induction false} ReachStep(f: Config, capacity: nat, threads: nat, t: nat, c: Choice)
    requires Reachable(f, capacity, threads) && t < |f.s.threads| && Advance(f.s, t, c).Some?
    ensures Reachable(Then(f, t, c), capacity, threads)
  {
    hide Play, Advance, Then;
    var f0 := Config(Created(capacity, threads), Stacks(Down(capacity), []));
    var acts :| Play(f0, acts) == Some(f);
    PlaySnoc(f0, acts, t, c);
  }

  /** Two threads, two nodes: node 1's link is n1, node 0's is always null. */
  function Two(head: Tagged, free: Tagged, n1: Tagged, allocs: nat, frees: nat, held: multiset<nat>,
               t0: Local, t1: Local, a: Stacks): Config {
    Config(State(head, free, [Tagged(None, 0), n1], allocs, frees, held, [t0, t1]), a)
  }

  ghost predicate Alike(r: State, s: State) {
    && r.head == s.head && r.free == s.free && r.allocs == s.allocs && r.frees == s.frees && r.held == s.held
    && |r.next| == |s.next| == 2 && r.next[0] == s.next[0] && r.next[1] == s.next[1]
    && |r.threads| == |s.threads| == 2 && r.threads[0] == s.threads[0] && r.threads[1] == s.threads[1]
  }

  lemma {:induction false} StepTo(f: Config, t: nat, c: Choice, g: Config)
    requires Reachable(f, 2, 2) && t < |f.s.threads| && Advance(f.s, t, c).Some?
    requires Alike(Advance(f.s, t, c).value, g.s)
    requires Effect(f.a, f.s, t, c).head == g.a.head && Effect(f.a, f.s, t, c).free == g.a.free
    ensures Reachable(g, 2, 2)
  {
    hide Reachable, Advance, Effect;
    ReachStep(f, 2, 2, t, c);
    var r := Advance(f.s, t, c).value;
    assert r.next == g.s.next && r.threads == g.s.threads;
    assert Then(f, t, c) == g;
  }

  const NULL0 := Tagged(None, 0)
  const TO0 := Tagged(Some(0), 0)
  const TO1 := Tagged(Some(1), 0)

  lemma {:induction false} StartOfTwo()
    ensures Reachable(Two(TO1, NULL0, TO0, 0, 0, multiset{}, Idle, Idle, Stacks([1, 0], [])), 2, 2)
  {
    var f0 := Config(Created(2, 2), Stacks(Down(2), []));
    assert Play(f0, []) == Some(f0);
    assert Down(1) == [0] && Down(2) == [1, 0];
    assert f0.s.next == [NULL0, TO0] && f0.s.threads == [Idle, Idle];
  }

  lemma {:induction false} FirstAlloc()
    ensures Reachable(Two(Tagged(Some(0), 1), NULL0, TO0, 1, 0, multiset{1}, Idle, Idle, Stacks([0], [])), 2, 2)
  {
    hide Reachable;
    StartOfTwo();
    var a := Stacks([1, 0], []);
    var f0 := Two(TO1, NULL0, TO0, 0, 0, multiset{}, Idle, Idle, a);
    var f1 := Two(TO1, NULL0, TO0, 0, 0, multiset{}, AStart, Idle, a);
    var f2 := Two(TO1, NULL0, TO0, 0, 0, multiset{}, AHead, Idle, a);
    var f3 := Two(TO1, NULL0, TO0, 0, 0, multiset{}, ARead(Head, TO1), Idle, a);
    var f4 := Two(TO1, NULL0, TO0, 0, 0, multiset{}, ACas(Head, TO1, Tagged(Some(0), 1)), Idle, a);
    var f5 := Two(Tagged(Some(0), 1), NULL0, TO0, 0, 0, multiset{}, ACount(1), Idle, Stacks([0], []));
    StepTo(f0, 0, CallAlloc, f1);
    StepTo(f1, 0, Proceed, f2);
    StepTo(f2, 0, Proceed, f3);
    StepTo(f3, 0, Proceed, f4);
    StepTo(f4, 0, Proceed, f5);
    StepTo(f5, 0, Proceed, Two(Tagged(Some(0), 1), NULL0, TO0, 1, 0, multiset{1}, Idle, Idle, Stacks([0], [])));
  }

  lemma {:induction false} ThenFree()
    ensures Reachable(Two(Tagged(Some(0), 1), Tagged(Some(1), 1), Tagged(None, 1), 1, 1, multiset{}, Idle, Idle,
            Stacks([0], [1])), 2, 2)
  {
    hide Reachable;
    FirstAlloc();
    var h, a := Tagged(Some(0), 1), Stacks([0], []);
    var f1 := Two(h, NULL0, TO0, 1, 0, multiset{}, FLoad(1), Idle, a);
    var f2 := Two(h, NULL0, TO0, 1, 0, multiset{}, FStore(1, NULL0), Idle, a);
    var f3 := Two(h, NULL0, Tagged(None, 1), 1, 0, multiset{}, FCas(1, NULL0), Idle, a);
    var f4 := Two(h, Tagged(Some(1), 1), Tagged(None, 1), 1, 0, multiset{}, FCount, Idle, Stacks([0], [1]));
    StepTo(Two(h, NULL0, TO0, 1, 0, multiset{1}, Idle, Idle, a), 0, CallFree(1), f1);
    StepTo(f1, 0, Proceed, f2);
    StepTo(f2, 0, Proceed, f3);
    StepTo(f3, 0, Proceed, f4);
    StepTo(f4, 0, Proceed, Two(h, Tagged(Some(1), 1), Tagged(None, 1), 1, 1, multiset{}, Idle, Idle, Stacks([0], [1])));
  }

  /** pool_alloc can fail while the pool has nodes: two threads race for the only node of the free list, and the loser
      gives up without looking at the head list, where a node remains. */
  lemma {:induction false} NullWithNodesLeft() returns (f: Config)
    ensures Reachable(f, 2, 2)
    ensures |f.s.threads| == 2 && f.s.threads[1] == ARead(Free, Tagged(None, 2)) && f.a.head == [0]
    ensures Advance(f.s, 1, Proceed) == Some(f.s.Go(1, Idle))
  {
    hide Reachable;
    ThenFree();
    var h, n, a := Tagged(Some(0), 1), Tagged(None, 1), Stacks([0], [1]);
    var one := Tagged(Some(1), 1);
    var want := Tagged(None, 2);
    var f1 := Two(h, one, n, 1, 1, multiset{}, Idle, AStart, a);
    var f2 := Two(h, one, n, 1, 1, multiset{}, Idle, ARead(Free, one), a);
    StepTo(Two(h, one, n, 1, 1, multiset{}, Idle, Idle, a), 1, CallAlloc, f1);
    StepTo(f1, 1, Proceed, f2);
    f := Raced(f2, h, n, a, one, want);
  }

  lemma {:induction false} Raced(f2: Config, h: Tagged, n: Tagged, a: Stacks, one: Tagged, want: Tagged)
      returns (f: Config)
    requires h == Tagged(Some(0), 1) && n == Tagged(None, 1) && a == Stacks([0], [1]) && one == Tagged(Some(1), 1)
             && want == Tagged(None, 2)
    requires f2 == Two(h, one, n, 1, 1, multiset{}, Idle, ARead(Free, one), a) && Reachable(f2, 2, 2)
    ensures Reachable(f, 2, 2)
    ensures f == Two(h, want, n, 1, 1, multiset{}, ACount(1), ARead(Free, want), Stacks([0], []))
  {
    hide Reachable;
    var b := Stacks([0], []);
    var f3 := Two(h, one, n, 1, 1, multiset{}, AStart, ARead(Free, one), a);
    var f4 := Two(h, one, n, 1, 1, multiset{}, ARead(Free, one), ARead(Free, one), a);
    var f5 := Two(h, one, n, 1, 1, multiset{}, ACas(Free, one, want), ARead(Free, one), a);
    var f6 := Two(h, want, n, 1, 1, multiset{}, ACount(1), ARead(Free, one), b);
    var f7 := Two(h, want, n, 1, 1, multiset{}, ACount(1), ACas(Free, one, want), b);
    f := Two(h, want, n, 1, 1, multiset{}, ACount(1), ARead(Free, want), b);
    StepTo(f2, 0, CallAlloc, f3);
    StepTo(f3, 0, Proceed, f4);
    StepTo(f4, 0, Proceed, f5);
    StepTo(f5, 0, Proceed, f6);
    StepTo(f6, 1, Proceed, f7);
    StepTo(f7, 1, Proceed, f);
  }
}
