/** The hash table: open addressing with tombstones over an array whose size is a power of two. */
module HashTable {
  import opened Base
  import opened Syntax
  import opened Bytecode
  import opened Hashing
  import Arith

  /** Interned strings are compared by reference; their contents and hash never change. */
  class Str {
    const chars: seq<Byte>
    const hash: nat
    var isMarked: bool

    constructor (cs: seq<Byte>, h: nat)
      requires h == Hash(cs)
      ensures chars == cs && hash == h && !isMarked
    {
      chars, hash, isMarked := cs, h, false;
    }
  }

  // A null value is None.
  type Slot = Option<Value>

  /** A slot without a key is empty when its value is null and a tombstone otherwise. */
  datatype Entry = Entry(key: Str?, value: Slot) {
    predicate Empty() { key == null && value == None }
    predicate Live() { key != null }
  }

  const EMPTY: Entry := Entry(null, None)
  const TOMBSTONE: Entry := Entry(null, Some(Bool(true)))

  /** Live entries and tombstones. */
  function Filled(s: seq<Entry>): (n: nat)
    ensures n <= |s|
  {
    if s == [] then 0 else Filled(s[..|s| - 1]) + (if s[|s| - 1].Empty() then 0 else 1)
  }

  function LiveCount(s: seq<Entry>): (n: nat)
    ensures n <= Filled(s)
  {
    if s == [] then 0 else LiveCount(s[..|s| - 1]) + (if s[|s| - 1].Live() then 1 else 0)
  }

  function Home(k: Str, n: nat): nat
    requires n > 0
  {
    Mask(k.hash, n)
  }

  /** The slot d places after h, around the table. */
  function Around(h: nat, d: nat, n: nat): (i: nat)
    requires h < n && d <= n
    ensures d < n ==> i < n
  {
    if h + d < n then h + d else h + d - n
  }

  function Distance(h: nat, i: nat, n: nat): (d: nat)
    requires h < n && i < n
    ensures d < n && Around(h, d, n) == i
  {
    if i >= h then i - h else i - h + n
  }

  /** No empty slot lies on the way from the key's home to slot i. */
  ghost predicate Connected(s: seq<Entry>, k: Str, i: nat)
    requires i < |s|
  {
    && Home(k, |s|) < |s|
    && forall d {:trigger Around(Home(k, |s|), d, |s|)} ::
         0 <= d < Distance(Home(k, |s|), i, |s|) ==> !s[Around(Home(k, |s|), d, |s|)].Empty()
  }

  /** Every live entry can be reached from its home, and no key is in two places. */
  ghost predicate TableOk(s: seq<Entry>) {
    && (forall i :: 0 <= i < |s| && s[i].Live() ==> Connected(s, s[i].key, i))
    && (forall i, j :: 0 <= i < |s| && 0 <= j < |s| && s[i].Live() && s[i].key == s[j].key ==> i == j)
  }

  /** The load bound, in whole numbers. */
  predicate Light(count: nat, n: nat) {
    4 * count <= 3 * n
  }

  ghost predicate Ok(s: seq<Entry>, count: nat) {
    && count == Filled(s) && Light(count, |s|) && TableOk(s)
    && (s != [] ==> PowerOfTwo(|s|))
  }

  ghost function Keys(s: seq<Entry>): set<Str> {
    set i | 0 <= i < |s| && s[i].Live() :: s[i].key
  }

  ghost function ValueOf(s: seq<Entry>, k: Str): Slot
    requires k in Keys(s)
  {
    var i :| 0 <= i < |s| && s[i].key == k;
    s[i].value
  }

  /** The table as a finite map. */
  ghost function Contents(s: seq<Entry>): map<Str, Slot> {
    map k | k in Keys(s) :: ValueOf(s, k)
  }

  lemma {:induction false} ValueAt(s: seq<Entry>, i: nat)
    requires TableOk(s) && i < |s| && s[i].Live()
    ensures s[i].key in Contents(s) && Contents(s)[s[i].key] == s[i].value
  {
    assert s[i].key in Keys(s);
  }

  lemma {:induction false} FilledUpdate(s: seq<Entry>, i: nat, e: Entry)
    requires i < |s|
    ensures Filled(s[i := e]) == Filled(s) - (if s[i].Empty() then 0 else 1) + (if e.Empty() then 0 else 1)
    decreases |s|
  {
    var last := |s| - 1;
    if i < last {
      FilledUpdate(s[..last], i, e);
      assert s[i := e][..last] == s[..last][i := e];
    } else {
      assert s[i := e][..last] == s[..last];
    }
  }

  lemma {:induction false} AllFull(s: seq<Entry>)
    requires forall i :: 0 <= i < |s| ==> !s[i].Empty()
    ensures Filled(s) == |s|
    decreases |s|
  {
    if s != [] { AllFull(s[..|s| - 1]); }
  }

  lemma {:induction false} NoneFull(s: seq<Entry>)
    requires forall i :: 0 <= i < |s| ==> s[i].Empty()
    ensures Filled(s) == 0
    decreases |s|
  {
    if s != [] { NoneFull(s[..|s| - 1]); }
  }

  /** Under the load bound a whole turn around the table meets an empty slot. */
  lemma {:induction false} TurnMeetsEmpty(s: seq<Entry>, count: nat, h: nat)
    requires count == Filled(s) && Light(count, |s|) && h < |s|
    ensures exists d :: 0 <= d < |s| && s[Around(h, d, |s|)].Empty()
  {
    if forall d :: 0 <= d < |s| ==> !s[Around(h, d, |s|)].Empty() {
      forall i | 0 <= i < |s| ensures !s[i].Empty() {
        assert Around(h, Distance(h, i, |s|), |s|) == i;
      }
      AllFull(s);
    }
  }

  /** What probing for a key finds: the key's own slot, or else the first one on the way without a key, be it a
      tombstone or empty. */
  ghost predicate Finds(s: seq<Entry>, k: Str, i: nat) {
    && i < |s| && Connected(s, k, i)
    && (k in Keys(s) ==> s[i].key == k)
    && (k !in Keys(s) ==> FirstKeyless(s, k, i))
  }

  ghost predicate FirstKeyless(s: seq<Entry>, k: Str, i: nat)
    requires i < |s| && Home(k, |s|) < |s|
  {
    && s[i].key == null
    && forall d {:trigger Around(Home(k, |s|), d, |s|)} ::
         0 <= d < Distance(Home(k, |s|), i, |s|) ==> s[Around(Home(k, |s|), d, |s|)].key != null
  }

  /** An empty slot ends the search: no live entry of the key lies beyond it. */
  lemma {:induction false} EmptyEnds(s: seq<Entry>, k: Str, d: nat)
    requires TableOk(s) && s != [] && PowerOfTwo(|s|) && Home(k, |s|) < |s| && d < |s|
    requires forall e {:trigger Around(Home(k, |s|), e, |s|)} :: 0 <= e < d ==> s[Around(Home(k, |s|), e, |s|)].key != k
    requires s[Around(Home(k, |s|), d, |s|)].Empty()
    ensures k !in Keys(s)
  {
    forall i | 0 <= i < |s| && s[i].Live() ensures s[i].key != k {
      var far := Distance(Home(k, |s|), i, |s|);
      assert Around(Home(k, |s|), far, |s|) == i;
      assert Connected(s, s[i].key, i);
    }
  }

  /** Slots on the way to a slot that was reached. */
  lemma {:induction false} ReachedAt(s: seq<Entry>, k: Str, d: nat)
    requires s != [] && Home(k, |s|) < |s| && d < |s|
    requires forall e {:trigger Around(Home(k, |s|), e, |s|)} :: 0 <= e < d ==> !s[Around(Home(k, |s|), e, |s|)].Empty()
    ensures Connected(s, k, Around(Home(k, |s|), d, |s|))
  {
    assert Distance(Home(k, |s|), Around(Home(k, |s|), d, |s|), |s|) == d;
  }

  ghost predicate NoneKeyless(s: seq<Entry>, h: nat, d: nat)
    requires h < |s| && d <= |s|
  {
    forall e {:trigger Around(h, e, |s|)} :: 0 <= e < d ==> s[Around(h, e, |s|)].key != null
  }

  lemma {:induction false} KeylessAt(s: seq<Entry>, k: Str, d: nat)
    requires s != [] && Home(k, |s|) < |s| && d < |s| && NoneKeyless(s, Home(k, |s|), d)
    requires s[Around(Home(k, |s|), d, |s|)].key == null
    ensures FirstKeyless(s, k, Around(Home(k, |s|), d, |s|))
  {
    assert Distance(Home(k, |s|), Around(Home(k, |s|), d, |s|), |s|) == d;
  }

  lemma {:induction false} FoundKey(s: seq<Entry>, k: Str, i: nat)
    requires i < |s| && s[i].key == k && Connected(s, k, i)
    ensures Finds(s, k, i)
  {
    assert s[i].Live();
  }

  /** find_entry: the key's slot, or the first tombstone met on the way to an empty slot, or that slot. */
  method FindEntry(entries: array<Entry>, key: Str, ghost count: nat) returns (at: nat)
    requires Ok(entries[..], count) && entries.Length > 0
    ensures Finds(entries[..], key, at)
  {
    hide TableOk, Filled, Connected, FirstKeyless, PowerOfTwo, Keys, Mask;
    ghost var s := entries[..];
    MaskIsMod(key.hash, |s|);
    var index := Mask(key.hash, entries.Length);
    ghost var h := index;
    TurnMeetsEmpty(s, count, h);
    ghost var far :| 0 <= far < |s| && s[Around(h, far, |s|)].Empty();
    var tombstone: Option<nat> := None;
    ghost var d: nat := 0;
    while true
      invariant d <= far && index == Around(h, d, |s|) && index < |s|
      invariant forall e {:trigger Around(h, e, |s|)} ::
                0 <= e < d ==> !s[Around(h, e, |s|)].Empty() && s[Around(h, e, |s|)].key != key
      invariant tombstone.Some? ==>
                  tombstone.value < |s| && FirstKeyless(s, key, tombstone.value) && Connected(s, key, tombstone.value)
      invariant tombstone.None? ==> NoneKeyless(s, h, d)
      decreases far - d
    {
      ReachedAt(s, key, d);
      var entry := entries[index];
      if entry.key == null {
        if entry.value == None {
          EmptyEnds(s, key, d);
          if tombstone == None { KeylessAt(s, key, d); }
          at := if tombstone.Some? then tombstone.value else index;
          return;
        }
        if tombstone == None {
          tombstone := Some(index);
          KeylessAt(s, key, d);
        }
      } else if entry.key == key {
        FoundKey(s, key, index);
        return index;
      }
      MaskNext(index, |s|);
      index := Mask(index + 1, entries.Length);
      d := d + 1;
    }
  }

  /** Putting an entry where probing led keeps the table and changes the map at that key alone. */
  lemma {:induction false} Puts(s: seq<Entry>, k: Str, v: Slot, at: nat)
    requires TableOk(s) && Finds(s, k, at)
    ensures var t := s[at := Entry(k, v)];
            TableOk(t) && Contents(t) == Contents(s)[k := v]
  {
    var t := s[at := Entry(k, v)];
    StillConnected(s, at, Entry(k, v));
    forall i | 0 <= i < |t| && t[i].Live() ensures Connected(t, t[i].key, i) {
      if i != at { assert Connected(s, s[i].key, i); } else { assert Connected(s, k, at); }
    }
    OnlyAt(s, k, at);
    PutsMap(s, k, v, at);
  }

  /** Filling a slot disconnects nothing. */
  lemma {:induction false} StillConnected(s: seq<Entry>, at: nat, e: Entry)
    requires at < |s| && !e.Empty()
    ensures forall k, i :: 0 <= i < |s| && Connected(s, k, i) ==> Connected(s[at := e], k, i)
  {
  }

  lemma {:induction false} PutsMap(s: seq<Entry>, k: Str, v: Slot, at: nat)
    requires TableOk(s) && Finds(s, k, at) && TableOk(s[at := Entry(k, v)])
    ensures Contents(s[at := Entry(k, v)]) == Contents(s)[k := v]
  {
    var t := s[at := Entry(k, v)];
    hide Connected, TableOk, ValueOf;
    KeysPut(s, k, v, at);
    forall q | q in Keys(t) ensures Contents(t)[q] == Contents(s)[k := v][q] {
      if q == k {
        ValueAt(t, at);
      } else {
        var i :| 0 <= i < |s| && s[i].Live() && s[i].key == q;
        assert i != at && t[i] == s[i];
        ValueAt(s, i);
        ValueAt(t, i);
      }
    }
  }

  lemma {:induction false} KeysPut(s: seq<Entry>, k: Str, v: Slot, at: nat)
    requires Finds(s, k, at)
    ensures Keys(s[at := Entry(k, v)]) == Keys(s) + {k}
    ensures forall i :: 0 <= i < |s| && s[i].Live() && i == at ==> s[i].key == k
  {
    hide Connected;
    var t := s[at := Entry(k, v)];
    forall q | q in Keys(s) + {k} ensures q in Keys(t) {
      if q == k {
        assert t[at].key == k && t[at].Live();
      } else {
        var i :| 0 <= i < |s| && s[i].Live() && s[i].key == q;
        assert t[i] == s[i];
      }
    }
    forall q | q in Keys(t) ensures q in Keys(s) + {k} {
      var i :| 0 <= i < |t| && t[i].Live() && t[i].key == q;
      if i != at { assert s[i] == t[i]; }
    }
  }

  /** Turning a key's slot into a tombstone removes that key alone. */
  lemma {:induction false} Buries(s: seq<Entry>, k: Str, at: nat)
    requires TableOk(s) && at < |s| && s[at].key == k
    ensures var t := s[at := TOMBSTONE];
            TableOk(t) && Contents(t) == Contents(s) - {k}
  {
    var t := s[at := TOMBSTONE];
    StillConnected(s, at, TOMBSTONE);
    forall i | 0 <= i < |t| && t[i].Live() ensures Connected(t, t[i].key, i) {
      assert Connected(s, s[i].key, i);
    }
    assert TableOk(t);
    OnlyAt(s, k, at);
    hide Connected, TableOk, ValueOf;
    forall q | q in Keys(s) - {k} ensures q in Keys(t) {
      var i :| 0 <= i < |s| && s[i].Live() && s[i].key == q;
      assert t[i] == s[i];
    }
    forall q | q in Keys(t) ensures q in Keys(s) - {k} && Contents(t)[q] == Contents(s)[q] {
      var i :| 0 <= i < |t| && t[i].Live() && t[i].key == q;
      assert t[i] == s[i];
      ValueAt(s, i);
      ValueAt(t, i);
    }
  }

  /** Where probing leads is the only place the key can be. */
  lemma {:induction false} OnlyAt(s: seq<Entry>, k: Str, at: nat)
    requires TableOk(s) && at < |s| && (k in Keys(s) ==> s[at].key == k)
    ensures forall i :: 0 <= i < |s| && s[i].key == k ==> i == at
  {
    forall i | 0 <= i < |s| && s[i].key == k ensures i == at {
      assert s[i].Live();
    }
  }

  ghost predicate NoTombstones(s: seq<Entry>) {
    forall i :: 0 <= i < |s| && !s[i].Live() ==> s[i].Empty()
  }

  lemma {:induction false} NothingMoved(s: seq<Entry>)
    ensures LiveCount(s[..0]) == 0 && Contents(s[..0]) == map[]
  {
  }

  lemma {:induction false} SameKeys(s: seq<Entry>, t: seq<Entry>)
    requires Contents(s) == Contents(t)
    ensures Keys(s) == Keys(t)
  {
    assert Contents(s).Keys == Keys(s);
    assert Contents(t).Keys == Keys(t);
  }

  lemma {:induction false} PrefixOk(s: seq<Entry>, n: nat)
    requires TableOk(s) && n < |s|
    ensures LiveCount(s[..n + 1]) == LiveCount(s[..n]) + (if s[n].Live() then 1 else 0)
    ensures LiveCount(s[..n + 1]) <= LiveCount(s)
    ensures Contents(s[..n + 1]) == if s[n].Live() then Contents(s[..n])[s[n].key := s[n].value] else Contents(s[..n])
    ensures s[n].Live() ==> s[n].key !in Keys(s[..n])
  {
    hide Connected, Contents, Keys;
    assert s[..n + 1][..n] == s[..n];
    LiveMonotone(s, n + 1);
    PrefixMap(s, n);
  }

  lemma {:induction false} PrefixMap(s: seq<Entry>, n: nat)
    requires TableOk(s) && n < |s|
    ensures Contents(s[..n + 1]) == if s[n].Live() then Contents(s[..n])[s[n].key := s[n].value] else Contents(s[..n])
    ensures s[n].Live() ==> s[n].key !in Keys(s[..n])
  {
    hide Connected, LiveCount;
    var a, b := s[..n], s[..n + 1];
    assert forall i, j :: 0 <= i < |b| && 0 <= j < |b| && b[i].Live() && b[i].key == b[j].key ==> i == j;
    forall q | q in Keys(a) ensures q in Keys(b) && Contents(b)[q] == Contents(a)[q] {
      var i :| 0 <= i < |a| && a[i].Live() && a[i].key == q;
      assert b[i] == a[i];
    }
    forall q | q in Keys(b) ensures q in Keys(a) || (s[n].Live() && q == s[n].key && Contents(b)[q] == s[n].value) {
      var i :| 0 <= i < |b| && b[i].Live() && b[i].key == q;
      if i < n { assert a[i] == b[i]; }
    }
    if s[n].Live() { assert b[n].Live() && s[n].key in Keys(b); }
  }

  lemma {:induction false} LiveMonotone(s: seq<Entry>, n: nat)
    requires n <= |s|
    ensures LiveCount(s[..n]) <= LiveCount(s)
    decreases |s|
  {
    if n < |s| {
      LiveMonotone(s[..|s| - 1], n);
      assert s[..|s| - 1][..n] == s[..n];
    } else {
      assert s[..n] == s;
    }
  }

  lemma {:induction false} FreshTable(n: nat, s: seq<Entry>)
    requires |s| == n && forall i :: 0 <= i < n ==> s[i] == EMPTY
    ensures TableOk(s) && NoTombstones(s) && Filled(s) == 0 && Contents(s) == map[]
  {
    NoneFull(s);
  }

  class HashMap {
    var entries: array<Entry>
    var count: nat

    ghost predicate Valid()
      reads this, entries
    {
      Ok(entries[..], count)
    }

    ghost function Map(): map<Str, Slot>
      reads this, entries
    {
      Contents(entries[..])
    }

    constructor ()
      ensures Valid() && fresh(entries) && Map() == map[]
    {
      entries, count := new Entry[0], 0;
    }

    /** Moves every live entry into a new array; tombstones are left behind. */
    method AdjustCapacity(capacity: nat)
      requires Valid() && PowerOfTwo(capacity) && Light(LiveCount(entries[..]), capacity)
      modifies this
      ensures Valid() && fresh(entries) && entries.Length == capacity
      ensures Map() == old(Map()) && count == LiveCount(old(entries[..]))
    {
      hide TableOk, Filled, LiveCount, Contents, PowerOfTwo;
      ghost var s := entries[..];
      MaskIsMod(0, capacity);
      var next := new Entry[capacity](_ => EMPTY);
      var moved := 0;
      FreshTable(capacity, next[..]);
      NothingMoved(s);
      for i := 0 to entries.Length
        invariant fresh(next) && next.Length == capacity && entries[..] == s && entries == old(entries)
        invariant NoTombstones(next[..]) && TableOk(next[..]) && moved == Filled(next[..]) && moved == LiveCount(s[..i])
                  && Contents(next[..]) == Contents(s[..i])
      {
        PrefixOk(s, i);
        LiveMonotone(s, i);
        var e := entries[i];
        if e.key != null {
          ghost var t := next[..];
          var at := FindEntry(next, e.key, moved);
          SameKeys(t, s[..i]);
          Puts(t, e.key, e.value, at);
          assert t[at].Empty();
          FilledUpdate(t, at, Entry(e.key, e.value));
          next[at] := Entry(e.key, e.value);
          assert next[..] == t[at := Entry(e.key, e.value)];
          moved := moved + 1;
        }
      }
      assert s[..|s|] == s;
      entries, count := next, moved;
    }

    /** Adds or overwrites; a slot is newly filled only if it was empty, for tombstones are already counted. */
    method Set(key: Str, value: Slot) returns (isNew: bool)
      requires Valid()
      modifies this, entries
      ensures Valid() && (entries == old(entries) || fresh(entries))
      ensures Map() == old(Map())[key := value] && isNew == (key !in old(Map()))
      ensures var n := old(entries.Length);
              entries.Length == if old(count) + 1 <= n * 3 / 4 then n else if n < 8 then 8 else 2 * n
      ensures var (n, s) := (old(entries.Length), old(entries[..]));
              old(count) + 1 <= n * 3 / 4 ==>
                exists at: nat :: Finds(s, key, at) && entries[..] == s[at := Entry(key, value)]
                             && count == old(count) + if s[at] == Entry(null, None) then 1 else 0
    {
      hide TableOk, Filled, LiveCount, Contents, PowerOfTwo, Keys;
      if 4 * (count + 1) > 3 * entries.Length {
        GrownPower(entries.Length);
        RoomAfterGrowth(entries[..], count);
        AdjustCapacity(Grown(entries.Length));
      }
      ghost var s := entries[..];
      var at := FindEntry(entries, key, count);
      KeysOf(s);
      Puts(s, key, value, at);
      FilledUpdate(s, at, Entry(key, value));
      isNew := entries[at].key == null;
      if isNew && entries[at].value == None { count := count + 1; }
      entries[at] := Entry(key, value);
      assert entries[..] == s[at := Entry(key, value)];
    }

    /** A null result stands for an absent key and for a key whose value is null. */
    method Get(key: Str) returns (value: Slot)
      requires Valid()
      ensures value == if key in Map() then Map()[key] else None
    {
      if count == 0 {
        NothingThere(entries[..]);
        return None;
      }
      TableExists(entries[..], count);
      var at := FindEntry(entries, key, count);
      KeysOf(entries[..]);
      if entries[at].key == null { return None; }
      ValueAt(entries[..], at);
      value := entries[at].value;
    }

    method Remove(key: Str) returns (removed: bool)
      requires Valid()
      modifies entries
      ensures Valid() && removed == (key in old(Map())) && Map() == old(Map()) - {key}
      ensures forall j :: 0 <= j < entries.Length ==>
                entries[j] == if old(entries[j]).key == key then Entry(null, Some(Bool(true))) else old(entries[j])
    {
      hide TableOk, Filled, LiveCount, Contents, PowerOfTwo, Keys;
      ghost var s := entries[..];
      KeysOf(s);
      if count == 0 {
        NothingThere(s);
        NoKeys(s);
        return false;
      }
      TableExists(s, count);
      var at := FindEntry(entries, key, count);
      OnlyAt(s, key, at);
      if entries[at].key == null {
        return false;
      }
      Buries(s, key, at);
      FilledUpdate(s, at, TOMBSTONE);
      entries[at] := TOMBSTONE;
      assert entries[..] == s[at := TOMBSTONE];
      removed := true;
    }

    /** hashmap_find_key: the key with these contents, found by probing from their hash. */
    method FindKey(chars: seq<Byte>, hash: nat) returns (found: Str?)
      requires Valid() && Hashed(entries[..]) && hash == Hash(chars)
      ensures found != null ==> found in Map() && found.chars == chars
      ensures found == null ==> forall k :: k in Map() ==> k.chars != chars
    {
      hide TableOk, Filled, LiveCount, Contents, PowerOfTwo, Keys, Hash, Mask, Hashed;
      ghost var s := entries[..];
      KeysOf(s);
      if count == 0 {
        NothingThere(s);
        return null;
      }
      TableExists(s, count);
      MaskIsMod(hash, |s|);
      var index := Mask(hash, entries.Length);
      ghost var h := index;
      TurnMeetsEmpty(s, count, h);
      ghost var far :| 0 <= far < |s| && s[Around(h, far, |s|)].Empty();
      ghost var d: nat := 0;
      while true
        invariant d <= far && index == Around(h, d, |s|) && index < |s|
        invariant forall e {:trigger Around(h, e, |s|)} :: 0 <= e < d ==>
          s[Around(h, e, |s|)].key == null || s[Around(h, e, |s|)].key.chars != chars
        decreases far - d
      {
        var entry := entries[index];
        if entry.key == null {
          if entry.value == None {
            EmptyEndsContents(s, chars, hash, d);
            return null;
          }
        } else if entry.key.hash == hash && entry.key.chars == chars {
          KeyThere(s, index);
          return entry.key;
        }
        if entry.key != null { HashedAt(s, index); }
        MaskNext(index, |s|);
        index := Mask(index + 1, entries.Length);
        d := d + 1;
      }
    }
  }

  /** Every entry of one table into another; where both have a key the first table's value wins. */
  method AddAll(from: HashMap, to: HashMap)
    requires from.Valid() && to.Valid() && from != to && from.entries != to.entries
    modifies to, to.entries
    ensures to.Valid() && to.Map() == old(to.Map()) + from.Map()
    ensures from.entries[..] == old(from.entries[..])
  {
    hide TableOk, Filled, LiveCount, Contents, PowerOfTwo;
    ghost var s := from.entries[..];
    ghost var m := to.Map();
    NothingMoved(s);
    assert m + Contents(s[..0]) == m;
    for i := 0 to from.entries.Length
      invariant to.Valid() && from.Valid() && from.entries == old(from.entries) && from.entries[..] == s
      invariant from.entries != to.entries && (to.entries == old(to.entries) || fresh(to.entries))
      invariant to.Map() == m + Contents(s[..i])
    {
      PrefixOk(s, i);
      var e := from.entries[i];
      if e.key != null {
        var _ := to.Set(e.key, e.value);
        assert (m + Contents(s[..i]))[e.key := e.value] == m + Contents(s[..i])[e.key := e.value];
      }
    }
    assert s[..|s|] == s;
  }

  /** Each key carries the hash of its contents. */
  ghost predicate Hashed(s: seq<Entry>) {
    forall i :: 0 <= i < |s| && s[i].Live() ==> s[i].key.hash == Hash(s[i].key.chars)
  }

  lemma {:induction false} HashedAt(s: seq<Entry>, i: nat)
    requires Hashed(s) && i < |s| && s[i].key != null
    ensures s[i].key.hash == Hash(s[i].key.chars)
  {
  }

  lemma {:induction false} KeyThere(s: seq<Entry>, i: nat)
    requires i < |s| && s[i].key != null
    ensures s[i].key in Keys(s)
  {
    assert s[i].Live();
  }

  lemma {:induction false} EmptyEndsContents(s: seq<Entry>, chars: seq<Byte>, hash: nat, d: nat)
    requires TableOk(s) && Hashed(s) && s != [] && PowerOfTwo(|s|) && hash == Hash(chars) && Mask(hash, |s|) < |s|
             && d < |s|
    requires forall e {:trigger Around(Mask(hash, |s|), e, |s|)} :: 0 <= e < d ==>
               s[Around(Mask(hash, |s|), e, |s|)].key == null || s[Around(Mask(hash, |s|), e, |s|)].key.chars != chars
    requires s[Around(Mask(hash, |s|), d, |s|)].Empty()
    ensures forall k :: k in Keys(s) ==> k.chars != chars
  {
    hide Hash, Mask;
    forall i | 0 <= i < |s| && s[i].Live() ensures s[i].key.chars != chars {
      if Home(s[i].key, |s|) == Mask(hash, |s|) {
        var far := Distance(Mask(hash, |s|), i, |s|);
        assert Around(Mask(hash, |s|), far, |s|) == i;
        assert Connected(s, s[i].key, i);
      } else {
        HashedAt(s, i);
      }
    }
  }

  lemma {:induction false} KeysOf(s: seq<Entry>)
    ensures Contents(s).Keys == Keys(s)
  {
  }

  lemma {:induction false} RoomAfterGrowth(s: seq<Entry>, count: nat)
    requires Ok(s, count)
    ensures |s| == 0 || PowerOfTwo(|s|)
    ensures 4 * (LiveCount(s) + 1) <= 3 * Grown(|s|)
  {
  }

  lemma {:induction false} NothingThere(s: seq<Entry>)
    requires Filled(s) == 0
    ensures Contents(s) == map[]
  {
    NoKeys(s);
  }

  lemma {:induction false} NoKeys(s: seq<Entry>)
    requires Filled(s) == 0
    ensures forall i :: 0 <= i < |s| ==> s[i].Empty()
    decreases |s|
  {
    if s != [] { NoKeys(s[..|s| - 1]); }
  }

  lemma {:induction false} TableExists(s: seq<Entry>, count: nat)
    requires Ok(s, count) && count > 0
    ensures s != []
  {
  }
}
