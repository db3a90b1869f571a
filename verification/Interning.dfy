/** String interning: one object for each content, whatever the order of insertions, growth and weak sweeps. */
module Interning {
  import opened Base
  import opened Bytecode
  import opened Hashing
  import opened HashTable

  ghost predicate Canonical(keys: set<Str>) {
    && (forall k :: k in keys ==> k.hash == Hash(k.chars))
    && (forall a, b :: a in keys && b in keys && a.chars == b.chars ==> a == b)
  }

  class StringPool {
    const table: HashMap

    ghost predicate Valid()
      reads this, table, table.entries
    {
      table.Valid() && Canonical(Strings())
    }

    /** The strings that are interned now. */
    ghost function Strings(): set<Str>
      reads this, table, table.entries
    {
      table.Map().Keys
    }

    constructor ()
      ensures Valid() && Strings() == {} && fresh(table) && fresh(table.entries)
    {
      table := new HashMap();
    }

    /** The interned string of these contents, made if there is none: against every interned string, being the same
        object and having the same contents are one thing. */
    method NewString(chars: seq<Byte>) returns (s: Str)
      requires Valid()
      modifies table, table.entries
      ensures Valid() && s in Strings() && s.chars == chars
      ensures Strings() == old(Strings()) + {s} && (s in old(Strings()) || fresh(s))
      ensures forall k :: k in old(Strings()) ==> (s == k <==> k.chars == chars)
      ensures table.Map() == if s in old(Strings()) then old(table.Map()) else old(table.Map())[s := None]
      ensures s !in old(Strings()) ==> !s.isMarked
      ensures table.entries == old(table.entries) || fresh(table.entries)
    {
      hide Hash;
      var hash := HashString(chars);
      KeysHashed(table.entries[..]);
      var found := table.FindKey(chars, hash);
      if found != null {
        assert Strings() == Strings() + {found};
        return found;
      }
      s := new Str(chars, hash);
      var _ := table.Set(s, None);
    }

    /** Concatenation builds its result first and gives it up when an equal string is interned already. */
    method Concat(left: Str, right: Str) returns (s: Str)
      requires Valid()
      modifies table, table.entries
      ensures Valid() && s in Strings() && s.chars == left.chars + right.chars
      ensures Strings() == old(Strings()) + {s} && (s in old(Strings()) || fresh(s))
      ensures forall k :: k in old(Strings()) ==> (s == k <==> k.chars == left.chars + right.chars)
      ensures table.Map() == if s in old(Strings()) then old(table.Map()) else old(table.Map())[s := None]
      ensures s !in old(Strings()) ==> !s.isMarked
    {
      hide Hash;
      var hash := HashString(left.chars + right.chars);
      var result := new Str(left.chars + right.chars, hash);
      KeysHashed(table.entries[..]);
      var interned := table.FindKey(result.chars, result.hash);
      if interned != null {
        assert Strings() == Strings() + {interned};
        return interned;
      }
      var _ := table.Set(result, None);
      s := result;
    }

    /** hashmap_remove_white: the weak sweep keeps exactly the marked strings. */
    method RemoveWhite()
      requires Valid()
      modifies table.entries
      ensures Valid() && Strings() == set k | k in old(Strings()) && k.isMarked
      ensures forall k :: k in Strings() ==> table.Map()[k] == old(table.Map())[k]
    {
      hide Contents, TableOk, Keys, Hash, Filled, Connected, PowerOfTwo;
      ghost var s := table.entries[..];
      for i := 0 to table.entries.Length
        invariant table.Valid() && |s| == table.entries.Length
        invariant forall j :: 0 <= j < |s| ==> table.entries[j] == if j < i && White(s[j]) then TOMBSTONE else s[j]
      {
        var key := table.entries[i].key;
        if key != null && !key.isMarked {
          OnlyAt(table.entries[..], key, i);
          var _ := table.Remove(key);
        }
      }
      Swept(s, table.entries[..]);
    }
  }

  ghost predicate White(e: Entry)
    reads e.key
  {
    e.key != null && !e.key.isMarked
  }

  lemma {:induction false} KeysHashed(s: seq<Entry>)
    requires Canonical(Contents(s).Keys)
    ensures Hashed(s)
  {
    hide Hash;
    KeysOf(s);
    forall i | 0 <= i < |s| && s[i].Live() ensures s[i].key.hash == Hash(s[i].key.chars) { KeyThere(s, i); }
  }

  lemma {:induction false} Swept(s: seq<Entry>, t: seq<Entry>)
    requires TableOk(s) && TableOk(t) && |s| == |t|
    requires forall j :: 0 <= j < |s| ==> t[j] == if White(s[j]) then TOMBSTONE else s[j]
    ensures Contents(t).Keys == set k | k in Contents(s).Keys && k.isMarked
    ensures forall k :: k in Contents(t).Keys ==> Contents(t)[k] == Contents(s)[k]
  {
    hide Contents, TableOk, Connected;
    KeysOf(s);
    KeysOf(t);
    forall k | k in Keys(t) ensures k in Keys(s) && k.isMarked && Contents(t)[k] == Contents(s)[k] {
      var j :| 0 <= j < |t| && t[j].Live() && t[j].key == k;
      assert s[j] == t[j];
      ValueAt(s, j);
      ValueAt(t, j);
    }
    forall k | k in Keys(s) && k.isMarked ensures k in Keys(t) {
      var j :| 0 <= j < |s| && s[j].Live() && s[j].key == k;
      assert t[j] == s[j];
    }
  }
}
