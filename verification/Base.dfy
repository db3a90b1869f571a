/** Failure-compatible option shared by the other modules. */
module Base {

  datatype Option<+T> = None | Some(value: T) {
    predicate IsFailure() {
      None?
    }

    function PropagateFailure<U>(): Option<U>
      requires None?
    {
      None
    }

    function Extract(): T
      requires Some?
    {
      value
    }
  }

  /** macro_grow_capacity, the one growth rule of all buffers. */
  function Grown(capacity: nat): nat {
    if capacity < 8 then 8 else capacity * 2
  }

  ghost predicate Distinct<T>(s: seq<T>) {
    forall i, j :: 0 <= i < j < |s| ==> s[i] != s[j]
  }

  /** There are no more different numbers below n than n. */
  lemma {:induction false} DistinctFits(s: seq<nat>, n: nat)
    requires Distinct(s) && forall x :: x in s ==> x < n
    ensures |s| <= n
    decreases n
  {
    assert s != [] ==> s[0] in s;
    if n > 0 && n - 1 in s {
      var k :| 0 <= k < |s| && s[k] == n - 1;
      var r := s[..k] + s[k + 1..];
      assert forall i :: 0 <= i < |r| ==> r[i] == s[if i < k then i else i + 1];
      forall x | x in r ensures x < n - 1 {
        var i :| 0 <= i < |r| && r[i] == x;
        assert s[if i < k then i else i + 1] in s;
      }
      DistinctFits(r, n - 1);
    } else if n > 0 {
      DistinctFits(s, n - 1);
    }
  }
}
