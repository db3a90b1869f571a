/** A chunk's bytes and the run-length table of their source lines, two buffers grown by two different rules. */
module LineTable {
  import opened Base
  import opened Bytecode

  datatype Run = Run(line: int, count: nat)

  /** The line of every byte, in order. */
  function Expand(runs: seq<Run>): (lines: seq<int>)
    decreases |runs|
  {
    if runs == [] then []
    else
      var last := runs[|runs| - 1];
      Expand(runs[..|runs| - 1]) + seq(last.count, _ => last.line)
  }

  function Total(runs: seq<Run>): nat {
    if runs == [] then 0 else Total(runs[..|runs| - 1]) + runs[|runs| - 1].count
  }

  /** No run is empty, and no two neighbours could have been one run. */
  ghost predicate Tight(runs: seq<Run>) {
    && (forall i :: 0 <= i < |runs| ==> runs[i].count > 0)
    && (forall i :: 0 <= i < |runs| - 1 ==> runs[i].line != runs[i + 1].line)
  }

  lemma {:induction false} TotalIsLength(runs: seq<Run>)
    ensures |Expand(runs)| == Total(runs)
    decreases |runs|
  {
    if runs != [] { TotalIsLength(runs[..|runs| - 1]); }
  }

  /** A tight table is determined by the lines it stands for. */
  lemma {:induction false} TightIsUnique(a: seq<Run>, b: seq<Run>)
    requires Tight(a) && Tight(b) && Expand(a) == Expand(b)
    ensures a == b
    decreases |a|
  {
    TotalIsLength(a);
    TotalIsLength(b);
    if a == [] || b == [] {
      NotEmpty(a);
      NotEmpty(b);
    } else {
      var n, m := |a| - 1, |b| - 1;
      LastRun(a);
      LastRun(b);
      var k, lines := |Expand(a)|, Expand(a);
      assert lines[k - 1] == a[n].line == b[m].line;
      assert a[n].count == b[m].count;
      TightIsUnique(a[..n], b[..m]);
      assert a == a[..n] + [a[n]];
      assert b == b[..m] + [b[m]];
    }
  }

  lemma {:induction false} NotEmpty(runs: seq<Run>)
    requires Tight(runs)
    ensures runs != [] ==> Total(runs) > 0
  {
  }

  /** The last run covers the last lines, and the line before it, if there is one, differs. */
  lemma {:induction false} LastRun(runs: seq<Run>)
    requires Tight(runs) && runs != []
    ensures var lines, last := Expand(runs), runs[|runs| - 1];
            && |lines| == Total(runs[..|runs| - 1]) + last.count
            && (forall i :: |lines| - last.count <= i < |lines| ==> lines[i] == last.line)
            && (|lines| > last.count ==> lines[|lines| - last.count - 1] != last.line)
            && Expand(runs[..|runs| - 1]) == lines[..|lines| - last.count]
            && (|lines| == last.count <==> |runs| == 1)
  {
    var front := runs[..|runs| - 1];
    TotalIsLength(front);
    if front != [] {
      var f := front[|front| - 1];
      TotalIsLength(front[..|front| - 1]);
      assert f == runs[|runs| - 2];
      assert Expand(front)[|Expand(front)| - 1] == f.line;
    }
  }

  /** The line of the i-th byte of a run table, counted from the run that ends the prefix of length k. */
  lemma {:induction false} PrefixLines(runs: seq<Run>, k: nat)
    requires k < |runs|
    ensures Total(runs[..k + 1]) == Total(runs[..k]) + runs[k].count && Total(runs[..k + 1]) <= |Expand(runs)|
    ensures forall i :: Total(runs[..k]) <= i < Total(runs[..k + 1]) ==> Expand(runs)[i] == runs[k].line
    decreases |runs|
  {
    assert runs[..k + 1][..k] == runs[..k];
    TotalIsLength(runs[..k]);
    TotalIsLength(runs);
    var n := |runs| - 1;
    if k < n {
      PrefixLines(runs[..n], k);
      assert runs[..n][..k + 1] == runs[..k + 1] && runs[..n][..k] == runs[..k];
      forall i | Total(runs[..k]) <= i < Total(runs[..k + 1]) ensures Expand(runs)[i] == runs[k].line {
        assert Expand(runs[..n])[i] == runs[k].line;
      }
    } else {
      assert runs[..k + 1] == runs;
    }
  }

  lemma {:induction false} NewRun(runs: seq<Run>, line: int)
    requires Tight(runs) && (runs == [] || runs[|runs| - 1].line != line)
    ensures var r := runs + [Run(line, 1)];
            Tight(r) && Expand(r) == Expand(runs) + [line] && Total(r) == Total(runs) + 1
  {
    assert (runs + [Run(line, 1)])[..|runs|] == runs;
  }

  lemma {:induction false} LongerRun(runs: seq<Run>)
    requires Tight(runs) && runs != []
    ensures var n := |runs| - 1;
            var r := runs[n := Run(runs[n].line, runs[n].count + 1)];
            Tight(r) && Expand(r) == Expand(runs) + [runs[n].line] && Total(r) == Total(runs) + 1
  {
    var n := |runs| - 1;
    var r := runs[n := Run(runs[n].line, runs[n].count + 1)];
    assert r[..n] == runs[..n];
  }

  /** The capacities that growing from nothing goes through. */
  predicate Reached(capacity: nat) {
    capacity == 0 || capacity == 8 || (capacity > 8 && capacity % 2 == 0 && Reached(capacity / 2))
  }

  lemma {:induction false} GrowReaches(capacity: nat)
    requires Reached(capacity)
    ensures Reached(Grown(capacity)) && Grown(capacity) > capacity
  {
  }

  /** Growth goes through every capacity in between: the smaller of two, grown once, does not pass the larger. */
  lemma {:induction false} GrowStaysBelow(small: nat, large: nat)
    requires Reached(small) && Reached(large) && small < large
    ensures Grown(small) <= large
    decreases large
  {
    if small > 8 { GrowStaysBelow(small / 2, large / 2); }
  }

  /** A buffer moved to one of another size keeps what both have room for. */
  method Reallocate<T(0)>(buffer: array<T>, size: nat) returns (r: array<T>)
    ensures fresh(r) && r.Length == size
    ensures forall i :: 0 <= i < size && i < buffer.Length ==> r[i] == buffer[i]
  {
    r := new T[size];
    var n := if size < buffer.Length then size else buffer.Length;
    for i := 0 to n
      invariant forall j :: 0 <= j < i ==> r[j] == buffer[j]
    {
      r[i] := buffer[i];
    }
  }

  class Chunk {
    var count: nat
    var capacity: nat
    var code: array<Byte>
    var runCount: nat
    var runCapacity: nat
    var runs: array<Run>
    // The line given with each byte.
    ghost var lines: seq<int>

    /** The run buffer has at least the room its own capacity promises, although the code buffer's growth resizes it
        too. */
    ghost predicate Valid()
      reads this, code, runs
    {
      && count <= capacity == code.Length && Reached(capacity)
      && runCount <= runCapacity <= runs.Length && Reached(runCapacity) && runCapacity <= capacity
      && runCount <= count
      && Tight(runs[..runCount]) && Expand(runs[..runCount]) == lines && Total(runs[..runCount]) == count == |lines|
    }

    constructor ()
      ensures Valid() && count == 0 && lines == [] && fresh(code) && fresh(runs)
    {
      count, capacity, code := 0, 0, new Byte[0];
      runCount, runCapacity, runs := 0, 0, new Run[0];
      lines := [];
    }

    method WriteChunk(byte: Byte, line: int)
      requires Valid()
      modifies this, code, runs
      ensures Valid() && (code == old(code) || fresh(code)) && (runs == old(runs) || fresh(runs))
      ensures code[..count] == old(code[..count]) + [byte] && lines == old(lines) + [line]
      ensures capacity == if old(count) < old(capacity) then old(capacity)
                          else if old(capacity) < 8 then 8 else 2 * old(capacity)
      ensures runCapacity == if runCount <= old(runCapacity) then old(runCapacity)
                             else if old(runCapacity) < 8 then 8 else 2 * old(runCapacity)
    {
      hide Expand, Total, Tight, Reached;
      GrowCode();
      AddLine(line);
      code[count] := byte;
      count := count + 1;
      lines := lines + [line];
    }

    /** Room for one more byte; the run buffer is moved to the new code capacity as well, its own capacity unchanged. */
    method GrowCode()
      requires Valid()
      modifies this
      ensures Valid() && count < capacity && (code == old(code) || fresh(code)) && (runs == old(runs) || fresh(runs))
      ensures count == old(count) && code[..count] == old(code[..count]) && lines == old(lines)
      ensures capacity == if old(count) < old(capacity) then old(capacity) else Grown(old(capacity))
      ensures runCount == old(runCount) && runCapacity == old(runCapacity)
    {
      hide Expand, Total, Tight, Reached;
      if capacity < count + 1 {
        GrowReaches(capacity);
        capacity := Grown(capacity);
        code := Reallocate(code, capacity);
        runs := Reallocate(runs, capacity);
        assert runs[..runCount] == old(runs[..runCount]);
        assert code[..count] == old(code[..count]);
      }
    }

    /** Room for one more run. */
    method GrowRuns()
      requires Valid() && count < capacity
      modifies this`runs, this`runCapacity
      ensures Valid() && runCount < runCapacity && (runs == old(runs) || fresh(runs))
      ensures runs[..runCount] == old(runs[..runCount])
      ensures runCapacity == if runCount < old(runCapacity) then old(runCapacity) else Grown(old(runCapacity))
    {
      hide Expand, Total, Tight, Reached;
      if runCapacity < runCount + 1 {
        GrowReaches(runCapacity);
        GrowStaysBelow(runCapacity, capacity);
        runCapacity := Grown(runCapacity);
        runs := Reallocate(runs, runCapacity);
        assert runs[..runCount] == old(runs[..runCount]);
      }
    }

    method AddLine(line: int)
      requires Valid() && count < capacity
      modifies this`runs, this`runCapacity, this`runCount, runs
      ensures runCount <= runCapacity <= runs.Length && Reached(runCapacity) && runCapacity <= capacity
              && runCount <= count + 1
      ensures runs == old(runs) || fresh(runs)
      ensures Tight(runs[..runCount]) && Expand(runs[..runCount]) == lines + [line]
              && Total(runs[..runCount]) == count + 1
      ensures runCapacity == if runCount <= old(runCapacity) then old(runCapacity) else Grown(old(runCapacity))
    {
      hide Expand, Total, Tight, Reached;
      ghost var before := runs[..runCount];
      if runCount == 0 || runs[runCount - 1].line != line {
        GrowRuns();
        assert runs[..runCount] == before;
        runs[runCount] := Run(line, 1);
        runCount := runCount + 1;
        assert runs[..runCount] == before + [Run(line, 1)];
        NewRun(before, line);
      } else {
        runs[runCount - 1] := runs[runCount - 1].(count := runs[runCount - 1].count + 1);
        LongerRun(before);
        assert runs[..runCount] == before[runCount - 1 := Run(line, before[runCount - 1].count + 1)];
      }
    }

    /** The line of a byte; past the end there is none, and a negative index reads as the first byte's. */
    method GetRleLine(index: int) returns (line: Option<int>)
      requires Valid()
      ensures line == if index >= count || count == 0 then None else Some(lines[if index < 0 then 0 else index])
    {
      var total := 0;
      for i := 0 to runCount
        invariant total == Total(runs[..i]) && (total <= index || i == 0)
      {
        PrefixLines(runs[..runCount], i);
        assert runs[..runCount][..i] == runs[..i] && runs[..runCount][..i + 1] == runs[..i + 1];
        total := total + runs[i].count;
        if index < total {
          assert Expand(runs[..runCount])[if index < 0 then 0 else index] == runs[i].line;
          return Some(runs[i].line);
        }
      }
      line := None;
      assert runs[..runCount][..runCount] == runs[..runCount];
    }
  }
}
