/** The bounded formatter: nested vectors and pairs rendered piece by piece into a buffer of a given size. */
module Formatter {
  import opened Base

  /** A value as it is shown; what takes a single print is a leaf with its text. */
  datatype Shown = Leaf(text: string) | VecOf(items: seq<Shown>) | PairOf(first: Shown, second: Shown)

  /** The rendering without a bound. */
  function Render(v: Shown): string
    decreases v
  {
    match v
    case Leaf(text) => text
    case VecOf(items) => "Vec{" + RenderItems(items) + "}"
    case PairOf(a, b) => "Pair<" + Render(a) + ", " + Render(b) + ">"
  }

  function RenderItems(items: seq<Shown>): string
    decreases items
  {
    if items == [] then ""
    else RenderItems(items[..|items| - 1]) + Separator(|items| - 1) + Render(items[|items| - 1])
  }

  function Separator(i: nat): string {
    if i > 0 then ", " else ""
  }

  function Kept(text: string, size: nat): (n: nat)
    requires size >= 1
    ensures n <= |text| && n < size && (n == |text| || n == size - 1)
  {
    if |text| < size then |text| else size - 1
  }

  /** The buffer's part of the given size holds as much of the text as fits, and a terminator. */
  ghost predicate Shows(buffer: seq<char>, at: nat, size: nat, text: string) {
    && 1 <= size && at + size <= |buffer|
    && buffer[at..at + Kept(text, size)] == text[..Kept(text, size)]
    && buffer[at + Kept(text, size)] == '\0'
  }

  /** Nothing outside the part changed. */
  ghost predicate Outside(before: seq<char>, after: seq<char>, at: nat, size: nat) {
    && |before| == |after|
    && forall i :: 0 <= i < |after| && (i < at || i >= at + size) ==> after[i] == before[i]
  }

  function Then(text: string, piece: string): string {
    text + piece
  }

  predicate Begins(text: string, whole: string) {
    text <= whole
  }

  /** A piece written where the text so far ended leaves the longer text. */
  lemma {:induction false} PieceJoins(start: seq<char>, before: seq<char>, after: seq<char>, at: nat, size: nat,
      text: string, piece: string)
    requires Outside(start, before, at, size) && Shows(before, at, size, text)
    requires var n := Kept(text, size);
             Outside(before, after, at + n, size - n) && Shows(after, at + n, size - n, piece)
    ensures Outside(start, after, at, size) && Shows(after, at, size, Then(text, piece))
    ensures Kept(Then(text, piece), size) == Kept(text, size) + Kept(piece, size - Kept(text, size))
  {
    var n := Kept(text, size);
    var m := Kept(piece, size - n);
    assert after[at..at + n] == before[at..at + n];
    assert after[at..at + n + m] == after[at..at + n] + after[at + n..at + n + m];
    if n == |text| {
      assert (text + piece)[..n + m] == text + piece[..m];
    } else {
      assert (text + piece)[..n] == text[..n];
    }
  }

  lemma {:induction false} FirstPiece(text: string, size: nat)
    requires size >= 1
    ensures Kept(text, size) == if |text| >= size then size - 1 else |text|
  {
  }

  /** What a pair shows after each of its pieces. */
  function PairText(a: string, b: string, pieces: nat): string {
    if pieces == 0 then "Pair<"
    else if pieces == 1 then Then("Pair<", a)
    else if pieces == 2 then Then(Then("Pair<", a), ", ")
    else if pieces == 3 then Then(Then(Then("Pair<", a), ", "), b)
    else Then(Then(Then(Then("Pair<", a), ", "), b), ">")
  }

  lemma {:induction false} PairParts(first: Shown, second: Shown)
    ensures var a, b, w := Render(first), Render(second), Render(PairOf(first, second));
            PairText(a, b, 4) == w && forall k: nat :: k <= 4 ==> Begins(PairText(a, b, k), w)
  {
  }

  /** What a vector shows before its element i. */
  function VecText(items: seq<Shown>, i: nat): string
    requires i <= |items|
  {
    "Vec{" + RenderItems(items[..i])
  }

  lemma {:induction false} VecParts(items: seq<Shown>, i: nat)
    requires i <= |items|
    ensures Begins("Vec{", Render(VecOf(items))) && VecText(items, 0) == "Vec{"
    ensures Begins(VecText(items, i), Render(VecOf(items)))
    ensures i == |items| ==> Then(VecText(items, i), "}") == Render(VecOf(items))
    ensures i < |items| && i > 0 ==> Begins(Then(VecText(items, i), ", "), Render(VecOf(items)))
    ensures i < |items| && i > 0 ==> Then(Then(VecText(items, i), ", "), Render(items[i])) == VecText(items, i + 1)
    ensures i < |items| && i == 0 ==> Then(VecText(items, i), Render(items[i])) == VecText(items, i + 1)
  {
    ItemsPrefix(items, i);
    assert items[..|items|] == items;
    if i < |items| { NextItem(items, i); }
  }

  /** Once the buffer is full, what would follow does not matter. */
  lemma {:induction false} FullAlready(buffer: seq<char>, at: nat, size: nat, text: string, whole: string)
    requires Shows(buffer, at, size, text) && Kept(text, size) == size - 1 && Begins(text, whole)
    ensures Shows(buffer, at, size, whole) && Kept(whole, size) == size - 1
  {
    assert whole[..size - 1] == text[..size - 1];
  }

  /** Every list that starts like items renders to text that starts alike. */
  lemma {:induction false} ItemsPrefix(items: seq<Shown>, i: nat)
    requires i <= |items|
    ensures RenderItems(items[..i]) <= RenderItems(items)
    ensures i < |items| ==> RenderItems(items[..i]) + Separator(i) <= RenderItems(items)
    decreases |items|
  {
    if i == |items| {
      assert items[..i] == items;
    } else if i == |items| - 1 {
      assert RenderItems(items) == RenderItems(items[..i]) + Separator(i) + Render(items[i]);
    } else {
      ItemsPrefix(items[..|items| - 1], i);
      assert items[..|items| - 1][..i] == items[..i];
    }
  }

  lemma {:induction false} NextItem(items: seq<Shown>, i: nat)
    requires i < |items|
    ensures RenderItems(items[..i + 1]) == RenderItems(items[..i]) + Separator(i) + Render(items[i])
  {
    assert items[..i + 1][..i] == items[..i];
  }

  /** The C library's bounded print: as much as fits is written, and the length of the whole text is returned. */
  method Print(text: string, buffer: array<char>, at: nat, size: nat) returns (written: nat)
    requires at + size <= buffer.Length
    modifies buffer
    ensures written == |text| && Outside(old(buffer[..]), buffer[..], at, size)
    ensures size >= 1 ==> Shows(buffer[..], at, size, text)
  {
    if size >= 1 {
      var n := Kept(text, size);
      for i := 0 to n
        invariant forall j :: 0 <= j < buffer.Length && (j < at || j >= at + size) ==> buffer[j] == old(buffer[j])
        invariant forall j :: 0 <= j < i ==> buffer[at + j] == text[j]
      {
        buffer[at + i] := text[i];
      }
      buffer[at + n] := '\0';
      assert buffer[..][at..at + n] == text[..n];
    }
    written := |text|;
  }

  /** Any value into any buffer; a vector or pair given no room at all is an error. */
  method Format(v: Shown, buffer: array<char>, at: nat, size: nat) returns (written: Option<nat>)
    requires at + size <= buffer.Length
    modifies buffer
    ensures Outside(old(buffer[..]), buffer[..], at, size)
    ensures written.None? == (size == 0 && !v.Leaf?)
    ensures size >= 1 ==> Shows(buffer[..], at, size, Render(v))
    ensures written.Some? ==> written.value == if v.Leaf? then |Render(v)| else Kept(Render(v), size)
  {
    if size == 0 && !v.Leaf? { return None; }
    var w: nat;
    if v.Leaf? { w := Print(v.text, buffer, at, size); } else { w := FormatValue(v, buffer, at, size); }
    written := Some(w);
  }

  /** A value with room for the terminator at least; every nested call has that much. */
  method FormatValue(v: Shown, buffer: array<char>, at: nat, size: nat) returns (written: nat)
    requires 1 <= size && at + size <= buffer.Length
    modifies buffer
    ensures Outside(old(buffer[..]), buffer[..], at, size) && Shows(buffer[..], at, size, Render(v))
    ensures written == if v.Leaf? then |Render(v)| else Kept(Render(v), size)
    decreases v, 1
  {
    match v
    case Leaf(text) => written := Print(text, buffer, at, size);
    case VecOf(items) => written := FormatVec(items, buffer, at, size);
    case PairOf(first, second) => written := FormatPair(first, second, buffer, at, size);
  }

  method FormatPair(first: Shown, second: Shown, buffer: array<char>, at: nat, size: nat) returns (total: nat)
    requires 1 <= size && at + size <= buffer.Length
    modifies buffer
    ensures Outside(old(buffer[..]), buffer[..], at, size) && Shows(buffer[..], at, size, Render(PairOf(first, second)))
    ensures total == Kept(Render(PairOf(first, second)), size)
    decreases PairOf(first, second), 0
  {
    hide Outside, Shows, Kept, Render, Then, Begins;
    ghost var s0, a, b, whole := buffer[..], Render(first), Render(second), Render(PairOf(first, second));
    PairParts(first, second);
    var written := Print("Pair<", buffer, at, size);
    ghost var s := buffer[..];
    FirstPiece("Pair<", size);
    if written >= size { FullAlready(s, at, size, PairText(a, b, 0), whole); return size - 1; }
    total := written;

    written := FormatValue(first, buffer, at + total, size - total);
    PieceJoins(s0, s, buffer[..], at, size, PairText(a, b, 0), a);
    s := buffer[..];
    if written >= size - total {
      FullAlready(s, at, size, PairText(a, b, 1), whole);
      return total + (size - total) - 1;
    }
    total := total + written;

    written := Print(", ", buffer, at + total, size - total);
    PieceJoins(s0, s, buffer[..], at, size, PairText(a, b, 1), ", ");
    s := buffer[..];
    if written >= size - total {
      FullAlready(s, at, size, PairText(a, b, 2), whole);
      return total + (size - total) - 1;
    }
    total := total + written;

    total := FinishPair(first, second, buffer, at, size, total, s0);
  }

  /** The second element of a pair and its closing bracket. */
  method FinishPair(first: Shown, second: Shown, buffer: array<char>, at: nat, size: nat, before: nat,
      ghost s0: seq<char>)
    returns (total: nat)
    requires 1 <= size && at + size <= buffer.Length && Outside(s0, buffer[..], at, size)
    requires var text := PairText(Render(first), Render(second), 2);
             Shows(buffer[..], at, size, text) && before == Kept(text, size)
    modifies buffer
    ensures Outside(s0, buffer[..], at, size) && Shows(buffer[..], at, size, Render(PairOf(first, second)))
    ensures total == Kept(Render(PairOf(first, second)), size)
    decreases PairOf(first, second), 0, 0
  {
    hide Outside, Shows, Kept, Render, Then, Begins;
    ghost var a, b, whole := Render(first), Render(second), Render(PairOf(first, second));
    PairParts(first, second);
    total := before;
    ghost var s := buffer[..];
    var written := FormatValue(second, buffer, at + total, size - total);
    PieceJoins(s0, s, buffer[..], at, size, PairText(a, b, 2), b);
    s := buffer[..];
    if written >= size - total {
      FullAlready(s, at, size, PairText(a, b, 3), whole);
      return total + (size - total) - 1;
    }
    total := total + written;

    written := Print(">", buffer, at + total, size - total);
    PieceJoins(s0, s, buffer[..], at, size, PairText(a, b, 3), ">");
    FirstPiece(">", size - total);
    if written >= size - total { return total + (size - total) - 1; }
    total := total + written;
  }

  method FormatVec(items: seq<Shown>, buffer: array<char>, at: nat, size: nat) returns (total: nat)
    requires 1 <= size && at + size <= buffer.Length
    modifies buffer
    ensures Outside(old(buffer[..]), buffer[..], at, size) && Shows(buffer[..], at, size, Render(VecOf(items)))
    ensures total == Kept(Render(VecOf(items)), size)
    decreases VecOf(items), 0
  {
    hide Outside, Shows, Kept, Render, RenderItems, Then, Begins, VecText;
    ghost var s0, whole := buffer[..], Render(VecOf(items));
    VecParts(items, 0);
    FirstPiece("Vec{", size);
    var written := Print("Vec{", buffer, at, size);
    if written >= size { FullAlready(buffer[..], at, size, "Vec{", whole); return size - 1; }
    total := written;
    for i := 0 to |items|
      invariant Outside(s0, buffer[..], at, size) && Shows(buffer[..], at, size, VecText(items, i))
      invariant total == Kept(VecText(items, i), size)
    {
      var full;
      total, full := FormatItem(items, i, buffer, at, size, total, s0);
      if full { return; }
    }
    VecParts(items, |items|);
    ghost var s := buffer[..];
    written := Print("}", buffer, at + total, size - total);
    PieceJoins(s0, s, buffer[..], at, size, VecText(items, |items|), "}");
    FirstPiece("}", size - total);
    if written >= size - total { return total + (size - total) - 1; }
    total := total + written;
  }

  /** One element of a vector, after its separator; when the buffer is full, the whole vector is done. */
  method FormatItem(items: seq<Shown>, i: nat, buffer: array<char>, at: nat, size: nat, before: nat,
      ghost s0: seq<char>)
    returns (total: nat, full: bool)
    requires i < |items| && 1 <= size && at + size <= buffer.Length && Outside(s0, buffer[..], at, size)
    requires Shows(buffer[..], at, size, VecText(items, i)) && before == Kept(VecText(items, i), size)
    modifies buffer
    ensures Outside(s0, buffer[..], at, size)
    ensures var text := if full then Render(VecOf(items)) else VecText(items, i + 1);
            Shows(buffer[..], at, size, text) && total == Kept(text, size)
    decreases VecOf(items), 0, 0
  {
    hide Outside, Shows, Kept, Render, RenderItems, Then, Begins, VecText;
    ghost var text, whole, s := VecText(items, i), Render(VecOf(items)), buffer[..];
    VecParts(items, i);
    VecParts(items, i + 1);
    total := before;
    if i > 0 {
      var written := Print(", ", buffer, at + total, size - total);
      PieceJoins(s0, s, buffer[..], at, size, text, ", ");
      FirstPiece(", ", size - total);
      s := buffer[..];
      text := Then(text, ", ");
      if written >= size - total {
        FullAlready(s, at, size, text, whole);
        return total + (size - total) - 1, true;
      }
      total := total + written;
    }
    var written := FormatValue(items[i], buffer, at + total, size - total);
    PieceJoins(s0, s, buffer[..], at, size, text, Render(items[i]));
    if written >= size - total {
      FullAlready(buffer[..], at, size, VecText(items, i + 1), whole);
      return total + (size - total) - 1, true;
    }
    total, full := total + written, false;
  }
}
