/** Source positions: the line table of the compiler and the language server's way back to an offset. Text is read
    byte by byte, one character for each byte. */
module Positions {
  import opened Text

  datatype SourcePosition = SourcePosition(offset: nat, line: nat, column: nat)

  /** The starts of the lines that begin in the first `n` bytes. */
  function StartsIn(text: string, n: nat): (starts: seq<nat>)
    requires n <= |text|
    ensures starts != []
  {
    if n == 0 then [0]
    else StartsIn(text, n - 1) + if text[n - 1] == '\n' then [n] else []
  }

  /** What a line table is: the first line starts at 0, every other one after a newline, and nowhere else. */
  predicate AreStarts(text: string, n: nat, starts: seq<nat>)
    requires n <= |text|
  {
    && starts != [] && starts[0] == 0
    && (forall k | 0 <= k < |starts| :: starts[k] <= n)
    && (forall k | 0 < k < |starts| :: starts[k - 1] < starts[k] && text[starts[k] - 1] == '\n')
    && (forall k, i | 0 < k < |starts| && starts[k - 1] <= i < starts[k] - 1 :: text[i] != '\n')
    && forall i | starts[|starts| - 1] <= i < n :: text[i] != '\n'
  }

  lemma {:induction false} StartsAreStarts(text: string, n: nat)
    requires n <= |text|
    ensures AreStarts(text, n, StartsIn(text, n))
  {
    if n > 0 {
      StartsAreStarts(text, n - 1);
      if text[n - 1] == '\n' { LineStarts(text, n, StartsIn(text, n - 1)); }
    }
  }

  lemma LineStarts(text: string, n: nat, starts: seq<nat>)
    requires 0 < n <= |text| && text[n - 1] == '\n' && AreStarts(text, n - 1, starts)
    ensures AreStarts(text, n, starts + [n])
  {
    var next := starts + [n];
    forall k, i | 0 < k < |next| && next[k - 1] <= i < next[k] - 1 ensures text[i] != '\n' {
      assert k < |starts| ==> next[k] == starts[k];
    }
  }

  lemma {:induction false} StartsAscend(text: string, starts: seq<nat>, j: nat, k: nat)
    requires AreStarts(text, |text|, starts) && j <= k < |starts|
    ensures starts[j] <= starts[k] && (j < k ==> starts[j] < starts[k])
  {
    if j < k { StartsAscend(text, starts, j, k - 1); }
  }

  /** newPositionTable */
  method NewPositionTable(text: string) returns (starts: seq<nat>)
    ensures starts == StartsIn(text, |text|) && AreStarts(text, |text|, starts)
  {
    starts := [0];
    for i := 0 to |text|
      invariant starts == StartsIn(text, i)
    {
      if text[i] == '\n' {
        starts := starts + [i + 1];
      }
    }
    StartsAreStarts(text, |text|);
  }

  /** The line holding an offset: the last one that starts at or before it. */
  predicate IsLineOf(starts: seq<nat>, offset: nat, k: nat) {
    k < |starts| && starts[k] <= offset && (k + 1 < |starts| ==> offset < starts[k + 1])
  }

  function Clamp(offset: int, size: nat): nat { if offset < 0 then 0 else if offset > size then size else offset }

  /** positionTable.at, with the binary search of sort.Search. */
  method At(text: string, starts: seq<nat>, offset: int) returns (p: SourcePosition)
    requires AreStarts(text, |text|, starts)
    ensures p.offset == Clamp(offset, |text|) && p.line > 0
    ensures IsLineOf(starts, p.offset, p.line - 1) && p.column == p.offset - starts[p.line - 1] + 1
  {
    var o := Clamp(offset, |text|);
    var i, j := 0, |starts|;
    while i < j
      invariant i <= j <= |starts|
      invariant (i > 0 ==> starts[i - 1] <= o) && (j < |starts| ==> o < starts[j])
    {
      var h := (i + j) / 2;
      if starts[h] > o { j := h; } else { i := h + 1; }
    }
    p := SourcePosition(o, i, o - starts[i - 1] + 1);
  }

  /** The start of the line `lines` below the one at `start`, or nothing when the text has no such line. */
  function LineBelow(text: string, start: nat, lines: nat): Option<nat>
    requires start <= |text|
    decreases lines
  {
    if lines == 0 || start == |text| then Some(start)
    else
      var newline := IndexFrom(text, start, Newline);
      if newline == |text| then None else LineBelow(text, newline + 1, lines - 1)
  }

  /** compilerPositionOffset */
  function OffsetSpec(text: string, line: int, column: int): nat {
    match LineBelow(text, 0, if line < 1 then 0 else line - 1)
    case None => |text|
    case Some(start) => Clamp(start + (if column < 1 then 1 else column) - 1, |text|)
  }

  method CompilerPositionOffset(text: string, line: int, column: int) returns (offset: nat)
    ensures offset == OffsetSpec(text, line, column)
  {
    var l, c := if line < 1 then 1 else line, if column < 1 then 1 else column;
    var start: nat := 0;
    var current := 1;
    while current < l && start < |text|
      invariant 1 <= current <= l && start <= |text|
      invariant LineBelow(text, 0, l - 1) == LineBelow(text, start, l - current)
    {
      var newline := IndexFrom(text, start, Newline);
      if newline == |text| {
        return |text|;
      }
      start := newline + 1;
      current := current + 1;
    }
    return Clamp(start + c - 1, |text|);
  }

  lemma NextStart(text: string, starts: seq<nat>, k: nat)
    requires AreStarts(text, |text|, starts) && k + 1 < |starts|
    ensures starts[k] < |text| && IndexFrom(text, starts[k], Newline) == starts[k + 1] - 1
  {
    var m := k + 1;
    assert starts[m - 1] < starts[m] && text[starts[m] - 1] == '\n';
    assert In(text[starts[k + 1] - 1], Newline);
    assert forall i | starts[k] <= i < starts[k + 1] - 1 :: !In(text[i], Newline);
  }

  lemma {:induction false} TableIsLines(text: string, starts: seq<nat>, k: nat, lines: nat)
    requires AreStarts(text, |text|, starts) && k + lines < |starts|
    ensures LineBelow(text, starts[k], lines) == Some(starts[k + lines])
    decreases lines
  {
    if lines > 0 {
      NextStart(text, starts, k);
      TableIsLines(text, starts, k + 1, lines - 1);
    }
  }

  /** The language server finds every offset again from the position the compiler gave it. */
  lemma PositionLeadsBack(text: string, starts: seq<nat>, offset: nat, line: nat)
    requires AreStarts(text, |text|, starts) && offset <= |text| && IsLineOf(starts, offset, line)
    ensures OffsetSpec(text, line + 1, offset - starts[line] + 1) == offset
  {
    TableIsLines(text, starts, 0, line);
  }
}
