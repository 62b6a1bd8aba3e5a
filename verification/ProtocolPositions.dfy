/** Positions as the Language Server Protocol 3.17 has them, and where the language server's own reading parts from it.
    A line ends at a newline, at a carriage return, or at both together, and a character beyond the end of its line
    means the end of the line. */
module ProtocolPositions {
  import opened Text
  import opened Utf16

  const RETURN: Byte := 13

  /** The units of the runes from `i` up to `o`. */
  function Count(text: seq<Byte>, i: nat, o: nat): nat
    requires i <= |text| && o <= |text|
    decreases |text| - i
  {
    if i >= o then 0 else Units(text, i) + Count(text, i + Size(text, i), o)
  }

  // ---- When a position is refused

  /** The position is between the two units of a rune of the line. */
  ghost predicate InsidePair(text: seq<Byte>, i: nat, end: nat, target: int)
    requires i <= end <= |text|
  {
    exists j :: IsPair(text, i, end, target, j)
  }

  predicate IsPair(text: seq<Byte>, i: nat, end: nat, target: int, j: nat)
    requires i <= end <= |text|
  {
    i <= j < end && IsBoundary(text, i, j) && Units(text, j) == 2 && Count(text, i, j) + 1 == target
  }

  /** Beyond its first rune, a line has the pairs of the rest of it. */
  lemma PairBehind(text: seq<Byte>, i: nat, end: nat, target: int)
    requires i < end <= |text| && i + Size(text, i) <= end
    ensures InsidePair(text, i, end, target)
            <==> (Units(text, i) == 2 && target == 1) || InsidePair(text, i + Size(text, i), end, target - Units(text, i))
  {
    var next := i + Size(text, i);
    if InsidePair(text, i, end, target) {
      var j :| IsPair(text, i, end, target, j);
      if j != i {
        BoundaryIsAfter(text, next, j);
        assert IsPair(text, next, end, target - Units(text, i), j);
      }
    }
    if Units(text, i) == 2 && target == 1 { assert IsPair(text, i, end, target, i); }
    if InsidePair(text, next, end, target - Units(text, i)) {
      var j :| IsPair(text, next, end, target - Units(text, i), j);
      assert IsPair(text, i, end, target, j);
    }
  }

  lemma {:induction false} SeekExactly(text: seq<Byte>, i: nat, units: nat, target: nat)
    requires i <= |text| && units <= target
    ensures var end := NextNewline(text, i);
            Seek(text, i, units, target) == None
            <==> target > units + Count(text, i, end) || InsidePair(text, i, end, target - units)
    decreases |text| - i
  {
    var end := NextNewline(text, i);
    if i < end {
      var next := i + Size(text, i);
      RuneIsInLine(text, i);
      PairBehind(text, i, end, target - units);
      if units + Units(text, i) <= target {
        SeekExactly(text, next, units + Units(text, i), target);
      } else {
        NoPairBelow(text, next, end, target - units - Units(text, i));
      }
      if units == target { NoPairBelow(text, i, end, 0); }
    }
  }

  lemma NoPairBelow(text: seq<Byte>, i: nat, end: nat, target: int)
    requires i <= end <= |text| && target <= 0
    ensures !InsidePair(text, i, end, target)
  {
  }

  /** A rune that begins in a line ends in it, and so the line ends where it did. */
  lemma RuneIsInLine(text: seq<Byte>, i: nat)
    requires i < |text| && i < NextNewline(text, i)
    ensures i + Size(text, i) <= NextNewline(text, i) == NextNewline(text, i + Size(text, i))
  {
  }

  lemma {:induction false} SeekCounts(text: seq<Byte>, i: nat, units: nat, target: nat)
    requires i <= |text| && Seek(text, i, units, target).Some?
    ensures var o := Seek(text, i, units, target).value;
            i <= o <= NextNewline(text, i) && IsBoundary(text, i, o) && units + Count(text, i, o) == target
    decreases |text| - i
  {
    if i < |text| && text[i] != NEWLINE && units != target {
      RuneIsInLine(text, i);
      SeekCounts(text, i + Size(text, i), units + Units(text, i), target);
    }
  }

  /** On a line that exists a position is refused exactly when its character is negative, beyond the units of the line,
      or inside a surrogate pair; every other position means the boundary with that many units before it. */
  lemma RefusedExactly(text: seq<Byte>, p: Position, s: nat)
    requires p.line >= 0 && LineStart(text, 0, p.line) == Some(s)
    ensures var end := NextNewline(text, s);
            OffsetSpec(text, p) == None
            <==> p.character < 0 || p.character > Count(text, s, end) || InsidePair(text, s, end, p.character)
    ensures match OffsetSpec(text, p)
            case None => true
            case Some(o) => s <= o <= NextNewline(text, s) && IsBoundary(text, s, o) && Count(text, s, o) == p.character
  {
    if p.character >= 0 {
      SeekExactly(text, s, 0, p.character);
      if OffsetSpec(text, p).Some? { SeekCounts(text, s, 0, p.character); }
    }
  }

  /** A line exists exactly when there are as many newlines before it. */
  lemma {:induction false} LineExists(text: seq<Byte>, start: nat, lines: nat)
    requires start <= |text|
    ensures LineStart(text, start, lines).Some? <==> lines <= Newlines(text, start, |text|)
    decreases lines
  {
    if lines > 0 {
      var n := NextNewline(text, start);
      NoNewlines(text, start, n, |text|);
      if n < |text| { LineExists(text, n + 1, lines - 1); }
    }
  }

  // ---- The protocol's own offset

  predicate IsEnd(b: Byte) { b == NEWLINE || b == RETURN }

  /** Where the line that `i` stands in ends. */
  function EndOfLine(text: seq<Byte>, i: nat): (n: nat)
    requires i <= |text|
    ensures i <= n <= |text| && (n < |text| ==> IsEnd(text[n])) && forall j | i <= j < n :: !IsEnd(text[j])
    decreases |text| - i
  {
    if i == |text| || IsEnd(text[i]) then i else EndOfLine(text, i + 1)
  }

  /** A carriage return that ends a line by itself. */
  predicate IsLone(text: seq<Byte>, j: int) {
    0 <= j < |text| && text[j] == RETURN && !(j + 1 < |text| && text[j + 1] == NEWLINE)
  }

  /** Behind the end of a line at `n`. */
  function Behind(text: seq<Byte>, n: nat): (m: nat)
    requires n < |text|
    ensures n < m <= |text|
  {
    if text[n] == RETURN && !IsLone(text, n) then n + 2 else n + 1
  }

  /** Where the protocol's line `lines` below the one at `start` begins. */
  function ProtocolStart(text: seq<Byte>, start: nat, lines: nat): (s: Option<nat>)
    requires start <= |text|
    ensures s.Some? ==> start <= s.value <= |text|
    decreases lines
  {
    if lines == 0 then Some(start)
    else
      var n := EndOfLine(text, start);
      if n == |text| then None else ProtocolStart(text, Behind(text, n), lines - 1)
  }

  function Least(a: int, b: int): int { if a < b then a else b }

  /** The offset that the protocol gives a position: as many units into its line as the character says, or as there are
      when it says more. */
  ghost predicate Means(text: seq<Byte>, p: Position, o: nat)
    requires o <= |text|
  {
    && p.line >= 0 && p.character >= 0
    && match ProtocolStart(text, 0, p.line)
       case None => false
       case Some(s) =>
         var end := EndOfLine(text, s);
         s <= o <= end && IsBoundary(text, s, o) && Count(text, s, o) == Least(p.character, Count(text, s, end))
  }

  predicate NoLone(text: seq<Byte>, i: nat, o: nat) {
    forall j {:trigger IsLone(text, j)} | i <= j < o :: !IsLone(text, j)
  }

  /** A line that ends with a newline ends there for both readings. */
  lemma SameLine(text: seq<Byte>, start: nat, n: nat)
    requires start <= n < |text| && n == EndOfLine(text, start) && !IsLone(text, n)
    ensures NextNewline(text, start) < |text| && NextNewline(text, start) + 1 == Behind(text, n)
    ensures NoLone(text, start, Behind(text, n))
  {
    forall j | start <= j < n ensures !IsLone(text, j) {
      assert !IsEnd(text[j]);
    }
    forall j | start <= j < n ensures text[j] != NEWLINE { assert !IsEnd(text[j]); }
    var m := NextNewline(text, start);
    assert m >= n;
    if text[n] == RETURN { assert text[n + 1] == NEWLINE && m == n + 1; } else { assert m == n; }
  }

  /** A lone carriage return ends a line for the protocol only. */
  lemma LineGoesOn(text: seq<Byte>, start: nat, n: nat)
    requires start <= n < |text| && n == EndOfLine(text, start) && IsLone(text, n)
    ensures NextNewline(text, start) == NextNewline(text, n + 1)
  {
    var m := NextNewline(text, start);
    if m < n { assert IsEnd(text[m]); }
    NewlineFrom(text, start, n + 1);
  }

  lemma {:induction false} NewlineFrom(text: seq<Byte>, i: nat, m: nat)
    requires i <= |text| && i <= m <= NextNewline(text, i)
    ensures NextNewline(text, m) == NextNewline(text, i)
    decreases m - i
  {
    if i < m { NewlineFrom(text, i + 1, m); }
  }

  /** The line that begins at `c` begins where the protocol's at `s` does, or behind its end. */
  predicate IsFurther(text: seq<Byte>, c: Option<nat>, s: nat)
    requires s <= |text|
  {
    c.Some? ==> c.value > EndOfLine(text, s)
  }

  lemma NextIsFurther(text: seq<Byte>, start: nat, lines: nat, s: nat)
    requires start <= |text| && s <= |text|
    requires LineStart(text, start, lines) == Some(s) || IsFurther(text, LineStart(text, start, lines), s)
    ensures IsFurther(text, LineStart(text, start, lines + 1), s)
  {
    match LineStart(text, start, lines)
    case None => NoNextLine(text, start, lines);
    case Some(c) =>
      if NextNewline(text, c) < |text| {
        NextLineStart(text, start, lines, c);
        if c == s { EndBeforeNewline(text, s); }
      } else {
        NoLineBehind(text, start, lines, c);
      }
  }

  lemma EndBeforeNewline(text: seq<Byte>, s: nat)
    requires s <= |text|
    ensures EndOfLine(text, s) <= NextNewline(text, s)
  {
    var n := NextNewline(text, s);
    assert n < |text| ==> IsEnd(text[n]);
  }

  lemma {:induction false} NoNextLine(text: seq<Byte>, start: nat, lines: nat)
    requires start <= |text| && LineStart(text, start, lines) == None
    ensures LineStart(text, start, lines + 1) == None
    decreases lines
  {
    var n := NextNewline(text, start);
    if lines > 0 && n < |text| { NoNextLine(text, n + 1, lines - 1); }
  }

  lemma {:induction false} NoLineBehind(text: seq<Byte>, start: nat, lines: nat, c: nat)
    requires start <= |text| && LineStart(text, start, lines) == Some(c) && NextNewline(text, c) == |text|
    ensures LineStart(text, start, lines + 1) == None
    decreases lines
  {
    if lines > 0 { NoLineBehind(text, NextNewline(text, start) + 1, lines - 1, c); }
  }

  /** Up to a lone carriage return the two readings agree on where lines begin, and behind it never. */
  lemma {:induction false} StartsAgree(text: seq<Byte>, start: nat, lines: nat, s: nat)
    requires start <= |text| && ProtocolStart(text, start, lines) == Some(s)
    ensures if NoLone(text, start, s) then LineStart(text, start, lines) == Some(s)
            else IsFurther(text, LineStart(text, start, lines), s)
    decreases lines
  {
    if lines > 0 {
      var n := EndOfLine(text, start);
      var next := Behind(text, n);
      StartsAgree(text, next, lines - 1, s);
      if IsLone(text, n) {
        NextIsFurther(text, next, lines - 1, s);
        SameSuccessor(text, start, n, lines);
      } else {
        SamePredecessor(text, start, n, lines);
        LoneBehind(text, start, next, s);
      }
    }
  }

  lemma SameSuccessor(text: seq<Byte>, start: nat, n: nat, lines: nat)
    requires start <= n < |text| && n == EndOfLine(text, start) && IsLone(text, n) && lines > 0
    ensures LineStart(text, start, lines) == LineStart(text, Behind(text, n), lines)
  {
    LineGoesOn(text, start, n);
  }

  lemma SamePredecessor(text: seq<Byte>, start: nat, n: nat, lines: nat)
    requires start <= n < |text| && n == EndOfLine(text, start) && !IsLone(text, n) && lines > 0
    ensures LineStart(text, start, lines) == LineStart(text, Behind(text, n), lines - 1)
    ensures NoLone(text, start, Behind(text, n))
  {
    SameLine(text, start, n);
  }

  lemma LoneBehind(text: seq<Byte>, start: nat, next: nat, s: nat)
    requires start <= next <= s && NoLone(text, start, next)
    ensures NoLone(text, start, s) <==> NoLone(text, next, s)
  {
    if NoLone(text, next, s) {
      forall j | start <= j < s ensures !IsLone(text, j) {
        if j < next { assert NoLone(text, start, next); }
      }
    }
  }

  lemma {:induction false} WalkCounts(text: seq<Byte>, i: nat, o: nat, p: Position)
    requires i <= o <= |text| && IsBoundary(text, i, o) && forall j | i <= j < o :: text[j] != NEWLINE
    ensures Walk(text, i, o, p).character == p.character + Count(text, i, o)
    decreases |text| - i
  {
    if i < o {
      BoundaryIsAfter(text, i + Size(text, i), o);
      WalkCounts(text, i + Size(text, i), o, Advance(text, i, p));
    }
  }

  /** The server finds the protocol's offset exactly when no line before the position's ends in a lone carriage return
      and the character is not beyond the line. */
  lemma FoundExactly(text: seq<Byte>, p: Position, o: nat)
    requires o <= |text| && Means(text, p, o)
    ensures var s := ProtocolStart(text, 0, p.line).value;
            OffsetSpec(text, p) == Some(o) <==> NoLone(text, 0, s) && p.character <= Count(text, s, EndOfLine(text, s))
  {
    var s := ProtocolStart(text, 0, p.line).value;
    StartsAgree(text, 0, p.line, s);
    if NoLone(text, 0, s) {
      if OffsetSpec(text, p) == Some(o) { SeekCounts(text, s, 0, p.character); }
      if p.character <= Count(text, s, EndOfLine(text, s)) {
        forall j | s <= j < o ensures text[j] != NEWLINE { assert !IsEnd(text[j]); }
        SeekFinds(text, s, o, p.line, 0);
        WalkCounts(text, s, o, Position(p.line, 0));
      }
    }
  }

  // ---- Positions that are not found

  /** One character beyond a line: the protocol means its end, and the server refuses. */
  lemma BeyondIsRefused()
    ensures OffsetSpec([97, 10], Position(0, 2)) == None && Means([97, 10], Position(0, 2), 1)
  {
  }

  /** The second line after a lone carriage return: the server takes the line after the newline. */
  lemma LoneReturnShifts()
    ensures OffsetSpec([97, 13, 98, 10], Position(1, 0)) == Some(4) && Means([97, 13, 98, 10], Position(1, 0), 2)
  {
  }

  /** One character beyond a line that ends in both: the server stands between them. */
  lemma ReturnIsCounted()
    ensures OffsetSpec([97, 13, 10], Position(0, 2)) == Some(2) && Means([97, 13, 10], Position(0, 2), 1)
  {
  }
}
