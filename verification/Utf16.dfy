/** Byte offsets and the UTF-16 positions of the Language Server Protocol 3.17, over arbitrary bytes. */
module Utf16 {
  import opened Text

  type Byte = b: int | 0 <= b < 256

  datatype Position = Position(line: int, character: int)

  const NEWLINE: Byte := 10

  predicate IsContinuation(b: Byte) { 0x80 <= b <= 0xBF }

  /** The second byte of a well-formed sequence that begins with `a` (section 4 of RFC 3629). */
  predicate IsSecond(a: Byte, b: Byte) {
    if a == 0xE0 then 0xA0 <= b <= 0xBF
    else if a == 0xED then 0x80 <= b <= 0x9F
    else if a == 0xF0 then 0x90 <= b <= 0xBF
    else if a == 0xF4 then 0x80 <= b <= 0x8F
    else IsContinuation(b)
  }

  /** How long the sequence led by `a` would be. */
  function LengthOf(a: Byte): nat {
    if 0xC2 <= a <= 0xDF then 2 else if 0xE0 <= a <= 0xEF then 3 else if 0xF0 <= a <= 0xF4 then 4 else 1
  }

  /** utf8.DecodeRune: the size of the rune at `i`, where a byte that begins no well-formed sequence stands alone. */
  function Size(text: seq<Byte>, i: nat): (n: nat)
    requires i < |text|
    ensures 1 <= n <= 4 && i + n <= |text|
    ensures forall j | i < j < i + n :: IsContinuation(text[j])
  {
    var n := LengthOf(text[i]);
    if n == 1 || i + n > |text| || !IsSecond(text[i], text[i + 1]) then 1
    else if n >= 3 && !IsContinuation(text[i + 2]) then 1
    else if n == 4 && !IsContinuation(text[i + 3]) then 1
    else n
  }

  /** UTF-16 code units: two beyond the basic plane, which is where four bytes are needed. */
  function Units(text: seq<Byte>, i: nat): nat
    requires i < |text|
  {
    if Size(text, i) == 4 then 2 else 1
  }

  function Advance(text: seq<Byte>, i: nat, p: Position): Position
    requires i < |text|
  {
    if text[i] == NEWLINE then Position(p.line + 1, 0) else Position(p.line, p.character + Units(text, i))
  }

  /** The position reached by walking the runes from `i`, standing at `p`, up to `o`. */
  function Walk(text: seq<Byte>, i: nat, o: nat, p: Position): Position
    requires i <= |text| && o <= |text|
    decreases |text| - i
  {
    if i >= o then p else Walk(text, i + Size(text, i), o, Advance(text, i, p))
  }

  /** `o` is the start of a rune, or the end, of the runes from `i`. */
  predicate IsBoundary(text: seq<Byte>, i: nat, o: nat)
    requires i <= |text| && o <= |text|
    decreases |text| - i
  {
    i == o || (i < o && IsBoundary(text, i + Size(text, i), o))
  }

  function Inside(o: int, size: nat): nat { if o < 0 then 0 else if o > size then size else o }

  method OffsetToPosition(text: seq<Byte>, offset: int) returns (p: Position)
    ensures p == Walk(text, 0, Inside(offset, |text|), Position(0, 0))
  {
    var o := Inside(offset, |text|);
    var line, character := 0, 0;
    var index: nat := 0;
    while index < o
      invariant index <= |text|
      invariant Walk(text, 0, o, Position(0, 0)) == Walk(text, index, o, Position(line, character))
      decreases |text| - index
    {
      if text[index] == NEWLINE {
        line, character, index := line + 1, 0, index + 1;
      } else {
        character, index := character + Units(text, index), index + Size(text, index);
      }
    }
    return Position(line, character);
  }

  function NextNewline(text: seq<Byte>, i: nat): (n: nat)
    requires i <= |text|
    ensures i <= n <= |text| && (n < |text| ==> text[n] == NEWLINE)
    ensures forall j | i <= j < n :: text[j] != NEWLINE
    decreases |text| - i
  {
    if i == |text| || text[i] == NEWLINE then i else NextNewline(text, i + 1)
  }

  /** Where the line `lines` below the one at `start` begins. */
  function LineStart(text: seq<Byte>, start: nat, lines: nat): (s: Option<nat>)
    requires start <= |text|
    ensures s.Some? ==> start <= s.value <= |text|
    decreases lines
  {
    if lines == 0 then Some(start)
    else
      var n := NextNewline(text, start);
      if n == |text| then None else LineStart(text, n + 1, lines - 1)
  }

  /** The offset `target` units into the line, from `i`, which is `units` into it. */
  function Seek(text: seq<Byte>, i: nat, units: nat, target: nat): (o: Option<nat>)
    requires i <= |text|
    ensures o.Some? ==> i <= o.value <= |text|
    decreases |text| - i
  {
    if i == |text| || text[i] == NEWLINE then if units == target then Some(i) else None
    else if units == target then Some(i)
    else if units + Units(text, i) > target then None
    else Seek(text, i + Size(text, i), units + Units(text, i), target)
  }

  function OffsetSpec(text: seq<Byte>, p: Position): (o: Option<nat>)
    ensures o.Some? ==> o.value <= |text|
  {
    if p.line < 0 || p.character < 0 then None
    else match LineStart(text, 0, p.line)
      case None => None
      case Some(start) => Seek(text, start, 0, p.character)
  }

  method PositionToOffset(text: seq<Byte>, p: Position) returns (offset: nat, ok: bool)
    ensures OffsetSpec(text, p) == if ok then Some(offset) else None
  {
    if p.line < 0 || p.character < 0 {
      return 0, false;
    }
    var line := 0;
    var start: nat := 0;
    while start < |text| && line < p.line
      invariant line <= p.line && start <= |text|
      invariant LineStart(text, 0, p.line) == LineStart(text, start, p.line - line)
    {
      if text[start] == NEWLINE {
        line := line + 1;
      }
      start := start + 1;
    }
    if line != p.line {
      return 0, false;
    }
    var units: nat := 0;
    var index: nat := start;
    while index < |text| && text[index] != NEWLINE
      invariant start <= index <= |text| && units <= p.character
      invariant forall j | start <= j < index :: text[j] != NEWLINE
      invariant OffsetSpec(text, p) == Seek(text, index, units, p.character)
      decreases |text| - index
    {
      if units == p.character {
        return index, true;
      }
      var size := Size(text, index);
      units := units + Units(text, index);
      if units > p.character {
        return 0, false;
      }
      index := index + size;
    }
    if units == p.character {
      var end := start;
      while end < |text| && text[end] != NEWLINE
        invariant start <= end <= index
      {
        end := end + 1;
      }
      return end, true;
    }
    return 0, false;
  }

  // ---- The two are inverse

  lemma {:induction false} WalkOn(text: seq<Byte>, i: nat, m: nat, o: nat, p: Position)
    requires i <= m <= o <= |text| && IsBoundary(text, i, m)
    ensures Walk(text, i, o, p) == Walk(text, m, o, Walk(text, i, m, p))
    ensures IsBoundary(text, i, o) <==> IsBoundary(text, m, o)
    decreases |text| - i
  {
    if i < m { WalkOn(text, i + Size(text, i), m, o, Advance(text, i, p)); }
  }

  lemma {:induction false} BoundaryIsAfter(text: seq<Byte>, i: nat, o: nat)
    requires i <= |text| && o <= |text| && IsBoundary(text, i, o)
    ensures i <= o
  {
  }

  /** No newline hides inside a rune: what ends a line is reached by walking it. */
  lemma {:induction false} LineEndIsBoundary(text: seq<Byte>, i: nat, n: nat, p: Position)
    requires i <= n <= |text| && (n < |text| ==> text[n] == NEWLINE)
    requires forall j | i <= j < n :: text[j] != NEWLINE
    ensures IsBoundary(text, i, n) && Walk(text, i, n, p).line == p.line
    decreases |text| - i
  {
    if i < n {
      var next := i + Size(text, i);
      assert forall j | i < j < next :: IsContinuation(text[j]);
      assert next <= n;
      LineEndIsBoundary(text, next, n, Advance(text, i, p));
    }
  }

  lemma {:induction false} LineStartIsWalked(text: seq<Byte>, start: nat, lines: nat, line: int)
    requires start <= |text| && LineStart(text, start, lines).Some?
    ensures var s := LineStart(text, start, lines).value;
            IsBoundary(text, start, s) && Walk(text, start, s, Position(line, 0)) == Position(line + lines, 0)
    decreases lines
  {
    if lines > 0 {
      var n := NextNewline(text, start);
      var s := LineStart(text, start, lines).value;
      LineEndIsBoundary(text, start, n, Position(line, 0));
      LineStartIsWalked(text, n + 1, lines - 1, line + 1);
      WalkOn(text, start, n, s, Position(line, 0));
      assert Size(text, n) == 1;
    }
  }

  lemma {:induction false} SeekIsWalked(text: seq<Byte>, i: nat, units: nat, target: nat, line: int)
    requires i <= |text| && Seek(text, i, units, target).Some?
    ensures var o := Seek(text, i, units, target).value;
            IsBoundary(text, i, o) && Walk(text, i, o, Position(line, units)) == Position(line, target)
    decreases |text| - i
  {
    if i < |text| && text[i] != NEWLINE && units != target {
      SeekIsWalked(text, i + Size(text, i), units + Units(text, i), target, line);
    }
  }

  /** Whenever a position has an offset, the offset has that position. */
  lemma OffsetLeadsBack(text: seq<Byte>, p: Position)
    requires OffsetSpec(text, p).Some?
    ensures var o := OffsetSpec(text, p).value; IsBoundary(text, 0, o) && Walk(text, 0, o, Position(0, 0)) == p
  {
    var s := LineStart(text, 0, p.line).value;
    LineStartIsWalked(text, 0, p.line, 0);
    SeekIsWalked(text, s, 0, p.character, p.line);
    WalkOn(text, 0, s, OffsetSpec(text, p).value, Position(0, 0));
  }

  lemma {:induction false} SeekFinds(text: seq<Byte>, i: nat, o: nat, line: int, units: nat)
    requires i <= o <= |text| && IsBoundary(text, i, o) && forall j | i <= j < o :: text[j] != NEWLINE
    ensures var p := Walk(text, i, o, Position(line, units));
            p.line == line && p.character >= units && Seek(text, i, units, p.character) == Some(o)
    ensures i < o ==> Walk(text, i, o, Position(line, units)).character > units
    decreases |text| - i
  {
    if i < o {
      BoundaryIsAfter(text, i + Size(text, i), o);
      SeekFinds(text, i + Size(text, i), o, line, units + Units(text, i));
    }
  }

  lemma {:induction false} NextLineStart(text: seq<Byte>, start: nat, lines: nat, s: nat)
    requires start <= |text| && LineStart(text, start, lines) == Some(s) && NextNewline(text, s) < |text|
    ensures LineStart(text, start, lines + 1) == Some(NextNewline(text, s) + 1)
    decreases lines
  {
    if lines > 0 { NextLineStart(text, NextNewline(text, start) + 1, lines - 1, s); }
  }

  /** `s` is where the line of the position at `i` begins. */
  predicate OnLine(text: seq<Byte>, s: nat, i: nat, p: Position) {
    && s <= i <= |text| && p.line >= 0 && LineStart(text, 0, p.line) == Some(s)
    && (forall j | s <= j < i :: text[j] != NEWLINE)
    && IsBoundary(text, s, i) && Walk(text, s, i, Position(p.line, 0)) == p
  }

  lemma StepOnLine(text: seq<Byte>, s: nat, i: nat, p: Position) returns (s': nat)
    requires OnLine(text, s, i, p) && i < |text|
    ensures OnLine(text, s', i + Size(text, i), Advance(text, i, p))
  {
    if text[i] == NEWLINE {
      assert NextNewline(text, s) == i;
      NextLineStart(text, 0, p.line, s);
      s' := i + 1;
    } else {
      s' := s;
      WalkOn(text, s, i, i + Size(text, i), Position(p.line, 0));
    }
  }

  lemma {:induction false} WalkStaysOnLine(text: seq<Byte>, s: nat, i: nat, p: Position, o: nat) returns (s': nat)
    requires OnLine(text, s, i, p) && i <= o <= |text| && IsBoundary(text, i, o)
    ensures OnLine(text, s', o, Walk(text, i, o, p))
    decreases |text| - i
  {
    s' := s;
    if i < o {
      var next := StepOnLine(text, s, i, p);
      BoundaryIsAfter(text, i + Size(text, i), o);
      s' := WalkStaysOnLine(text, next, i + Size(text, i), Advance(text, i, p), o);
    }
  }

  /** At every rune boundary, the position of an offset has that offset. */
  lemma PositionLeadsBack(text: seq<Byte>, o: nat)
    requires o <= |text| && IsBoundary(text, 0, o)
    ensures OffsetSpec(text, Walk(text, 0, o, Position(0, 0))) == Some(o)
  {
    var p := Walk(text, 0, o, Position(0, 0));
    var s := WalkStaysOnLine(text, 0, 0, Position(0, 0), o);
    SeekFinds(text, s, o, p.line, 0);
  }

  /** Off a boundary the round trip moves on to the next one: it gives back the offset exactly at boundaries. */
  lemma BoundaryOffsetsAreFixed(text: seq<Byte>, o: nat)
    requires o <= |text|
    ensures OffsetSpec(text, Walk(text, 0, o, Position(0, 0))) == Some(o) <==> IsBoundary(text, 0, o)
  {
    var p := Walk(text, 0, o, Position(0, 0));
    if OffsetSpec(text, p) == Some(o) { OffsetLeadsBack(text, p); }
    if IsBoundary(text, 0, o) { PositionLeadsBack(text, o); }
  }

  /** How many newlines there are from `i` up to `o`. */
  function Newlines(text: seq<Byte>, i: nat, o: nat): nat
    requires i <= o <= |text|
    decreases o - i
  {
    if i == o then 0 else (if text[i] == NEWLINE then 1 else 0) + Newlines(text, i + 1, o)
  }

  lemma {:induction false} NoNewlines(text: seq<Byte>, i: nat, m: nat, o: nat)
    requires i <= m <= o <= |text| && forall j | i <= j < m :: text[j] != NEWLINE
    ensures Newlines(text, i, o) == Newlines(text, m, o)
    decreases m - i
  {
    if i < m { NoNewlines(text, i + 1, m, o); }
  }

  /** The line of any offset, on a boundary or not, is the number of newlines before it. */
  lemma {:induction false} LineCountsNewlines(text: seq<Byte>, i: nat, o: nat, p: Position)
    requires i <= o <= |text|
    ensures Walk(text, i, o, p).line == p.line + Newlines(text, i, o)
    decreases o - i
  {
    if i < o {
      var next := i + Size(text, i);
      if next <= o {
        NoNewlines(text, i + 1, next, o);
        LineCountsNewlines(text, next, o, Advance(text, i, p));
      } else {
        NoNewlines(text, i + 1, o, o);
      }
    }
  }
}
