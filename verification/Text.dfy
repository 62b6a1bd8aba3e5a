/** Character classes and string searches shared by the compiler, the runtime and the development server.
    A string is a sequence of Unicode scalar values, the runes a Go `range` loop yields. */
module Text {
  datatype Option<+T> = None | Some(value: T)

  predicate IsLetter(c: char) { 'a' <= c <= 'z' || 'A' <= c <= 'Z' }

  predicate IsDigit(c: char) { '0' <= c <= '9' }

  predicate IsAscii(c: char) { c as int < 0x80 }

  function Lower(c: char): char {
    if 'A' <= c <= 'Z' then (c as int + 32) as char else c
  }

  /** Simple case folding onto ASCII: two letters outside ASCII fold to an ASCII one. */
  function Fold(c: char): char {
    if c == '\U{17F}' then 's' else if c == '\U{212A}' then 'k' else Lower(c)
  }

  /** s == word, character by character. */
  predicate Spells(s: string, word: string) { |s| == |word| && forall i | 0 <= i < |word| :: s[i] == word[i] }

  /** strings.EqualFold against a word in lower-case ASCII letters. */
  predicate EqualFold(s: string, word: string) {
    |s| == |word| && forall i | 0 <= i < |word| :: Fold(s[i]) == word[i]
  }

  /** unicode.IsSpace: the White_Space property. */
  predicate IsSpace(c: char) {
    || '\t' <= c <= '\r' || c == ' ' || c == '\U{85}' || c == '\U{A0}' || c == '\U{1680}'
    || '\U{2000}' <= c <= '\U{200A}' || c == '\U{2028}' || c == '\U{2029}' || c == '\U{202F}'
    || c == '\U{205F}' || c == '\U{3000}'
  }

  predicate IsControl(c: char) { c as int < 0x20 || c == '\U{7F}' }

  predicate HasControl(s: string) { exists i | 0 <= i < |s| :: IsControl(s[i]) }

  /** strings.HasPrefix */
  predicate HasPrefix(s: string, p: string) { |p| <= |s| && forall i | 0 <= i < |p| :: s[i] == p[i] }

  /** The character classes that strings are searched for or trimmed of. */
  datatype Class = Colon | Mark | Space | UrlSpace | Stripped | LineBreak | Newline

  predicate In(c: char, k: Class) {
    match k
    case Colon => c == ':'
    case Mark => c == '/' || c == '?' || c == '#'
    case Space => IsSpace(c)
    case UrlSpace => IsSpace(c) || c == '\U{FEFF}'
    case Stripped => c <= ' '
    case Newline => c == '\n'
    case LineBreak => c == '\t' || c == '\n' || c == '\r'
  }

  /** The first index from `i` holding a character in the class `stop`, or the length of `s`. */
  function IndexFrom(s: string, i: nat, stop: Class): (r: nat)
    requires i <= |s|
    ensures i <= r <= |s| && (r < |s| ==> In(s[r], stop))
    ensures forall j | i <= j < r :: !In(s[j], stop)
    decreases |s| - i
  {
    if i == |s| || In(s[i], stop) then i else IndexFrom(s, i + 1, stop)
  }

  function IndexOf(s: string, stop: Class): (r: nat)
    ensures r <= |s| && (r < |s| ==> In(s[r], stop)) && forall j | 0 <= j < r :: !In(s[j], stop)
  {
    IndexFrom(s, 0, stop)
  }

  /** The first index from `i` holding a character outside the class, or the length of `s`. */
  function SkipFrom(s: string, i: nat, space: Class): (r: nat)
    requires i <= |s|
    ensures i <= r <= |s| && (r < |s| ==> !In(s[r], space))
    ensures forall j | i <= j < r :: In(s[j], space)
    decreases |s| - i
  {
    if i < |s| && In(s[i], space) then SkipFrom(s, i + 1, space) else i
  }

  /** The end of what is left of `s[..n]` when its trailing characters in the class are dropped. */
  function SkipBack(s: string, n: nat, space: Class): (r: nat)
    requires n <= |s|
    ensures r <= n && (r > 0 ==> !In(s[r - 1], space))
    ensures forall j | r <= j < n :: In(s[j], space)
  {
    if n > 0 && In(s[n - 1], space) then SkipBack(s, n - 1, space) else n
  }

  function TrimLeft(s: string, space: Class): string { s[SkipFrom(s, 0, space)..] }

  function TrimRight(s: string, space: Class): string { s[..SkipBack(s, |s|, space)] }

  function Trim(s: string, space: Class): (r: string)
    ensures r == "" || (!In(r[0], space) && !In(r[|r| - 1], space))
  {
    TrimRight(TrimLeft(s, space), space)
  }

  function TrimSpace(s: string): string { Trim(s, Space) }

  /** A string whose ends are not in the cutset is its own trimming. */
  lemma TrimIdentity(s: string, space: Class)
    requires s == "" || (!In(s[0], space) && !In(s[|s| - 1], space))
    ensures Trim(s, space) == s
  {
  }

  /** Trimming splits a string into the class, the rest, and the class. */
  lemma TrimSplits(s: string, space: Class) returns (left: string, right: string)
    ensures s == left + (Trim(s, space) + right)
    ensures (forall c | c in left :: In(c, space)) && (forall c | c in right :: In(c, space))
    ensures Trim(s, space) == "" ==> right == ""
  {
    var i := SkipFrom(s, 0, space);
    var t := s[i..];
    var j := SkipBack(t, |t|, space);
    left, right := s[..i], t[j..];
  }
}
