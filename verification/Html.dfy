/** html.EscapeString and html.UnescapeString, with the entity table and the numeric code points as parameters. */
module Html {
  import opened Text

  /** The tables the project takes from Go's library: the named entities (keys with their semicolon where it is
      required), the replacements of the numeric references 128 to 159, and the lower case of characters outside
      ASCII that have one. */
  datatype Library = Library(entities: map<string, string>, windows1252: seq<char>, lowercase: map<char, char>)

  /** The facts about those tables that the proofs use. */
  ghost predicate Sound(lib: Library) {
    && "amp;" in lib.entities && lib.entities["amp;"] == "&"
    && "lt;" in lib.entities && lib.entities["lt;"] == "<"
    && "gt;" in lib.entities && lib.entities["gt;"] == ">"
    && LowerSound(lib)
  }

  /** Outside ASCII, lower case is a lower-case ASCII letter or outside ASCII, and space stays space. */
  ghost predicate LowerSound(lib: Library) {
    forall c | c in lib.lowercase ::
      var lower := lib.lowercase[c];
      (!IsAscii(lower) || 'a' <= lower <= 'z') && (IsSpace(lower) <==> IsSpace(c))
  }

  function LowerRune(lib: Library, c: char): char {
    if IsAscii(c) then Text.Lower(c) else if c in lib.lowercase then lib.lowercase[c] else c
  }

  /** strings.ToLower */
  function ToLower(lib: Library, s: string): (r: string)
    ensures |r| == |s| && forall j | 0 <= j < |r| :: r[j] == LowerRune(lib, s[j])
  {
    seq(|s|, i requires 0 <= i < |s| => LowerRune(lib, s[i]))
  }

  /** The text of a numeric reference. */
  function CodePoint(lib: Library, x: nat): string {
    if 0x80 <= x <= 0x9F then
      if x - 0x80 < |lib.windows1252| then [lib.windows1252[x - 0x80]] else "\U{FFFD}"
    else if x == 0 || 0xD800 <= x <= 0xDFFF || x > 0x10FFFF then "\U{FFFD}"
    else [x as char]
  }

  /** The five characters that are escaped. */
  predicate IsSpecial(c: char) { c == '&' || c == '\'' || c == '<' || c == '>' || c == '"' }

  /** The characters that end text or a quoted value. */
  predicate IsDelimiter(c: char) { IsSpecial(c) && c != '&' }

  function EscapeChar(c: char): string {
    match c
    case '&' => "&amp;"
    case '\'' => "&#39;"
    case '<' => "&lt;"
    case '>' => "&gt;"
    case '"' => "&#34;"
    case _ => [c]
  }

  function Escape(s: string): string {
    if s == "" then "" else EscapeChar(s[0]) + Escape(s[1..])
  }

  predicate IsNameChar(c: char) { IsLetter(c) || IsDigit(c) }

  /** The end of the alphanumeric run of `s` from `i`. */
  function NameEnd(s: string, i: nat): (e: nat)
    requires i <= |s|
    ensures i <= e <= |s|
    decreases |s| - i
  {
    if i < |s| && IsNameChar(s[i]) then NameEnd(s, i + 1) else i
  }

  function DigitValue(c: char, hex: bool): Option<nat> {
    if IsDigit(c) then Some(c as int - '0' as int)
    else if hex && 'a' <= c <= 'f' then Some(c as int - 'a' as int + 10)
    else if hex && 'A' <= c <= 'F' then Some(c as int - 'A' as int + 10)
    else None
  }

  /** The value and end of the digit run of `s` from `i`, continuing the value `x`. */
  function Digits(s: string, i: nat, hex: bool, x: nat): (r: (nat, nat))
    requires i <= |s|
    ensures i <= r.1 <= |s|
    decreases |s| - i
  {
    if i < |s| && DigitValue(s[i], hex).Some? then
      Digits(s, i + 1, hex, (if hex then 16 else 10) * x + DigitValue(s[i], hex).value)
    else (x, i)
  }

  function Semicolon(s: string, i: nat): (e: nat)
    requires i <= |s|
    ensures i <= e <= |s|
  {
    if i < |s| && s[i] == ';' then i + 1 else i
  }

  /** The longest prefix of `name`, at most `n` and at least two characters long, that is an entity by itself. */
  function LongestEntity(lib: Library, name: string, n: nat): (j: nat)
    requires n <= |name|
    ensures j <= n && (j > 0 ==> name[..j] in lib.entities)
  {
    if n <= 1 then 0 else if name[..n] in lib.entities then n else LongestEntity(lib, name, n - 1)
  }

  /** The text of the character reference at the start of `s` and how much of `s` it spans. */
  function Reference(lib: Library, s: string): (r: (string, nat))
    requires s != "" && s[0] == '&'
    ensures 1 <= r.1 <= |s|
  {
    if |s| == 1 then ("&", 1)
    else if s[1] == '#' then
      if |s| <= 3 then ("&", 1)
      else
        var hex := s[2] == 'x' || s[2] == 'X';
        var (x, i) := Digits(s, if hex then 3 else 2, hex, 0);
        var end := Semicolon(s, i);
        if end <= 3 then ("&", 1) else (CodePoint(lib, x), end)
    else
      var end := Semicolon(s, NameEnd(s, 1));
      var name := s[1..end];
      if name == "" then (s[..end], end)
      else if name in lib.entities then (lib.entities[name], end)
      else
        var j := LongestEntity(lib, name, if |name| - 1 > 6 then 6 else |name| - 1);
        if j > 0 then (lib.entities[name[..j]], j + 1) else (s[..end], end)
  }

  function Unescape(lib: Library, s: string): string
    decreases |s|
  {
    if s == "" then ""
    else if s[0] != '&' then [s[0]] + Unescape(lib, s[1..])
    else
      var (text, size) := Reference(lib, s);
      text + Unescape(lib, s[size..])
  }

  /** Each replacement is one reference that decodes to the character it replaced, whatever follows. */
  lemma ReplacementDecodes(lib: Library, c: char, rest: string)
    requires Sound(lib) && IsSpecial(c)
    ensures Reference(lib, EscapeChar(c) + rest) == ([c], |EscapeChar(c)|)
  {
    var s := EscapeChar(c) + rest;
    match c
    case '\'' =>
      assert s[2] == '3' && s[3] == '9' && s[4] == ';';
      assert Digits(s, 4, false, 39) == (39, 4);
      assert Digits(s, 3, false, 3) == (39, 4);
    case '"' =>
      assert s[2] == '3' && s[3] == '4' && s[4] == ';';
      assert Digits(s, 4, false, 34) == (34, 4);
      assert Digits(s, 3, false, 3) == (34, 4);
    case '&' =>
      assert NameEnd(s, 4) == 4;
      assert NameEnd(s, 3) == 4;
      assert NameEnd(s, 2) == 4;
      assert s[1..5] == "amp;";
    case '<' =>
      assert NameEnd(s, 3) == 3;
      assert NameEnd(s, 2) == 3;
      assert s[1..4] == "lt;";
    case '>' =>
      assert NameEnd(s, 3) == 3;
      assert NameEnd(s, 2) == 3;
      assert s[1..4] == "gt;";
  }

  /** Unescaping undoes escaping on every string. */
  lemma {:induction false} UnescapeUndoesEscape(lib: Library, s: string)
    requires Sound(lib)
    ensures Unescape(lib, Escape(s)) == s
  {
    if s != "" {
      var t := Escape(s[1..]);
      UnescapeUndoesEscape(lib, s[1..]);
      if IsSpecial(s[0]) {
        ReplacementDecodes(lib, s[0], t);
        assert (EscapeChar(s[0]) + t)[|EscapeChar(s[0])|..] == t;
      } else {
        assert ([s[0]] + t)[1..] == t;
      }
      assert s == [s[0]] + s[1..];
    }
  }

  /** Escaped text holds no markup delimiter: no angle bracket and neither quote. */
  lemma {:induction false} EscapeHasNoDelimiter(s: string)
    ensures forall i | 0 <= i < |Escape(s)| :: !IsDelimiter(Escape(s)[i])
  {
    if s != "" {
      EscapeHasNoDelimiter(s[1..]);
      assert forall c | c in EscapeChar(s[0]) :: !IsDelimiter(c);
      forall i | 0 <= i < |Escape(s)| ensures !IsDelimiter(Escape(s)[i]) {
        var n := |EscapeChar(s[0])|;
        if i < n { assert Escape(s)[i] in EscapeChar(s[0]); } else { assert Escape(s)[i] == Escape(s[1..])[i - n]; }
      }
    }
  }

  predicate IsPlain(s: string) { forall i | 0 <= i < |s| :: s[i] != '&' }

  /** Text before the first ampersand decodes to itself. */
  lemma {:induction false} UnescapeKeepsPlainPrefix(lib: Library, plain: string, rest: string)
    requires IsPlain(plain)
    ensures Unescape(lib, plain + rest) == plain + Unescape(lib, rest)
  {
    var s := plain + rest;
    if plain == "" {
      assert s == rest;
    } else {
      UnescapeKeepsPlainPrefix(lib, plain[1..], rest);
      assert s[0] == plain[0] && s[1..] == plain[1..] + rest;
      assert [plain[0]] + (plain[1..] + Unescape(lib, rest)) == plain + Unescape(lib, rest);
    }
  }
}
