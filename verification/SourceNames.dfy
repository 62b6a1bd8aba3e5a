/** The identifiers that Go's scanner finds in a template, whose HTML it reads as Go too, and when a name that generated
    code adds meets one that it did not find. */
module SourceNames {
  import opened Text
  import opened Identifiers

  // ---- What the scanner is in the middle of

  datatype Mode = Go | Quoted(quote: char) | Escaped(quote: char) | Raw | Slash | Line | Block | Star

  /** What a character begins that is read as Go. */
  function Begun(c: char): Mode {
    if c == '"' || c == '\'' then Quoted(c) else if c == '`' then Raw else if c == '/' then Slash else Go
  }

  /** A quoted literal ends at its quote or at the end of the line. */
  function Step(m: Mode, c: char): Mode {
    match m
    case Go => Begun(c)
    case Quoted(q) => if c == q || c == '\n' then Go else if c == '\\' then Escaped(q) else m
    case Escaped(q) => if c == '\n' then Go else Quoted(q)
    case Raw => if c == '`' then Go else Raw
    case Slash => if c == '/' then Line else if c == '*' then Block else Begun(c)
    case Line => if c == '\n' then Go else Line
    case Block => if c == '*' then Star else Block
    case Star => if c == '/' then Go else if c == '*' then Star else Block
  }

  function After(m: Mode, text: string): Mode {
    if text == "" then m else Step(After(m, text[..|text| - 1]), text[|text| - 1])
  }

  lemma AfterOne(m: Mode, text: string, c: char)
    ensures After(m, text + [c]) == Step(After(m, text), c)
  {
    assert (text + [c])[..|text|] == text;
  }

  lemma {:induction false} AfterTwo(m: Mode, a: string, b: string)
    ensures After(m, a + b) == After(After(m, a), b)
  {
    if b == "" {
      assert a + b == a;
    } else {
      var n := |b| - 1;
      AfterTwo(m, a, b[..n]);
      assert a + b == (a + b[..n]) + [b[n]];
      AfterOne(m, a + b[..n], b[n]);
    }
  }

  predicate ReadsGo(m: Mode) { m.Go? || m.Slash? }

  // ---- Identifiers

  /** The letters and digits beyond ASCII. */
  datatype Alphabet = Alphabet(letters: set<char>, digits: set<char>)

  predicate BeginsWord(c: char, a: Alphabet) { IsLetter(c) || c == '_' || (!IsAscii(c) && c in a.letters) }

  predicate IsInWord(c: char, a: Alphabet) { BeginsWord(c, a) || IsDigit(c) || (!IsAscii(c) && c in a.digits) }

  predicate IsRun(text: string, i: int, j: int, a: Alphabet) {
    0 <= i <= j <= |text| && forall k | i <= k < j :: IsInWord(text[k], a)
  }

  /** An identifier stands there: a longest run of letters and digits that begins with a letter. */
  predicate IsWordAt(text: string, i: int, j: int, a: Alphabet) {
    && IsRun(text, i, j, a) && i < j && BeginsWord(text[i], a)
    && (i > 0 ==> !IsInWord(text[i - 1], a)) && (j < |text| ==> !IsInWord(text[j], a))
  }

  /** And the scanner reads it as Go. */
  predicate IsSeen(text: string, i: int, j: int, a: Alphabet, m: Mode := Go) {
    IsWordAt(text, i, j, a) && ReadsGo(After(m, text[..i]))
  }

  /** sourceIdentifiers, or what Go's scanner finds when it begins in another mode. */
  function Scanned(text: string, a: Alphabet, m: Mode := Go): (words: set<string>)
    ensures forall w :: w in words <==> exists i, j :: IsSeen(text, i, j, a, m) && text[i..j] == w
  {
    set i, j | 0 <= i <= |text| && 0 <= j <= |text| && IsSeen(text, i, j, a, m) :: text[i..j]
  }

  lemma ScannedIsShort(text: string, a: Alphabet)
    ensures forall w :: w in Scanned(text, a) ==> |w| <= |text|
  {
  }

  // ---- Part of a template, and the scan of the whole

  /** No word reaches over the end of a part. */
  predicate IsCutOff(before: string, part: string, after: string, a: Alphabet) {
    && (before != "" && part != "" ==> !IsInWord(before[|before| - 1], a) || !IsInWord(part[0], a))
    && (after != "" && part != "" ==> !IsInWord(after[0], a) || !IsInWord(part[|part| - 1], a))
  }

  lemma RunBehind(before: string, part: string, i: int, j: int, a: Alphabet)
    requires IsRun(part, i, j, a)
    ensures IsRun(before + part, |before| + i, |before| + j, a)
  {
    var n := |before|;
    forall k | n + i <= k < n + j ensures IsInWord((before + part)[k], a) { assert (before + part)[k] == part[k - n]; }
  }

  lemma WordBehind(before: string, part: string, i: int, j: int, a: Alphabet)
    requires IsCutOff(before, part, "", a) && IsWordAt(part, i, j, a)
    ensures var text, n := before + part, |before|; IsWordAt(text, n + i, n + j, a) && text[n + i..n + j] == part[i..j]
  {
    var text, n := before + part, |before|;
    RunBehind(before, part, i, j, a);
    assert text[n + i] == part[i] && (j < |part| ==> text[n + j] == part[j]);
    assert n + i > 0 ==> text[n + i - 1] == if i > 0 then part[i - 1] else before[n - 1];
  }

  lemma WordInFront(part: string, after: string, i: int, j: int, a: Alphabet)
    requires IsCutOff("", part, after, a) && IsWordAt(part, i, j, a)
    ensures IsWordAt(part + after, i, j, a) && (part + after)[i..j] == part[i..j]
  {
    var text := part + after;
    assert forall k | 0 <= k < |part| :: text[k] == part[k];
  }

  lemma ModeBehind(before: string, part: string, i: nat, m: Mode)
    requires i <= |part|
    ensures After(m, (before + part)[..|before| + i]) == After(After(m, before), part[..i])
  {
    AfterTwo(m, before, part[..i]);
    assert (before + part)[..|before| + i] == before + part[..i];
  }

  lemma SeenBehind(before: string, part: string, i: int, j: int, a: Alphabet, m: Mode)
    requires IsCutOff(before, part, "", a) && IsSeen(part, i, j, a, After(m, before))
    ensures var text, n := before + part, |before|; IsSeen(text, n + i, n + j, a, m) && text[n + i..n + j] == part[i..j]
  {
    ModeBehind(before, part, i, m);
    WordBehind(before, part, i, j, a);
  }

  lemma SeenInFront(part: string, after: string, i: int, j: int, a: Alphabet, m: Mode)
    requires IsCutOff("", part, after, a) && IsSeen(part, i, j, a, m)
    ensures IsSeen(part + after, i, j, a, m) && (part + after)[i..j] == part[i..j]
  {
    WordInFront(part, after, i, j, a);
    assert (part + after)[..i] == part[..i];
  }

  lemma ScannedBehind(before: string, part: string, a: Alphabet, m: Mode)
    requires IsCutOff(before, part, "", a)
    ensures Scanned(part, a, After(m, before)) <= Scanned(before + part, a, m)
  {
    forall w | w in Scanned(part, a, After(m, before)) ensures w in Scanned(before + part, a, m) {
      var i, j :| IsSeen(part, i, j, a, After(m, before)) && part[i..j] == w;
      SeenBehind(before, part, i, j, a, m);
    }
  }

  lemma ScannedInFront(part: string, after: string, a: Alphabet, m: Mode)
    requires IsCutOff("", part, after, a)
    ensures Scanned(part, a, m) <= Scanned(part + after, a, m)
  {
    forall w | w in Scanned(part, a, m) ensures w in Scanned(part + after, a, m) {
      var i, j :| IsSeen(part, i, j, a, m) && part[i..j] == w;
      SeenInFront(part, after, i, j, a, m);
    }
  }

  lemma CutOffTogether(before: string, part: string, after: string, a: Alphabet)
    requires IsCutOff(before, part, after, a) && part != ""
    ensures IsCutOff(before, part, "", a) && IsCutOff("", before + part, after, a)
  {
    assert (before + part)[|before + part| - 1] == part[|part| - 1];
  }

  /** What the scanner finds in a part when it begins in the mode that it reaches there, it finds in the whole. */
  lemma ScannedWithin(before: string, part: string, after: string, a: Alphabet)
    requires IsCutOff(before, part, after, a)
    ensures Scanned(part, a, After(Go, before)) <= Scanned(before + part + after, a)
  {
    if part != "" {
      CutOffTogether(before, part, after, a);
      ScannedBehind(before, part, a, Go);
      ScannedInFront(before + part, after, a, Go);
    }
  }

  /** Where the scanner reads Go when a tag's own Go begins, none of the names that generated code adds is an identifier
      of the tag. */
  lemma TagIsApart(n: Names, before: string, tag: string, after: string, imports: seq<Import>, a: Alphabet)
    requires IsCutOff(before, tag, after, a) && After(Go, before) == Go
    requires AreFirstFree(n, Scanned(before + tag + after, a), imports)
    ensures forall x :: x in Introduced(n) ==> x !in Scanned(tag, a)
  {
    ScannedWithin(before, tag, after, a);
    NamesAreApart(n, Scanned(before + tag + after, a), imports);
  }

  /** Wherever a tag stands, the name for a base meets one of its identifiers exactly when some candidate is among those
      but was not found in the template, though all before it were. */
  lemma MeetsExactly(name: string, base: string, found: set<string>, words: set<string>)
    requires IsFirstFree(name, base, found)
    ensures name in words <==> exists k: nat :: IsFree(Candidate(base, k), base, k, found) && Candidate(base, k) in words
  {
    if k: nat :| IsFree(Candidate(base, k), base, k, found) && Candidate(base, k) in words {
      FirstFreeIsUnique(name, Candidate(base, k), base, found);
    }
  }

  // ---- What an apostrophe hides

  /** Neither an apostrophe nor the end of the line. */
  predicate IsRestOfLine(rest: string) { forall i | 0 <= i < |rest| :: rest[i] != '\n' && rest[i] != '\'' }

  lemma {:induction false} StaysQuoted(rest: string)
    requires IsRestOfLine(rest)
    ensures After(Quoted('\''), rest) in {Quoted('\''), Escaped('\'')}
  {
    if rest != "" { StaysQuoted(rest[..|rest| - 1]); }
  }

  function Apostrophized(before: string, rest: string): string { before + "'" + rest }

  lemma WordIsBefore(before: string, rest: string, i: int, j: int, a: Alphabet)
    requires i < |before|
    ensures IsWordAt(Apostrophized(before, rest), i, j, a) <==> IsWordAt(before, i, j, a)
  {
    var text, n := Apostrophized(before, rest), |before|;
    assert text[n] == '\'' && !IsInWord(text[n], a);
    assert forall k | 0 <= k < n :: text[k] == before[k];
  }

  /** An apostrophe in what is read as Go hides the rest of its line from the scanner, up to another one. */
  lemma ApostropheHides(before: string, rest: string, a: Alphabet)
    requires ReadsGo(After(Go, before)) && IsRestOfLine(rest)
    ensures Scanned(Apostrophized(before, rest), a) == Scanned(before, a)
  {
    var text, n := Apostrophized(before, rest), |before|;
    forall i, j ensures IsSeen(text, i, j, a) <==> i < n && IsSeen(before, i, j, a) {
      if 0 <= i < n {
        WordIsBefore(before, rest, i, j, a);
        assert text[..i] == before[..i];
      } else if i == n {
        assert text[n] == '\'' && !BeginsWord(text[n], a);
      } else if n < i <= |text| {
        HiddenAt(before, rest, i);
      }
    }
    forall i, j | IsSeen(before, i, j, a) ensures text[i..j] == before[i..j] {
    }
  }

  lemma HiddenAt(before: string, rest: string, i: nat)
    requires ReadsGo(After(Go, before)) && IsRestOfLine(rest) && |before| < i <= |Apostrophized(before, rest)|
    ensures !ReadsGo(After(Go, Apostrophized(before, rest)[..i]))
  {
    var most := rest[..i - |before| - 1];
    AfterOne(Go, before, '\'');
    assert before + "'" == before + ['\''];
    AfterTwo(Go, before + "'", most);
    assert Apostrophized(before, rest)[..i] == before + "'" + most;
    StaysQuoted(most);
  }

  // ---- A template in which a name meets

  /** Nothing in it begins a literal or a comment. */
  predicate IsQuiet(s: string) { forall i | 0 <= i < |s| :: Begun(s[i]) == Go }

  lemma {:induction false} QuietStaysGo(s: string)
    requires IsQuiet(s)
    ensures After(Go, s) == Go
  {
    if s != "" { QuietStaysGo(s[..|s| - 1]); }
  }

  const DONT := "<p>don"

  function WriterTag(): string { " " + WRITER + " " }

  function Colliding(): string { Apostrophized(DONT, "t <?=" + WriterTag() + "?></p>") }

  lemma WriterIsScanned(a: Alphabet)
    ensures WRITER in Scanned(WriterTag(), a)
  {
    var tag, n := WriterTag(), |WRITER| + 1;
    assert tag[1..n] == WRITER && tag[..1] == " ";
    assert forall k | 1 <= k < n :: tag[k] == WRITER[k - 1];
    QuietStaysGo(tag[..1]);
    assert IsSeen(tag, 1, n, a);
  }

  lemma WriterIsHidden(a: Alphabet)
    ensures WRITER !in Scanned(Colliding(), a)
  {
    QuietStaysGo(DONT);
    var rest := "t <?=" + WriterTag() + "?></p>";
    assert IsRestOfLine(WriterTag()) && IsRestOfLine("t <?=") && IsRestOfLine("?></p>");
    ApostropheHides(DONT, rest, a);
    ScannedIsShort(DONT, a);
    assert |WRITER| == 16 && |DONT| == 6;
  }

  /** In <p>don't <?= __himesan_writer ?></p> the scanner does not find the identifier, and generated code gives its writer
      that very name. */
  lemma ApostropheCollides(n: Names, imports: seq<Import>, a: Alphabet)
    requires AreFirstFree(n, Scanned(Colliding(), a), imports)
    ensures n.writer == WRITER && n.writer in Scanned(WriterTag(), a)
  {
    WriterIsHidden(a);
    WriterIsScanned(a);
    FirstFreeIsUnique(n.writer, n.writer, WRITER, Scanned(Colliding(), a));
  }
}
