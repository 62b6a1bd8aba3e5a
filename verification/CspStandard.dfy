/** What the edit does to a policy as a browser reads it, by Content Security Policy Level 3. */
module CspStandard {
  import opened Text
  import opened Sequences
  import opened Csp

  const VT := '\U{B}'

  // ---- Where the two readings of a part agree

  /** ASCII without the vertical tab, which is white space to the code only. */
  predicate IsPlain(s: string) { forall i | 0 <= i < |s| :: IsAscii(s[i]) && s[i] != VT }

  predicate AreAscii(ws: seq<string>) { forall k | 0 <= k < |ws| :: AllAscii(ws[k]) }

  /** The characters of some words, in order. */
  function Flat(ws: seq<string>): string { if ws == [] then "" else Flat(ws[..|ws| - 1]) + ws[|ws| - 1] }

  /** The characters of a part that are not white space, in order. */
  function Solid(s: string, reading: Reading): (r: string)
    ensures forall c :: c in r <==> c in s && !IsGap(c, reading)
  {
    if s == "" then ""
    else Solid(s[..|s| - 1], reading) + if IsGap(s[|s| - 1], reading) then "" else [s[|s| - 1]]
  }

  lemma FlatOne(ws: seq<string>, w: string)
    ensures Flat(ws + [w]) == Flat(ws) + w
  {
    assert (ws + [w])[..|ws|] == ws;
  }

  lemma FlatExtends(ws: seq<string>, w: string)
    requires ws != []
    ensures Flat(Extend(ws, w)) == Flat(ws) + w
  {
    var n := |ws| - 1;
    FlatOne(ws[..n], ws[n] + w);
    assert (Flat(ws[..n]) + ws[n]) + w == Flat(ws[..n]) + (ws[n] + w);
  }

  /** The words of a part are its characters but for the white space. */
  lemma {:induction false} FieldsAreSolid(s: string, reading: Reading)
    ensures Flat(Fields(s, reading)) == Solid(s, reading)
  {
    if s != "" {
      var t, c := s[..|s| - 1], s[|s| - 1];
      FieldsAreSolid(t, reading);
      if IsGap(c, reading) {
        assert Solid(t, reading) + "" == Solid(t, reading);
      } else if EndsInGap(t, reading) {
        FlatOne(Fields(t, reading), [c]);
      } else {
        FlatExtends(Fields(t, reading), [c]);
      }
    }
  }

  lemma PlainGaps(c: char)
    requires IsAscii(c) && c != VT
    ensures IsGap(c, Standard) <==> IsGap(c, Code)
  {
  }

  lemma {:induction false} PlainFields(s: string)
    requires IsPlain(s)
    ensures Fields(s, Standard) == Fields(s, Code)
  {
    if s != "" {
      var t := s[..|s| - 1];
      PlainGaps(s[|s| - 1]);
      if t != "" { PlainGaps(t[|t| - 1]); }
      PlainFields(t);
    }
  }

  lemma {:induction false} FieldlessIsBlank(s: string)
    requires Fields(s) == []
    ensures IsBlank(s)
  {
    if s != "" { FieldlessIsBlank(s[..|s| - 1]); }
  }

  lemma TabDisagrees(part: string)
    requires AllAscii(part) && !IsPlain(part)
    ensures Fields(part, Standard) != Fields(part, Code)
  {
    var i :| 0 <= i < |part| && part[i] == VT;
    FieldsAreSolid(part, Standard);
    FieldsAreSolid(part, Code);
    assert VT in part;
    assert VT in Solid(part, Standard) && VT !in Solid(part, Code);
  }

  lemma FieldlessExactly(part: string)
    ensures Fields(part) == [] <==> IsBlank(part)
  {
    if IsBlank(part) { BlankHasNoFields(part); }
    if Fields(part) == [] { FieldlessIsBlank(part); }
  }

  lemma PlainIsAscii(s: string)
    requires IsPlain(s)
    ensures AllAscii(s)
  {
  }

  /** The standard reads a part as the code does exactly when it is ASCII without a vertical tab, or blank to the code
      and ignored as not ASCII. */
  lemma ReadingsAgree(part: string)
    ensures Read(part, Standard) == Read(part, Code) <==> IsPlain(part) || (IsBlank(part) && !AllAscii(part))
  {
    FieldlessExactly(part);
    if IsPlain(part) {
      PlainIsAscii(part);
      PlainFields(part);
    } else if AllAscii(part) {
      TabDisagrees(part);
    }
  }

  lemma OneMoreAscii(ws: seq<string>, w: string)
    requires AreAscii(ws) && AllAscii(w)
    ensures AreAscii(ws + [w])
  {
  }

  lemma LongerAscii(ws: seq<string>, c: char)
    requires AreAscii(ws) && ws != [] && IsAscii(c)
    ensures AreAscii(Extend(ws, [c]))
  {
    var n := |ws| - 1;
    assert AllAscii(ws[n]) && AllAscii(ws[n] + [c]);
    forall k | 0 <= k < |ws| ensures AllAscii(Extend(ws, [c])[k]) {
      assert k < n ==> AllAscii(ws[k]);
    }
  }

  lemma {:induction false} FieldsAreAscii(s: string, reading: Reading)
    requires AllAscii(s)
    ensures AreAscii(Fields(s, reading))
  {
    if s != "" {
      var t, c := s[..|s| - 1], s[|s| - 1];
      FieldsAreAscii(t, reading);
      if !IsGap(c, reading) {
        if EndsInGap(t, reading) {
          OneMoreAscii(Fields(t, reading), [c]);
        } else {
          LongerAscii(Fields(t, reading), c);
        }
      }
    }
  }

  // ---- A directive to the standard is the same directive to the code

  predicate NoTab(w: string) { forall i | 0 <= i < |w| :: w[i] != VT }

  /** The words so far as the standard and the code have them, and whether the last one may grow: the first words are
      the same unless a vertical tab is in the standard's. */
  predicate HeadsAgree(standard: seq<string>, grows: bool, code: seq<string>, codeGrows: bool) {
    && (standard == [] ==> code == [])
    && (standard != [] && NoTab(standard[0]) ==>
          code != [] && code[0] == standard[0] && ((|standard| == 1 && grows) <==> (|code| == 1 && codeGrows)))
  }

  lemma TabStays(ws: seq<string>, w: string)
    requires ws != []
    ensures NoTab(Extend(ws, w)[0]) ==> NoTab(ws[0])
  {
    var next := Extend(ws, w)[0];
    if NoTab(next) {
      forall i | 0 <= i < |ws[0]| ensures ws[0][i] != VT { assert next[i] == ws[0][i]; }
    }
  }

  /** The words with another character at their end. */
  function Grown(ws: seq<string>, grows: bool, c: char): (r: seq<string>)
    requires grows ==> ws != []
    ensures |r| == (if grows then |ws| else |ws| + 1) && r != []
    ensures r[0] == if ws == [] then [c] else if grows && |ws| == 1 then ws[0] + [c] else ws[0]
  {
    if grows then Extend(ws, [c]) else ws + [[c]]
  }

  lemma HeadsGrow(standard: seq<string>, grows: bool, code: seq<string>, codeGrows: bool, c: char)
    requires HeadsAgree(standard, grows, code, codeGrows) && (codeGrows ==> grows)
    requires (grows ==> standard != []) && (codeGrows ==> code != [])
    ensures HeadsAgree(Grown(standard, grows, c), true, Grown(code, codeGrows, c), true)
  {
    if standard != [] && NoTab(Grown(standard, grows, c)[0]) {
      if grows { TabStays(standard, [c]); }
      assert NoTab(standard[0]);
    }
  }

  lemma HeadsExtend(s: string, c: char)
    requires HeadsAgree(Fields(s, Standard), !EndsInGap(s, Standard), Fields(s), !EndsInGap(s))
    requires IsAscii(c) && !IsGap(c, Standard) && c != VT
    ensures HeadsAgree(Fields(s + [c], Standard), true, Fields(s + [c]), true)
  {
    FieldsOne(s, c, Standard);
    FieldsOne(s, c);
    HeadsGrow(Fields(s, Standard), !EndsInGap(s, Standard), Fields(s), !EndsInGap(s), c);
  }

  lemma HeadsPassTab(s: string)
    requires HeadsAgree(Fields(s, Standard), !EndsInGap(s, Standard), Fields(s), !EndsInGap(s))
    ensures HeadsAgree(Fields(s + [VT], Standard), true, Fields(s + [VT]), false)
  {
    FieldsOne(s, VT, Standard);
    FieldsOne(s, VT);
    var ws := Fields(s, Standard);
    if !EndsInGap(s, Standard) {
      TabStays(ws, [VT]);
      if |ws| == 1 { assert Extend(ws, [VT])[0][|ws[0]|] == VT; }
    } else if ws == [] {
      assert [VT][0] == VT;
    }
  }

  lemma {:induction false} HeadsOf(s: string)
    requires AllAscii(s)
    ensures HeadsAgree(Fields(s, Standard), !EndsInGap(s, Standard), Fields(s), !EndsInGap(s))
  {
    if s != "" {
      var t, c := s[..|s| - 1], s[|s| - 1];
      HeadsOf(t);
      assert t + [c] == s;
      if IsGap(c, Standard) {
        FieldsOne(t, c, Standard);
        FieldsOne(t, c);
      } else if c == VT {
        HeadsPassTab(t);
      } else {
        HeadsExtend(t, c);
      }
    }
  }

  lemma StandardNameIsCode(w: string, name: string)
    requires IsName(name) && Means(w, name, Standard)
    ensures EqualFold(w, name) && NoTab(w) && AllAscii(w)
  {
    forall i | 0 <= i < |w| ensures Fold(w[i]) == name[i] && w[i] != VT && IsAscii(w[i]) {
      assert Lower(w[i]) == name[i];
    }
  }

  lemma AsciiNameIsStandard(w: string, name: string)
    requires EqualFold(w, name) && AllAscii(w)
    ensures Means(w, name, Standard)
  {
    forall i | 0 <= i < |w| ensures Lower(w[i]) == name[i] {
      assert Fold(w[i]) == name[i] && IsAscii(w[i]);
    }
  }

  /** What the standard takes for a directive of some name, the code does. */
  lemma StandardNamesAreCode(part: string, name: string)
    requires IsName(name) && Names(part, name, Standard)
    ensures Names(part, name, Code)
  {
    StandardNameIsCode(Read(part, Standard)[0], name);
    HeadsOf(part);
  }

  lemma NoneFoundIsNone(parts: seq<string>, name: string)
    requires IsName(name) && Find(parts, name) == None
    ensures Find(parts, name, Standard) == None
  {
    var i := Find(parts, name, Standard);
    if i.Some? {
      StandardNamesAreCode(parts[i.value], name);
      assert IsNamed(parts, i.value, name);
    }
  }

  // ---- The exact effect of one edit

  lemma NoneIsAscii(w: string)
    requires EqualFold(w, NONE)
    ensures AllAscii(w)
  {
    forall i | 0 <= i < |w| ensures IsAscii(w[i]) { assert Fold(w[i]) == NONE[i]; }
  }

  lemma {:induction false} WithoutIsAscii(sources: seq<string>)
    ensures AreAscii(Without(sources, NONE)) <==> AreAscii(sources)
  {
    if sources != [] {
      var n := |sources| - 1;
      WithoutIsAscii(sources[..n]);
      AsciiSplits(sources[..n], sources[n]);
      assert sources[..n] + [sources[n]] == sources;
      if EqualFold(sources[n], NONE) {
        NoneIsAscii(sources[n]);
        assert Without(sources[..n], NONE) + [] == Without(sources[..n], NONE);
      } else {
        AsciiSplits(Without(sources[..n], NONE), sources[n]);
      }
    }
  }

  lemma AsciiSplits(ws: seq<string>, w: string)
    ensures AreAscii(ws + [w]) <==> AreAscii(ws) && AllAscii(w)
  {
    var longer := ws + [w];
    if AreAscii(longer) {
      assert AllAscii(longer[|ws|]);
      forall k | 0 <= k < |ws| ensures AllAscii(ws[k]) { assert AllAscii(longer[k]); }
    }
  }

  lemma {:induction false} WordsArePlain(name: string, sources: seq<string>)
    requires IsWord(name) && AreWords(sources) && AllAscii(name) && AreAscii(sources)
    ensures IsPlain(Words(name, sources))
  {
    if sources != [] {
      var n := |sources| - 1;
      WordsArePlain(name, sources[..n]);
      assert AllAscii(sources[n]) && IsWord(sources[n]);
    }
  }

  /** The part that grants is read by the standard as by the code when its words are ASCII, and else not at all. */
  lemma GrantedIsRead(name: string, sources: seq<string>, source: string)
    requires IsWord(name) && AreWords(sources) && IsWord(source) && AllAscii(source)
    ensures var part := Granted(name, sources, source);
            if AllAscii(name) && AreAscii(sources) then IsPlain(part) else !AllAscii(part)
  {
    var all, part := Without(sources, NONE) + [source], Granted(name, sources, source);
    WithoutWords(sources);
    WithoutIsAscii(sources);
    AsciiSplits(Without(sources, NONE), source);
    if AllAscii(name) && AreAscii(sources) {
      WordsArePlain(name, all);
    } else if AllAscii(part) {
      FieldsAreAscii(part, Code);
      BlankHasNoFields("");
      GrantedFields("", name, sources, source);
      assert "" + part == part;
      WordsSplit(name, all);
    }
  }

  lemma WordsSplit(name: string, all: seq<string>)
    requires AreAscii([name] + all)
    ensures AllAscii(name) && AreAscii(all)
  {
    var ws := [name] + all;
    assert AllAscii(ws[0]);
    forall k | 0 <= k < |all| ensures AllAscii(all[k]) { assert AllAscii(ws[k + 1]); }
  }

  /** A browser reads the edited directive as it was written: the words are ASCII, and so is, without a vertical tab,
      the white space left before an appended directive. */
  predicate EditIsRead(policy: string, directive: string, source: string, fallback: string) {
    var parts := Split(policy);
    match Find(parts, directive)
    case Some(i) => source !in Fields(parts[i])[1..] && AreAscii(Fields(parts[i]))
    case None =>
      match Sources(parts, fallback)
      case None => false
      case Some(sources) => AreAscii(sources) && IsPlain(Lead(policy))
  }

  /** A part that the code takes for one directive, the standard does not take for another. */
  lemma OnlyMeans(part: string, head: string, directive: string, name: string)
    requires IsName(name) && Fields(part) != [] && Fields(part)[0] == head && EqualFold(head, directive)
    ensures Names(part, name, Standard) ==> name == directive
  {
    if Names(part, name, Standard) {
      StandardNamesAreCode(part, name);
      NamesDiffer(head, directive, name);
    }
  }

  /** What is left of a vertical tab hides the name of a directive after it. */
  lemma {:induction false} FlatBegins(ws: seq<string>)
    requires ws != [] && ws[0] != ""
    ensures Flat(ws) != "" && Flat(ws)[0] == ws[0][0]
  {
    var n := |ws| - 1;
    if n == 0 {
      assert ws[..0] == [] && Flat(ws) == "" + ws[0];
    } else {
      FlatBegins(ws[..n]);
    }
  }

  lemma SolidOne(s: string, c: char, reading: Reading)
    ensures Solid(s + [c], reading) == Solid(s, reading) + if IsGap(c, reading) then "" else [c]
  {
    assert (s + [c])[..|s|] == s;
  }

  lemma {:induction false} SolidJoins(s: string, t: string, reading: Reading)
    ensures Solid(s + t, reading) == Solid(s, reading) + Solid(t, reading)
  {
    if t == "" {
      assert s + t == s;
    } else {
      var u, c := t[..|t| - 1], t[|t| - 1];
      SolidJoins(s, u, reading);
      SolidOne(s + u, c, reading);
      SolidOne(u, c, reading);
      Associate(Solid(s, reading), Solid(u, reading), if IsGap(c, reading) then "" else [c]);
      Associate(s, u, [c]);
      LastApart(t);
    }
  }

  /** What is white space to the code only is, in ASCII, the vertical tab. */
  lemma SolidIsTab(lead: string, c: char)
    requires AllAscii(lead) && IsBlank(lead) && c in Solid(lead, Standard)
    ensures c == VT
  {
    var i :| 0 <= i < |lead| && lead[i] == c;
    assert IsAscii(lead[i]) && IsSpace(c) && !IsGap(c, Standard);
  }

  lemma TabLeads(lead: string, rest: string)
    requires AllAscii(lead) && IsBlank(lead) && !IsPlain(lead)
    ensures var solid := Solid(lead + rest, Standard); solid != "" && solid[0] == VT
  {
    SolidJoins(lead, rest, Standard);
    var i, solid :| 0 <= i < |lead| && lead[i] == VT && solid == Solid(lead, Standard);
    assert VT in lead && VT in solid;
    SolidIsTab(lead, solid[0]);
  }

  lemma {:induction false} FieldsAreNotEmpty(s: string, reading: Reading)
    ensures forall k | 0 <= k < |Fields(s, reading)| :: Fields(s, reading)[k] != ""
  {
    if s != "" { FieldsAreNotEmpty(s[..|s| - 1], reading); }
  }

  lemma TabHidesName(lead: string, rest: string, name: string)
    requires IsBlank(lead) && !IsPlain(lead) && IsName(name)
    ensures !Names(lead + rest, name, Standard)
  {
    var part := lead + rest;
    if Names(part, name, Standard) {
      assert forall i | 0 <= i < |lead| :: part[i] == lead[i];
      TabLeads(lead, rest);
      FieldsAreSolid(part, Standard);
      FieldsAreNotEmpty(part, Standard);
      FlatBegins(Fields(part, Standard));
    }
  }

  /** Whether the standard reads a part that grants. */
  lemma GrantIsRead(lead: string, head: string, directive: string, sources: seq<string>, source: string, name: string)
    requires IsBlank(lead) && EndsInGap(lead) && IsWord(head) && EqualFold(head, directive) && AreWords(sources)
    requires IsName(directive) && IsName(name) && IsWord(source) && AllAscii(source)
    ensures var part := lead + Granted(head, sources, source);
            Names(part, name, Standard)
            <==> name == directive && IsPlain(lead) && AllAscii(head) && AreAscii(sources)
  {
    var granted := Granted(head, sources, source);
    var part := lead + granted;
    BlankHasNoFields(lead);
    GrantedFields(lead, head, sources, source);
    GrantedIsRead(head, sources, source);
    OnlyMeans(part, head, directive, name);
    if !IsPlain(lead) {
      TabHidesName(lead, granted, name);
    } else if !(AllAscii(head) && AreAscii(sources)) {
      NotAsciiWithin(lead, granted);
    } else {
      PlainFields(part);
      AsciiNameIsStandard(head, directive);
    }
  }

  lemma NotAsciiWithin(lead: string, rest: string)
    requires !AllAscii(rest)
    ensures !AllAscii(lead + rest)
  {
    var i :| 0 <= i < |rest| && !IsAscii(rest[i]);
    assert (lead + rest)[|lead| + i] == rest[i];
  }

  /** And what it reads there. */
  lemma GrantReads(lead: string, head: string, sources: seq<string>, source: string)
    requires IsBlank(lead) && EndsInGap(lead) && IsWord(head) && AreWords(sources) && IsWord(source) && AllAscii(source)
    requires IsPlain(lead) && AllAscii(head) && AreAscii(sources)
    ensures var part := lead + Granted(head, sources, source);
            Read(part, Standard) == [head] + (Without(sources, NONE) + [source])
  {
    BlankHasNoFields(lead);
    GrantedFields(lead, head, sources, source);
    GrantedIsRead(head, sources, source);
    PlainFields(lead + Granted(head, sources, source));
  }

  lemma NoneEarlier(parts: seq<string>, i: nat, name: string)
    requires IsName(name) && Find(parts, name) == Some(i)
    ensures NoneBefore(parts, i, name, Standard)
  {
    forall k | 0 <= k < i ensures !IsNamed(parts, k, name, Standard) {
      if IsNamed(parts, k, name, Standard) {
        StandardNamesAreCode(parts[k], name);
        assert IsNamed(parts, k, name);
      }
    }
  }

  /** The part that is replaced was, for the standard, the same directive or none. */
  lemma ReplacedIsRead(part: string, directive: string, name: string)
    requires Names(part, directive) && IsName(directive) && IsName(name) && Names(part, name, Standard)
    ensures name == directive && AreAscii(Fields(part))
  {
    OnlyMeans(part, Fields(part)[0], directive, name);
    FieldsAreAscii(part, Code);
  }

  /** Granting in place, as the standard reads the part. */
  lemma RewrittenPart(part: string, directive: string, source: string, name: string)
    requires IsPart(part) && Names(part, directive)
    requires IsName(directive) && IsName(name) && IsWord(source) && AllAscii(source)
    ensures var words := Fields(part);
            var next := Granted(words[0], words[1..], source);
            && IsPart(next)
            && (Names(next, name, Standard) <==> name == directive && AreAscii(words))
            && (AreAscii(words) ==> Read(next, Standard) == [words[0]] + (Without(words[1..], NONE) + [source]))
  {
    var words := Fields(part);
    var head, own := words[0], words[1..];
    FieldsAreWords(part);
    BlankHasNoFields("");
    GrantedFields("", head, own, source);
    assert words == [head] + own && "" + Granted(head, own, source) == Granted(head, own, source);
    AsciiApart(head, own);
    GrantIsRead("", head, directive, own, source, name);
    if AreAscii(words) { GrantReads("", head, own, source); }
  }

  lemma AsciiApart(name: string, all: seq<string>)
    ensures AreAscii([name] + all) <==> AllAscii(name) && AreAscii(all)
  {
    if AreAscii([name] + all) { WordsSplit(name, all); }
  }

  /** And the policy. */
  lemma RewrittenForStandard(policy: string, i: nat, directive: string, source: string, name: string)
    requires IsName(directive) && IsName(name) && IsWord(source) && AllAscii(source)
    requires Find(Split(policy), directive) == Some(i)
    ensures var parts := Split(policy);
            var own := Fields(parts[i])[1..];
            Says(Join(parts[i := Granted(Fields(parts[i])[0], own, source)]), name, Standard)
            == if name == directive && AreAscii(Fields(parts[i])) then Some(Without(own, NONE) + [source])
               else Says(policy, name, Standard)
  {
    var parts := Split(policy);
    assert IsNamed(parts, i, directive);
    var part := Granted(Fields(parts[i])[0], Fields(parts[i])[1..], source);
    SplitGivesParts(policy);
    RewrittenPart(parts[i], directive, source, name);
    SplitOfJoin(parts[i := part]);
    if name == directive { NoneEarlier(parts, i, name); }
    if Names(parts[i], name, Standard) { ReplacedIsRead(parts[i], directive, name); }
    ReplacedPart(parts, i, part, name, Standard);
  }

  lemma KeptForStandard(policy: string, kept: seq<string>, name: string)
    requires IsName(name) && (Split(policy) == kept || exists blank :: IsBlankAfter(policy, kept, blank))
    ensures Sources(kept, name, Standard) == Says(policy, name, Standard)
  {
    if Split(policy) != kept {
      var blank :| IsBlankAfter(policy, kept, blank);
      AppendEffect(kept, blank, name, Standard);
      if Names(blank, name, Standard) { StandardNamesAreCode(blank, name); }
    }
  }

  /** Granting through a fallback, as the standard reads it. */
  lemma AppendedForStandard(policy: string, directive: string, sources: seq<string>, source: string, name: string)
    requires IsName(directive) && IsName(name) && IsWord(source) && AllAscii(source) && AreWords(sources)
    requires TrimSpace(policy) != "" && Find(Split(policy), directive) == None
    ensures Says(Appended(policy, Granted(directive, sources, source)), name, Standard)
         == if name == directive && AreAscii(sources) && IsPlain(Lead(policy)) then Some(Without(sources, NONE) + [source])
            else Says(policy, name, Standard)
  {
    var addition, lead := Granted(directive, sources, source), Lead(policy);
    NameIsItself(directive);
    NameIsAscii(directive);
    BlankHasNoFields("");
    GrantedNames("", directive, sources, source, name);
    var kept := AppendedParts(policy, addition);
    FieldlessIsBlank(lead);
    KeptForStandard(policy, kept, name);
    if name == directive { NoneFoundIsNone(Split(policy), name); }
    AppendEffect(kept, lead + addition, name, Standard);
    GrantIsRead(lead, directive, directive, sources, source, name);
    if AreAscii(sources) && IsPlain(lead) { GrantReads(lead, directive, sources, source); }
  }

  lemma NameIsAscii(name: string)
    requires IsName(name)
    ensures AllAscii(name)
  {
  }

  /** The exact effect of one edit on every policy: when it is read, the directive says what the code made of it, and
      otherwise it says to the standard what it said before. No other directive changes. */
  lemma StandardEffect(policy: string, directive: string, source: string, fallback: string, name: string)
    requires IsName(directive) && IsName(name) && IsWord(source) && AllAscii(source)
    ensures Says(AddedSource(policy, directive, source, fallback), name, Standard)
         == if name == directive && EditIsRead(policy, directive, source, fallback)
            then After(Says(policy, directive), Says(policy, fallback), source)
            else Says(policy, name, Standard)
  {
    var parts := Split(policy);
    match Find(parts, directive)
    case Some(i) =>
      JoinOfSplit(policy);
      if source !in Fields(parts[i])[1..] { RewrittenForStandard(policy, i, directive, source, name); }
    case None =>
      match Find(parts, fallback) {
        case None =>
        case Some(j) =>
          PartsAreWords(policy, j);
          if TrimSpace(policy) == "" { BlankGivesNothing(policy, fallback); }
          AppendedForStandard(policy, directive, Fields(parts[j])[1..], source, name);
      }
  }

  // ---- When the reload client is let in

  /** Sources that let one in: those that hold it, or no restriction at all. */
  predicate Allows(sources: Option<seq<string>>, source: string) { sources.None? || source in sources.value }

  /** Connections back are let in exactly when the last edit is read, or they were before. */
  lemma ReloadMayConnect(policy: string, hash: string)
    requires IsWord(hash) && AllAscii(hash)
    ensures Allows(ConnectSources(Adjusted(policy, hash), Standard), SELF)
            <==> EditIsRead(ElementsAdjusted(policy, hash), CONNECT, SELF, DEFAULT)
                 || Allows(ConnectSources(policy, Standard), SELF)
  {
    ConstantsAreNames();
    SelfIsAscii();
    SaysForStandard(policy, hash, CONNECT);
    SaysForStandard(policy, hash, DEFAULT);
  }

  /** An edit that is read grants. */
  lemma ReadEditGrants(policy: string, directive: string, source: string, fallback: string)
    requires EditIsRead(policy, directive, source, fallback)
    ensures var after := After(Says(policy, directive), Says(policy, fallback), source);
            after.Some? && source in after.value
  {
  }

  /** What the standard reads of a directive in the adjusted policy. */
  lemma SaysForStandard(policy: string, hash: string, name: string)
    requires IsName(name) && IsWord(hash) && AllAscii(hash)
    ensures var scripts, elements := ScriptsAdjusted(policy, hash), ElementsAdjusted(policy, hash);
            Says(Adjusted(policy, hash), name, Standard) ==
              if name == SCRIPT && EditIsRead(policy, SCRIPT, hash, DEFAULT) then
                After(Says(policy, SCRIPT), Says(policy, DEFAULT), hash)
              else if name == SCRIPT_ELEM && EditIsRead(scripts, SCRIPT_ELEM, hash, SCRIPT) then
                After(Says(scripts, SCRIPT_ELEM), Says(scripts, SCRIPT), hash)
              else if name == CONNECT && EditIsRead(elements, CONNECT, SELF, DEFAULT) then
                After(Says(elements, CONNECT), Says(elements, DEFAULT), SELF)
              else Says(policy, name, Standard)
  {
    ConstantsAreNames();
    SelfIsAscii();
    StandardEffect(policy, SCRIPT, hash, DEFAULT, name);
    StandardEffect(ScriptsAdjusted(policy, hash), SCRIPT_ELEM, hash, SCRIPT, name);
    StandardEffect(ElementsAdjusted(policy, hash), CONNECT, SELF, DEFAULT, name);
  }

  lemma SelfIsAscii()
    ensures AllAscii(SELF) && IsPlain(SELF)
  {
  }

  // ---- Plain policies

  predicate ArePlain(parts: seq<string>) { forall k | 0 <= k < |parts| :: IsPlain(parts[k]) }

  lemma {:induction false} SplitIsPlain(s: string)
    requires IsPlain(s)
    ensures ArePlain(Split(s))
  {
    if s != "" {
      var t, c := s[..|s| - 1], s[|s| - 1];
      SplitIsPlain(t);
      if c == ';' { OneMorePlain(Split(t), ""); } else { LongerPlain(Split(t), c); }
    }
  }

  lemma OneMorePlain(ws: seq<string>, w: string)
    requires ArePlain(ws) && IsPlain(w)
    ensures ArePlain(ws + [w])
  {
  }

  lemma LongerPlain(ws: seq<string>, c: char)
    requires ArePlain(ws) && ws != [] && IsAscii(c) && c != VT
    ensures ArePlain(Extend(ws, [c]))
  {
    var n := |ws| - 1;
    assert IsPlain(ws[n]) && IsPlain(ws[n] + [c]);
    forall k | 0 <= k < |ws| ensures IsPlain(Extend(ws, [c])[k]) {
      assert k < n ==> IsPlain(ws[k]);
    }
  }

  lemma {:induction false} JoinIsPlain(parts: seq<string>)
    requires parts != [] && ArePlain(parts)
    ensures IsPlain(Join(parts))
  {
    var n := |parts| - 1;
    assert IsPlain(parts[n]);
    if n > 0 { JoinIsPlain(parts[..n]); }
  }

  lemma PlainNames(part: string, name: string)
    requires IsPlain(part) && IsName(name)
    ensures Names(part, name, Standard) <==> Names(part, name)
  {
    PlainFields(part);
    FieldsAreAscii(part, Code);
    if Names(part, name, Standard) { StandardNamesAreCode(part, name); }
    if Names(part, name) { AsciiNameIsStandard(Fields(part)[0], name); }
  }

  /** A plain policy says the same to the code and to the standard. */
  lemma PlainSaysTheSame(policy: string, name: string)
    requires IsPlain(policy) && IsName(name)
    ensures Says(policy, name, Standard) == Says(policy, name)
  {
    var parts := Split(policy);
    SplitIsPlain(policy);
    forall k ensures IsNamed(parts, k, name, Standard) <==> IsNamed(parts, k, name) {
      if 0 <= k < |parts| { PlainNames(parts[k], name); }
    }
    var i := Find(parts, name);
    if i.Some? {
      FindIs(parts, i.value, name, Standard);
      PlainFields(parts[i.value]);
    } else {
      NoneFoundIsNone(parts, name);
    }
  }

  lemma GrantedIsPlain(part: string, name: string, source: string)
    requires IsPart(part) && IsPlain(part) && IsWord(name) && AllAscii(name) && IsWord(source) && AllAscii(source)
    requires Fields(part) != []
    ensures IsPlain(Granted(name, Fields(part)[1..], source))
    ensures IsPlain(Granted(Fields(part)[0], Fields(part)[1..], source))
  {
    var words := Fields(part);
    FieldsAreWords(part);
    FieldsAreAscii(part, Code);
    assert words == [words[0]] + words[1..];
    WordsSplit(words[0], words[1..]);
    GrantedIsRead(name, words[1..], source);
    GrantedIsRead(words[0], words[1..], source);
  }

  lemma RewrittenIsPlain(parts: seq<string>, i: nat, part: string)
    requires ArePlain(parts) && i < |parts| && IsPlain(part)
    ensures IsPlain(Join(parts[i := part]))
  {
    JoinIsPlain(parts[i := part]);
  }

  lemma AppendedIsPlain(policy: string, addition: string)
    requires IsPlain(policy) && IsPlain(addition)
    ensures IsPlain(Appended(policy, addition))
  {
    assert IsPlain(" ") && IsPlain("; ");
  }

  lemma AddedSourceIsPlain(policy: string, directive: string, source: string, fallback: string)
    requires IsPlain(policy) && IsName(directive) && IsWord(source) && AllAscii(source)
    ensures IsPlain(AddedSource(policy, directive, source, fallback))
  {
    var parts := Split(policy);
    SplitIsPlain(policy);
    SplitGivesParts(policy);
    NameIsItself(directive);
    NameIsAscii(directive);
    match Find(parts, directive)
    case Some(i) =>
      assert IsNamed(parts, i, directive);
      var words := Fields(parts[i]);
      GrantedIsPlain(parts[i], directive, source);
      JoinOfSplit(policy);
      RewrittenIsPlain(parts, i, Granted(words[0], words[1..], source));
    case None =>
      match Find(parts, fallback) {
        case None =>
        case Some(j) =>
          assert IsNamed(parts, j, fallback);
          GrantedIsPlain(parts[j], directive, source);
          AppendedIsPlain(policy, Granted(directive, Fields(parts[j])[1..], source));
      }
  }

  /** For a plain policy the adjustment does to the lists, as the standard reads them, all that was promised. */
  lemma PlainAdjustedEffect(policy: string, hash: string)
    requires IsPlain(policy) && IsWord(hash) && AllAscii(hash)
    ensures Grants(ScriptSources(policy, Standard), ScriptSources(Adjusted(policy, hash), Standard), hash)
    ensures Grants(ConnectSources(policy, Standard), ConnectSources(Adjusted(policy, hash), Standard), SELF)
  {
    ConstantsAreNames();
    SelfIsAscii();
    AddedSourceIsPlain(policy, SCRIPT, hash, DEFAULT);
    AddedSourceIsPlain(ScriptsAdjusted(policy, hash), SCRIPT_ELEM, hash, SCRIPT);
    AddedSourceIsPlain(ElementsAdjusted(policy, hash), CONNECT, SELF, DEFAULT);
    AdjustedEffect(policy, hash, DEFAULT);
    forall name | name in {SCRIPT, SCRIPT_ELEM, CONNECT, DEFAULT}
      ensures Says(policy, name, Standard) == Says(policy, name)
      ensures Says(Adjusted(policy, hash), name, Standard) == Says(Adjusted(policy, hash), name)
    {
      PlainSaysTheSame(policy, name);
      PlainSaysTheSame(Adjusted(policy, hash), name);
    }
  }

  /** Plain or not, no directive but the three changes for the standard. */
  lemma OthersStay(policy: string, hash: string, other: string)
    requires IsWord(hash) && AllAscii(hash) && IsName(other)
    requires other != SCRIPT && other != SCRIPT_ELEM && other != CONNECT
    ensures Says(Adjusted(policy, hash), other, Standard) == Says(policy, other, Standard)
  {
    SaysForStandard(policy, hash, other);
  }

  // ---- When nothing else is let in

  /** Nothing is let in after an edit but the source and what was let in before. */
  predicate NothingElse(before: Option<seq<string>>, after: Option<seq<string>>, source: string) {
    before.None? || (after.Some? && forall w :: w in after.value ==> w == source || w in before.value)
  }

  /** What the code carries over from the sources that it read, a browser had read too. */
  predicate AreKnown(carried: Option<seq<string>>, before: Option<seq<string>>, source: string) {
    && carried.Some? && before.Some?
    && forall w :: w in carried.value && !EqualFold(w, NONE) ==> w == source || w in before.value
  }

  /** The comment's promise, exactly: to a browser nothing else is let in unless the edit is read and carries over a
      source that the browser had not read there. */
  lemma NothingElseExactly(policy: string, directive: string, source: string, fallback: string)
    requires IsName(directive) && IsName(fallback) && directive != fallback && IsWord(source) && AllAscii(source)
    ensures var before := Governing(policy, directive, fallback, Standard);
            NothingElse(before, Governing(AddedSource(policy, directive, source, fallback), directive, fallback, Standard), source)
            <==> before.None? || !EditIsRead(policy, directive, source, fallback)
                 || AreKnown(Governing(policy, directive, fallback), before, source)
  {
    StandardEffect(policy, directive, source, fallback, directive);
    StandardEffect(policy, directive, source, fallback, fallback);
    if EditIsRead(policy, directive, source, fallback) {
      EditedSources(policy, directive, source, fallback);
      CarriesKnown(Governing(policy, directive, fallback, Standard), Governing(policy, directive, fallback).value, source);
    }
  }

  lemma CarriesKnown(before: Option<seq<string>>, carried: seq<string>, source: string)
    ensures NothingElse(before, Some(Without(carried, NONE) + [source]), source)
            <==> before.None? || AreKnown(Some(carried), before, source)
  {
  }

  lemma EditedSources(policy: string, directive: string, source: string, fallback: string)
    requires EditIsRead(policy, directive, source, fallback)
    ensures var own, other := Says(policy, directive), Says(policy, fallback);
            Or(own, other).Some? && After(own, other, source) == Some(Without(Or(own, other).value, NONE) + [source])
  {
  }

  /** The part that the code takes for a directive is plain, or there is none. */
  predicate IsPlainAt(policy: string, name: string) {
    match Find(Split(policy), name)
    case None => true
    case Some(i) => IsPlain(Split(policy)[i])
  }

  /** And the part from which an edit takes the sources. */
  predicate TakesPlain(policy: string, directive: string, fallback: string) {
    IsPlainAt(policy, if Find(Split(policy), directive).Some? then directive else fallback)
  }

  /** What the code finds in a plain part, a browser finds there too. */
  lemma PlainPartSays(policy: string, name: string)
    requires IsName(name) && IsPlainAt(policy, name)
    ensures Says(policy, name, Standard) == Says(policy, name)
  {
    var parts := Split(policy);
    match Find(parts, name)
    case None => NoneFoundIsNone(parts, name);
    case Some(i) =>
      assert IsNamed(parts, i, name);
      PlainNames(parts[i], name);
      PlainFields(parts[i]);
      NoneEarlier(parts, i, name);
      FindIs(parts, i, name, Standard);
  }

  /** In particular nothing else is let in when that part is plain, whatever the others hold. */
  lemma PlainPartLetsNothingElseIn(policy: string, directive: string, source: string, fallback: string)
    requires IsName(directive) && IsName(fallback) && directive != fallback && IsWord(source) && AllAscii(source)
    requires TakesPlain(policy, directive, fallback)
    ensures NothingElse(Governing(policy, directive, fallback, Standard),
                        Governing(AddedSource(policy, directive, source, fallback), directive, fallback, Standard), source)
  {
    NothingElseExactly(policy, directive, source, fallback);
    var parts := Split(policy);
    if Find(parts, directive).Some? {
      PlainPartSays(policy, directive);
    } else {
      NoneFoundIsNone(parts, directive);
      PlainPartSays(policy, fallback);
    }
  }

  // ---- Policies that are not plain

  /** A policy of two directives. */
  function Pair(first: string, second: string): string { Join([first, " " + second]) }

  lemma PairSays(first: string, second: string, name: string, reading: Reading)
    requires IsPart(first) && IsPart(second)
    ensures Says(Pair(first, second), name, reading)
         == if Names(first, name, reading) then Some(Read(first, reading)[1..])
            else if Names(" " + second, name, reading) then Some(Read(" " + second, reading)[1..])
            else None
  {
    var parts := [first, " " + second];
    SplitOfJoin(parts);
    if Names(first, name, reading) {
      FindIs(parts, 0, name, reading);
    } else if Names(parts[1], name, reading) {
      FindIs(parts, 1, name, reading);
    }
  }

  /** How a directive with one source is read, at the start of a policy and after a space. */
  lemma DirectiveReads(name: string, source: string)
    requires IsWord(name) && IsWord(source)
    ensures var s := Words(name, [source]);
            && IsPart(s) && Fields(s) == [name, source] && Fields(" " + s) == [name, source]
            && (AllAscii(name) && AllAscii(source) ==> IsPlain(s))
  {
    var s := Words(name, [source]);
    BlankHasNoFields("");
    BlankHasNoFields(" ");
    FieldsOfWords("", name, [source]);
    FieldsOfWords(" ", name, [source]);
    assert "" + s == s && [] + ([name] + [source]) == [name, source];
    WordsArePart(name, [source]);
    if AllAscii(name) && AllAscii(source) { WordsArePlain(name, [source]); }
  }

  lemma PlainDirective(name: string, w: string, n: string)
    requires IsName(name) && IsName(n) && IsWord(w) && AllAscii(w)
    ensures var part := Words(name, [w]);
            && IsPart(part) && (Names(part, n) <==> n == name) && (Names(part, n, Standard) <==> n == name)
            && Read(part, Standard) == [name, w]
  {
    var part := Words(name, [w]);
    NameIsItself(name);
    NameIsAscii(name);
    DirectiveReads(name, w);
    PlainFields(part);
    PlainNames(part, n);
    if EqualFold(name, n) { NamesDiffer(name, name, n); }
  }

  lemma MisspelledReads(long: string, name: string, v: string)
    requires IsWord(long) && EqualFold(long, name) && !AllAscii(long) && IsWord(v)
    ensures var part := " " + Words(long, [v]);
            && IsPart(Words(long, [v])) && Names(part, name) && Read(part) == [long, v] && Read(part, Standard) == []
  {
    var part := " " + Words(long, [v]);
    DirectiveReads(long, v);
    if AllAscii(part) { FieldsAreAscii(part, Code); }
  }

  /** A policy whose second directive is spelled so that only the code takes it for `name`. */
  lemma MisspelledSays(other: string, w: string, long: string, name: string, v: string)
    requires IsName(other) && IsName(name) && other != name && IsWord(long) && EqualFold(long, name) && !AllAscii(long)
    requires IsWord(w) && AllAscii(w) && IsWord(v)
    ensures var policy := Pair(Words(other, [w]), Words(long, [v]));
            && Says(policy, name) == Some([v])
            && Says(policy, name, Standard) == None && Says(policy, other, Standard) == Some([w])
  {
    var first, second := Words(other, [w]), Words(long, [v]);
    PlainDirective(other, w, name);
    PlainDirective(other, w, other);
    MisspelledReads(long, name, v);
    PairSays(first, second, name, Code);
    PairSays(first, second, name, Standard);
    PairSays(first, second, other, Standard);
  }

  /** connect-src with a long s, which folds to an s. */
  const LONG_CONNECT := CONNECT[8 := '\U{17F}']

  lemma LongConnectFolds()
    ensures IsWord(LONG_CONNECT) && EqualFold(LONG_CONNECT, CONNECT) && !AllAscii(LONG_CONNECT)
  {
    ConstantsAreNames();
    assert CONNECT[8] == 's' && LONG_CONNECT[8] == '\U{17F}';
  }

  lemma NoneIsWord()
    ensures IsWord(NONE) && AllAscii(NONE) && NONE != SELF
  {
    assert NONE[1] == 'n' && SELF[1] == 's';
  }

  /** default-src 'none' and then connect-src 'self' in that spelling. */
  function LongPolicy(): string { Pair(Words(DEFAULT, [NONE]), Words(LONG_CONNECT, [SELF])) }

  /** An edit that finds its source already does nothing. */
  lemma NothingToAdd(policy: string, directive: string, source: string, fallback: string)
    requires Says(policy, directive) == Some([source])
    ensures !EditIsRead(policy, directive, source, fallback)
  {
    assert [source][0] == source;
  }

  /** The code takes the second directive for connect-src, finds 'self' there and leaves it; a browser ignores it, and
      the reload connection stays blocked. */
  lemma LongSBlocksReload(hash: string)
    requires IsWord(hash) && AllAscii(hash)
    ensures ConnectSources(LongPolicy(), Standard) == Some([NONE])
    ensures !Allows(ConnectSources(Adjusted(LongPolicy(), hash), Standard), SELF)
  {
    var policy := LongPolicy();
    ConstantsAreNames();
    NoneIsWord();
    LongConnectFolds();
    MisspelledSays(DEFAULT, NONE, LONG_CONNECT, CONNECT, SELF);
    AddedSourceEffect(policy, SCRIPT, hash, DEFAULT, CONNECT);
    AddedSourceEffect(ScriptsAdjusted(policy, hash), SCRIPT_ELEM, hash, SCRIPT, CONNECT);
    NothingToAdd(ElementsAdjusted(policy, hash), CONNECT, SELF, DEFAULT);
    ReloadMayConnect(policy, hash);
  }

  /** Two words with a character between that is white space to the code. */
  function Spaced(first: string, gap: char, second: string): string { first + [gap] + second }

  lemma SpacedReads(first: string, gap: char, second: string)
    requires IsWord(first) && IsWord(second) && IsSpace(gap)
    ensures Fields(Spaced(first, gap, second)) == [first, second]
  {
    BlankHasNoFields("");
    WordIsAppended("", first);
    assert "" + first == first && [] + [first] == [first];
    FieldsOne(first, gap);
    WordIsAppended(first + [gap], second);
  }

  lemma SpacedIsPart(first: string, gap: char, second: string)
    requires IsWord(first) && IsWord(second) && IsSpace(gap)
    ensures IsPart(Spaced(first, gap, second)) && (!IsAscii(gap) ==> !AllAscii(Spaced(first, gap, second)))
  {
    assert Spaced(first, gap, second)[|first|] == gap;
  }

  lemma {:induction false} SolidIsOneWord(w: string)
    requires w != "" && forall i | 0 <= i < |w| :: !IsGap(w[i], Standard)
    ensures Fields(w, Standard) == [w]
  {
    var v, c := w[..|w| - 1], w[|w| - 1];
    assert v + [c] == w;
    FieldsOne(v, c, Standard);
    if v != "" { SolidIsOneWord(v); }
  }

  /** ASCII alone is not enough for the readings to agree: the vertical tab parts two words for the code, and is a
      character of one word for the standard. */
  lemma VerticalTabParts(first: string, second: string)
    requires IsWord(first) && IsWord(second) && AllAscii(first) && AllAscii(second)
    ensures var part := Spaced(first, VT, second);
            AllAscii(part) && Read(part) == [first, second] && Read(part, Standard) == [part]
  {
    SpacedReads(first, VT, second);
    SolidIsOneWord(Spaced(first, VT, second));
  }

  /** A policy that names a directive twice, the first time with a space that only the code takes for one. */
  lemma SpacedSays(name: string, gap: char, w: string, v: string, source: string, fallback: string)
    requires IsName(name) && IsSpace(gap) && !IsAscii(gap) && IsWord(w) && IsWord(v) && AllAscii(w) && AllAscii(v)
    ensures var policy := Pair(Spaced(name, gap, w), Words(name, [v]));
            && Says(policy, name) == Some([w]) && Says(policy, name, Standard) == Some([v])
            && (w != source ==> EditIsRead(policy, name, source, fallback))
  {
    var first, second := Spaced(name, gap, w), Words(name, [v]);
    NameIsItself(name);
    NameIsAscii(name);
    SpacedReads(name, gap, w);
    SpacedIsPart(name, gap, w);
    DirectiveReads(name, v);
    PlainFields(" " + second);
    PlainNames(" " + second, name);
    PairSays(first, second, name, Code);
    PairSays(first, second, name, Standard);
    FirstOfPair(first, second, name);
  }

  lemma FirstOfPair(first: string, second: string, name: string)
    requires IsPart(first) && IsPart(second) && Names(first, name)
    ensures Find(Split(Pair(first, second)), name) == Some(0) && Split(Pair(first, second))[0] == first
  {
    var parts := [first, " " + second];
    SplitOfJoin(parts);
    FindIs(parts, 0, name);
  }

  const ANY := "*"

  lemma AnyIsWord()
    ensures IsWord(ANY) && AllAscii(ANY) && ANY != SELF && !EqualFold(ANY, NONE)
  {
    assert |ANY| == 1 && |SELF| == 6 && |NONE| == 6;
  }

  /** connect-src * with a no-break space between, and then connect-src 'none'. */
  function SpacedPolicy(): string { Pair(Spaced(CONNECT, '\U{A0}', ANY), Words(CONNECT, [NONE])) }

  /** A directive that browsers ignore comes to life: before the edit nothing may be connected to, and after it
      everything. */
  lemma NoBreakSpaceLetsAllIn()
    ensures ConnectSources(SpacedPolicy(), Standard) == Some([NONE])
    ensures ConnectSources(AddedSource(SpacedPolicy(), CONNECT, SELF, DEFAULT), Standard) == Some([ANY, SELF])
  {
    ConstantsAreNames();
    SelfIsAscii();
    NoneIsWord();
    AnyIsWord();
    SpacedSays(CONNECT, '\U{A0}', ANY, NONE, SELF, DEFAULT);
    StandardEffect(SpacedPolicy(), CONNECT, SELF, DEFAULT, CONNECT);
    OneSourceAfter(ANY, Says(SpacedPolicy(), DEFAULT), SELF);
  }

  lemma OneSourceAfter(w: string, fallback: Option<seq<string>>, source: string)
    requires !EqualFold(w, NONE) && w != source
    ensures After(Some([w]), fallback, source) == Some([w, source])
  {
    assert [w][..0] == [] && [w][0] == w;
    assert Without([w], NONE) == [] + [w];
    assert ([] + [w]) + [source] == [w, source];
  }
}
