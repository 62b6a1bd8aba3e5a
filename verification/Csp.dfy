/** The development proxy's edit of a Content Security Policy: one source is granted to one directive. */
module Csp {
  import opened Text

  // ---- Lists of directives

  /** The last string of a list, made longer. */
  function Extend(ws: seq<string>, w: string): (r: seq<string>)
    requires ws != []
    ensures |r| == |ws|
  {
    ws[..|ws| - 1] + [ws[|ws| - 1] + w]
  }

  lemma ExtendTwice(ws: seq<string>, v: string, w: string)
    requires ws != []
    ensures Extend(Extend(ws, v), w) == Extend(ws, v + w) && Extend(ws, "") == ws
    ensures Extend(ws + [v], w) == ws + [v + w]
  {
    var last := ws[|ws| - 1];
    assert (last + v) + w == last + (v + w) && last + "" == last;
  }

  /** strings.Split(s, ";") */
  function Split(s: string): (parts: seq<string>)
    ensures parts != []
  {
    if s == "" then [""]
    else
      var c := s[|s| - 1];
      if c == ';' then Split(s[..|s| - 1]) + [""] else Extend(Split(s[..|s| - 1]), [c])
  }

  lemma SplitOne(s: string, c: char)
    ensures Split(s + [c]) == if c == ';' then Split(s) + [""] else Extend(Split(s), [c])
  {
    assert (s + [c])[..|s|] == s;
  }

  /** strings.Join(parts, ";") */
  function Join(parts: seq<string>): string
    requires parts != []
  {
    if |parts| == 1 then parts[0] else Join(parts[..|parts| - 1]) + ";" + parts[|parts| - 1]
  }

  lemma JoinOne(parts: seq<string>, w: string)
    requires parts != []
    ensures Join(parts + [w]) == Join(parts) + ";" + w
  {
    assert (parts + [w])[..|parts|] == parts;
  }

  lemma JoinExtend(parts: seq<string>, w: string)
    requires parts != []
    ensures Join(Extend(parts, w)) == Join(parts) + w
  {
    var n := |parts| - 1;
    assert Extend(parts, w)[..n] == parts[..n];
    assert n > 0 ==> Join(parts[..n]) + ";" + (parts[n] + w) == (Join(parts[..n]) + ";" + parts[n]) + w;
  }

  predicate IsPart(s: string) { forall i | 0 <= i < |s| :: s[i] != ';' }

  predicate AreParts(parts: seq<string>) { parts != [] && forall k | 0 <= k < |parts| :: IsPart(parts[k]) }

  lemma {:induction false} SplitGivesParts(s: string)
    ensures AreParts(Split(s))
  {
    if s != "" { SplitGivesParts(s[..|s| - 1]); }
  }

  lemma {:induction false} JoinOfSplit(s: string)
    ensures Join(Split(s)) == s
  {
    if s != "" {
      var t, c := s[..|s| - 1], s[|s| - 1];
      JoinOfSplit(t);
      assert s == t + [c];
      JoinOne(Split(t), "");
      JoinExtend(Split(t), [c]);
      assert t + ";" + "" == t + [';'];
    }
  }

  lemma {:induction false} SplitExtends(s: string, w: string)
    requires IsPart(w)
    ensures Split(s + w) == Extend(Split(s), w)
  {
    if w == "" {
      assert s + w == s;
      ExtendTwice(Split(s), "", "");
    } else {
      var v, c := w[..|w| - 1], w[|w| - 1];
      SplitExtends(s, v);
      assert (s + v) + [c] == s + w && v + [c] == w;
      SplitOne(s + v, c);
      ExtendTwice(Split(s), v, [c]);
    }
  }

  lemma SplitAppends(s: string, w: string)
    requires IsPart(w)
    ensures Split(s + ";" + w) == Split(s) + [w]
  {
    SplitOne(s, ';');
    assert s + ";" == s + [';'];
    SplitExtends(s + ";", w);
    ExtendTwice(Split(s), "", w);
    assert "" + w == w;
  }

  lemma {:induction false} SplitOfJoin(parts: seq<string>)
    requires AreParts(parts)
    ensures Split(Join(parts)) == parts
  {
    var n := |parts| - 1;
    if n == 0 {
      SplitExtends("", parts[0]);
      assert "" + parts[0] == parts[0];
    } else {
      SplitOfJoin(parts[..n]);
      JoinOne(parts[..n], parts[n]);
      SplitAppends(Join(parts[..n]), parts[n]);
      assert parts[..n] + [parts[n]] == parts;
    }
  }

  // ---- The words of a directive

  /** Who reads a policy: this code, or a browser by section 2.2.1 of Content Security Policy Level 3. */
  datatype Reading = Code | Standard

  /** What parts words: white space to Unicode for the code, ASCII white space for the standard. */
  predicate IsGap(c: char, reading: Reading := Code) {
    match reading
    case Code => IsSpace(c)
    case Standard => c == '\t' || c == '\n' || c == '\U{C}' || c == '\r' || c == ' '
  }

  /** strings.Fields, or splitting on ASCII white space. */
  function Fields(s: string, reading: Reading := Code): (words: seq<string>)
    ensures s != "" && !IsGap(s[|s| - 1], reading) ==> words != []
  {
    if s == "" then []
    else
      var t, c := s[..|s| - 1], s[|s| - 1];
      if IsGap(c, reading) then Fields(t, reading)
      else if EndsInGap(t, reading) then Fields(t, reading) + [[c]]
      else Extend(Fields(t, reading), [c])
  }

  predicate EndsInGap(s: string, reading: Reading := Code) { s == "" || IsGap(s[|s| - 1], reading) }

  lemma FieldsOne(s: string, c: char, reading: Reading := Code)
    ensures Fields(s + [c], reading)
         == if IsGap(c, reading) then Fields(s, reading)
            else if EndsInGap(s, reading) then Fields(s, reading) + [[c]]
            else Extend(Fields(s, reading), [c])
  {
    assert (s + [c])[..|s|] == s;
  }

  predicate IsWord(w: string) { w != "" && forall i | 0 <= i < |w| :: !IsSpace(w[i]) && w[i] != ';' }

  predicate AreWords(ws: seq<string>) { forall k | 0 <= k < |ws| :: IsWord(ws[k]) }

  lemma OneMoreWord(ws: seq<string>, w: string)
    requires AreWords(ws) && IsWord(w)
    ensures AreWords(ws + [w])
  {
  }

  lemma LongerWord(ws: seq<string>, c: char)
    requires AreWords(ws) && ws != [] && !IsSpace(c) && c != ';'
    ensures AreWords(Extend(ws, [c]))
  {
    var n := |ws| - 1;
    var last := ws[n] + [c];
    assert IsWord(ws[n]) && IsWord(last);
    forall k | 0 <= k < |ws| ensures IsWord(Extend(ws, [c])[k]) {
      assert k < n ==> IsWord(ws[k]);
    }
  }

  /** One more character of a part keeps its fields words. */
  lemma FieldsStayWords(s: string, c: char)
    requires AreWords(Fields(s)) && c != ';'
    ensures AreWords(Fields(s + [c]))
  {
    FieldsOne(s, c);
    if !IsSpace(c) {
      if EndsInGap(s) { OneMoreWord(Fields(s), [c]); } else { LongerWord(Fields(s), c); }
    }
  }

  lemma {:induction false} FieldsAreWords(s: string)
    requires IsPart(s)
    ensures AreWords(Fields(s))
  {
    if s != "" {
      var t, c := s[..|s| - 1], s[|s| - 1];
      FieldsAreWords(t);
      FieldsStayWords(t, c);
      assert s == t + [c];
    }
  }

  lemma {:induction false} WordIsAppended(s: string, w: string)
    requires EndsInGap(s) && IsWord(w)
    ensures Fields(s + w) == Fields(s) + [w]
  {
    var v, c := w[..|w| - 1], w[|w| - 1];
    assert (s + v) + [c] == s + w && v + [c] == w;
    FieldsOne(s + v, c);
    if v == "" {
      assert s + v == s;
    } else {
      WordIsAppended(s, v);
      assert (s + v)[|s + v| - 1] == v[|v| - 1];
      assert Extend(Fields(s) + [v], [c]) == Fields(s) + [v + [c]];
    }
  }

  /** A name and then its sources, each after a space. */
  function Words(name: string, sources: seq<string>): string {
    if sources == [] then name else Words(name, sources[..|sources| - 1]) + " " + sources[|sources| - 1]
  }

  lemma {:induction false} FieldsOfWords(lead: string, name: string, sources: seq<string>)
    requires IsWord(name) && AreWords(sources) && EndsInGap(lead)
    ensures Fields(lead + Words(name, sources)) == Fields(lead) + ([name] + sources)
  {
    if sources == [] {
      WordIsAppended(lead, name);
      assert [name] + sources == [name];
    } else {
      var n := |sources| - 1;
      FieldsOfWords(lead, name, sources[..n]);
      WordAfterSpace(lead + Words(name, sources[..n]), sources[n]);
      SpaceRegroups(lead, Words(name, sources[..n]), sources[n]);
      Regroup(Fields(lead), name, sources);
    }
  }

  lemma SpaceRegroups(lead: string, s: string, w: string)
    ensures (lead + s) + " " + w == lead + (s + " " + w)
  {
  }

  lemma WordAfterSpace(s: string, w: string)
    requires IsWord(w)
    ensures Fields(s + " " + w) == Fields(s) + [w]
  {
    FieldsOne(s, ' ');
    assert s + " " == s + [' '];
    WordIsAppended(s + " ", w);
  }

  lemma Regroup(a: seq<string>, name: string, sources: seq<string>)
    requires sources != []
    ensures var n := |sources| - 1; a + ([name] + sources[..n]) + [sources[n]] == a + ([name] + sources)
  {
    assert sources[..|sources| - 1] + [sources[|sources| - 1]] == sources;
  }

  lemma {:induction false} WordsArePart(name: string, sources: seq<string>)
    requires IsWord(name) && AreWords(sources)
    ensures IsPart(Words(name, sources))
  {
    if sources != [] { WordsArePart(name, sources[..|sources| - 1]); }
  }

  // ---- The edit

  /** withoutCSPNone: `word` is the keyword in lower case. */
  function Without(sources: seq<string>, word: string): (r: seq<string>)
    ensures forall w :: w in r <==> w in sources && !EqualFold(w, word)
  {
    if sources == [] then []
    else
      var last := sources[|sources| - 1];
      Without(sources[..|sources| - 1], word) + if EqualFold(last, word) then [] else [last]
  }

  const NONE := "'none'"

  predicate AllAscii(s: string) { forall i | 0 <= i < |s| :: IsAscii(s[i]) }

  /** The words of a part; the standard passes over a part that is not ASCII. */
  function Read(part: string, reading: Reading := Code): seq<string> {
    if reading == Standard && !AllAscii(part) then [] else Fields(part, reading)
  }

  /** A word is a directive's name: by Unicode folding for the code, without ASCII case for the standard. */
  predicate Means(word: string, name: string, reading: Reading := Code) {
    match reading
    case Code => EqualFold(word, name)
    case Standard => |word| == |name| && forall i | 0 <= i < |word| :: Lower(word[i]) == name[i]
  }

  predicate Names(part: string, name: string, reading: Reading := Code) {
    Read(part, reading) != [] && Means(Read(part, reading)[0], name, reading)
  }

  /** Part `k` is a directive of that name. */
  predicate IsNamed(parts: seq<string>, k: int, name: string, reading: Reading := Code) {
    0 <= k < |parts| && Names(parts[k], name, reading)
  }

  /** The first directive of that name from part `k` on. */
  function FindFrom(parts: seq<string>, k: nat, name: string, reading: Reading := Code): (i: Option<nat>)
    requires k <= |parts|
    ensures i.Some? ==> k <= i.value < |parts| && IsNamed(parts, i.value, name, reading)
    ensures forall j {:trigger IsNamed(parts, j, name, reading)}
              | k <= j < (if i.Some? then i.value else |parts|) :: !IsNamed(parts, j, name, reading)
    decreases |parts| - k
  {
    if k == |parts| then None
    else if IsNamed(parts, k, name, reading) then Some(k)
    else FindFrom(parts, k + 1, name, reading)
  }

  /** The first directive of that name: a later one is ignored. */
  function Find(parts: seq<string>, name: string, reading: Reading := Code): Option<nat> {
    FindFrom(parts, 0, name, reading)
  }

  /** The sources that a policy gives a directive. */
  function Sources(parts: seq<string>, name: string, reading: Reading := Code): Option<seq<string>> {
    match Find(parts, name, reading)
    case None => None
    case Some(i) => Some(Read(parts[i], reading)[1..])
  }

  /** The directive as it is written with the source granted. */
  function Granted(name: string, sources: seq<string>, source: string): string {
    Words(name, Without(sources, NONE) + [source])
  }

  /** A policy with another directive at its end. */
  function Appended(policy: string, addition: string): string {
    if TrimSpace(policy) == "" then addition
    else if EndsInSemicolon(policy) then policy + " " + addition
    else policy + "; " + addition
  }

  predicate EndsInSemicolon(policy: string) {
    TrimSpace(policy) != "" && TrimSpace(policy)[|TrimSpace(policy)| - 1] == ';'
  }

  /** What stands before an appended directive in its part. */
  function Lead(policy: string): string {
    if EndsInSemicolon(policy) then Split(policy)[|Split(policy)| - 1] + " " else " "
  }

  function AddedSource(policy: string, directive: string, source: string, fallback: string): string {
    var parts := Split(policy);
    match Find(parts, directive)
    case Some(i) =>
      var fields := Fields(parts[i]);
      if source in fields[1..] then Join(parts)
      else Join(parts[i := Granted(fields[0], fields[1..], source)])
    case None =>
      match Sources(parts, fallback)
      case None => policy
      case Some(sources) => Appended(policy, Granted(directive, sources, source))
  }

  method WithoutNone(sources: seq<string>) returns (result: seq<string>)
    ensures result == Without(sources, NONE)
  {
    result := [];
    for i := 0 to |sources|
      invariant result == Without(sources[..i], NONE)
    {
      assert sources[..i + 1][..i] == sources[..i];
      if !EqualFold(sources[i], NONE) {
        result := result + [sources[i]];
      }
    }
    assert sources[..|sources|] == sources;
  }

  /** addCSPSource */
  method AddCspSource(policy: string, directive: string, source: string, fallback: string) returns (r: string)
    ensures r == AddedSource(policy, directive, source, fallback)
  {
    var parts := Split(policy);
    var fallbackSources: seq<string>, fallbackSeen := [], false;
    for index := 0 to |parts|
      invariant Find(parts, directive) == FindFrom(parts, index, directive)
      invariant if fallbackSeen then Sources(parts, fallback) == Some(fallbackSources)
                else Find(parts, fallback) == FindFrom(parts, index, fallback)
    {
      var fields := Fields(parts[index]);
      if |fields| == 0 {
        continue;
      }
      if !fallbackSeen && EqualFold(fields[0], fallback) {
        fallbackSeen, fallbackSources := true, fields[1..];
      }
      if !EqualFold(fields[0], directive) {
        continue;
      }
      if source in fields[1..] {
        return Join(parts);
      }
      var currentSources := WithoutNone(fields[1..]);
      parts := parts[index := Words(fields[0], currentSources + [source])];
      return Join(parts);
    }
    if !fallbackSeen {
      return policy;
    }
    var retained := WithoutNone(fallbackSources);
    var addition := Words(directive, retained + [source]);
    return Appended(policy, addition);
  }

  // ---- Its effect

  /** The name of a directive, as the code spells it. */
  predicate IsName(name: string) { name != "" && forall i | 0 <= i < |name| :: 'a' <= name[i] <= 'z' || name[i] == '-' }

  /** What the edit makes of a directive's sources: the source is added, and 'none' leaves, unless the source is there
      already; a directive that is missing begins as its fallback; and when both are missing, so it stays. */
  function After(own: Option<seq<string>>, fallback: Option<seq<string>>, source: string): Option<seq<string>> {
    match own
    case Some(sources) => if source in sources then own else Some(Without(sources, NONE) + [source])
    case None => match fallback
      case Some(sources) => Some(Without(sources, NONE) + [source])
      case None => None
  }

  lemma {:induction false} WithoutWords(sources: seq<string>)
    requires AreWords(sources)
    ensures AreWords(Without(sources, NONE))
  {
    if sources != [] { WithoutWords(sources[..|sources| - 1]); }
  }

  lemma GrantedFields(lead: string, name: string, sources: seq<string>, source: string)
    requires IsWord(name) && AreWords(sources) && IsWord(source) && EndsInGap(lead) && Fields(lead) == []
    ensures Fields(lead + Granted(name, sources, source)) == [name] + (Without(sources, NONE) + [source])
    ensures IsPart(Granted(name, sources, source))
  {
    WithoutWords(sources);
    var all := Without(sources, NONE) + [source];
    FieldsOfWords(lead, name, all);
    WordsArePart(name, all);
    assert [] + ([name] + all) == [name] + all;
  }

  lemma {:induction false} BlankHasNoFields(s: string)
    requires forall c | c in s :: IsSpace(c)
    ensures Fields(s) == [] && EndsInGap(s)
  {
    if s != "" {
      assert s[|s| - 1] in s;
      BlankHasNoFields(s[..|s| - 1]);
    }
  }

  /** One name only: two directives are never both meant by a word. */
  lemma NamesDiffer(w: string, a: string, b: string)
    requires EqualFold(w, a) && EqualFold(w, b)
    ensures a == b
  {
  }

  /** None of the first `n` parts is a directive of that name. */
  predicate NoneBefore(parts: seq<string>, n: nat, name: string, reading: Reading := Code) {
    forall k {:trigger IsNamed(parts, k, name, reading)} | 0 <= k < n :: !IsNamed(parts, k, name, reading)
  }

  lemma FindIs(parts: seq<string>, i: nat, name: string, reading: Reading := Code)
    requires IsNamed(parts, i, name, reading) && NoneBefore(parts, i, name, reading)
    ensures Find(parts, name, reading) == Some(i)
  {
    var j := Find(parts, name, reading);
    assert j.Some? ==> IsNamed(parts, j.value, name, reading);
  }

  /** A part is replaced, by the first directive of some name, or where neither the old nor the new one has it. */
  lemma ReplacedPart(parts: seq<string>, i: nat, part: string, name: string, reading: Reading := Code)
    requires i < |parts|
    requires if Names(part, name, reading) then NoneBefore(parts, i, name, reading) else !Names(parts[i], name, reading)
    ensures Sources(parts[i := part], name, reading)
         == if Names(part, name, reading) then Some(Read(part, reading)[1..]) else Sources(parts, name, reading)
  {
    var next, j := parts[i := part], Find(parts, name, reading);
    forall k | k != i ensures IsNamed(next, k, name, reading) <==> IsNamed(parts, k, name, reading) {
      if 0 <= k < |parts| { assert next[k] == parts[k]; }
    }
    if Names(part, name, reading) {
      FindIs(next, i, name, reading);
    } else {
      assert !IsNamed(next, i, name, reading) && !IsNamed(parts, i, name, reading);
      if j.Some? { FindIs(next, j.value, name, reading); }
    }
  }

  /** Rewriting one directive's sources leaves every other directive alone. */
  lemma RewriteEffect(parts: seq<string>, i: nat, part: string, directive: string, name: string)
    requires i < |parts| && Names(parts[i], directive) && Find(parts, directive) == Some(i)
    requires Fields(part) != [] && Fields(part)[0] == Fields(parts[i])[0]
    ensures name == directive ==> Sources(parts[i := part], name) == Some(Fields(part)[1..])
    ensures name != directive ==> Sources(parts[i := part], name) == Sources(parts, name)
  {
    if Names(parts[i], name) { NamesDiffer(Fields(parts[i])[0], directive, name); }
    ReplacedPart(parts, i, part, name);
  }

  lemma AppendEffect(parts: seq<string>, part: string, name: string, reading: Reading := Code)
    ensures Sources(parts + [part], name, reading) ==
      if Sources(parts, name, reading).Some? then Sources(parts, name, reading)
      else if Names(part, name, reading) then Some(Read(part, reading)[1..])
      else None
  {
    var longer := parts + [part];
    forall k ensures IsNamed(longer, k, name, reading)
                     <==> IsNamed(parts, k, name, reading) || (k == |parts| && Names(part, name, reading)) {
      if 0 <= k < |parts| { assert longer[k] == parts[k]; }
    }
    var i, j := Find(parts, name, reading), Find(longer, name, reading);
    assert i.Some? ==> IsNamed(longer, i.value, name, reading);
    assert j.Some? ==> IsNamed(longer, j.value, name, reading);
    assert IsNamed(longer, |parts|, name, reading) <==> Names(part, name, reading);
  }

  predicate IsBlank(s: string) { forall c | c in s :: IsSpace(c) }

  lemma AfterSemicolon(policy: string, q: string, right: string, addition: string)
    requires IsPart(addition) && IsBlank(right) && policy == q + ";" + right
    ensures Split(policy + " " + addition) == Split(q) + [right + " " + addition]
    ensures IsBlankAfter(policy, Split(q), right)
  {
    BlankIsPart(right);
    SplitAppends(q, right);
    var w := right + " " + addition;
    assert policy + " " + addition == q + ";" + w;
    SplitAppends(q, w);
  }

  lemma NewPart(policy: string, addition: string)
    requires IsPart(addition)
    ensures Split(policy + "; " + addition) == Split(policy) + [" " + addition]
  {
    assert policy + "; " + addition == policy + ";" + (" " + addition);
    SplitAppends(policy, " " + addition);
  }

  lemma LastOfTrim(policy: string) returns (q: string, right: string)
    requires EndsInSemicolon(policy)
    ensures policy == q + ";" + right && IsBlank(right)
  {
    var t := TrimSpace(policy);
    var left;
    left, right := TrimSplits(policy, Space);
    q := left + t[..|t| - 1];
    SemicolonRegroups(left, t, right);
  }

  lemma SemicolonRegroups(left: string, t: string, right: string)
    requires t != "" && t[|t| - 1] == ';'
    ensures left + (t + right) == left + t[..|t| - 1] + ";" + right
  {
    assert t == t[..|t| - 1] + ";";
  }

  /** Where an appended directive ends up: in a part of its own, after all the others. */
  lemma AppendedParts(policy: string, addition: string) returns (kept: seq<string>)
    requires IsPart(addition) && TrimSpace(policy) != ""
    ensures Split(Appended(policy, addition)) == kept + [Lead(policy) + addition]
    ensures Fields(Lead(policy)) == [] && EndsInGap(Lead(policy))
    ensures Split(policy) == kept || exists blank :: IsBlankAfter(policy, kept, blank)
  {
    if EndsInSemicolon(policy) {
      var q, right := LastOfTrim(policy);
      kept := Split(q);
      AfterSemicolon(policy, q, right, addition);
    } else {
      kept := Split(policy);
      NewPart(policy, addition);
    }
    BlankHasNoFields(Lead(policy));
  }

  predicate IsBlankAfter(policy: string, kept: seq<string>, blank: string) {
    Split(policy) == kept + [blank] && Fields(blank) == []
  }

  lemma BlankIsPart(s: string)
    requires forall c | c in s :: IsSpace(c)
    ensures IsPart(s) && Fields(s) == []
  {
    forall i | 0 <= i < |s| ensures s[i] != ';' {
      assert s[i] in s;
    }
    BlankHasNoFields(s);
  }

  lemma {:induction false} BlankIsTrimmedAway(s: string)
    requires TrimSpace(s) == ""
    ensures IsBlank(s)
  {
    var left, right := TrimSplits(s, Space);
    assert s == left + right;
  }

  /** A blank policy gives no directive any sources. */
  lemma BlankGivesNothing(policy: string, name: string)
    requires TrimSpace(policy) == ""
    ensures Sources(Split(policy), name) == None
  {
    BlankIsTrimmedAway(policy);
    BlankIsPart(policy);
    SplitExtends("", policy);
    assert "" + policy == policy;
    assert Split(policy) == [policy];
  }

  lemma KeptSources(policy: string, kept: seq<string>, name: string)
    requires Split(policy) == kept || exists blank :: IsBlankAfter(policy, kept, blank)
    ensures Sources(kept, name) == Sources(Split(policy), name)
  {
    if Split(policy) != kept {
      var blank :| IsBlankAfter(policy, kept, blank);
      AppendEffect(kept, blank, name);
    }
  }

  lemma NameIsItself(name: string)
    requires IsName(name)
    ensures IsWord(name) && EqualFold(name, name)
  {
  }

  /** The part that grants means its directive only. */
  lemma GrantedNames(lead: string, directive: string, sources: seq<string>, source: string, name: string)
    requires IsName(directive) && IsWord(source) && AreWords(sources) && EndsInGap(lead) && Fields(lead) == []
    ensures var part := lead + Granted(directive, sources, source);
            (Names(part, name) <==> name == directive) && Read(part) != []
            && Read(part)[1..] == Without(sources, NONE) + [source]
    ensures IsPart(Granted(directive, sources, source))
  {
    NameIsItself(directive);
    GrantedFields(lead, directive, sources, source);
    if EqualFold(directive, name) { NamesDiffer(directive, directive, name); }
  }

  /** Granting through a fallback. */
  lemma AppendedEffect(policy: string, directive: string, sources: seq<string>, source: string, name: string)
    requires IsName(directive) && IsWord(source) && AreWords(sources)
    requires TrimSpace(policy) != "" && Sources(Split(policy), directive) == None
    ensures var after := Sources(Split(Appended(policy, Granted(directive, sources, source))), name);
            after == if name == directive then Some(Without(sources, NONE) + [source]) else Sources(Split(policy), name)
  {
    var addition := Granted(directive, sources, source);
    BlankHasNoFields("");
    GrantedNames("", directive, sources, source, name);
    var kept := AppendedParts(policy, addition);
    GrantedNames(Lead(policy), directive, sources, source, name);
    KeptSources(policy, kept, name);
    AppendEffect(kept, Lead(policy) + addition, name);
  }

  lemma PartsAreWords(policy: string, i: nat)
    requires i < |Split(policy)|
    ensures AreWords(Fields(Split(policy)[i]))
  {
    SplitGivesParts(policy);
    FieldsAreWords(Split(policy)[i]);
  }

  /** Granting in place. */
  lemma RewrittenEffect(policy: string, i: nat, directive: string, source: string, name: string)
    requires IsName(directive) && IsWord(source) && Find(Split(policy), directive) == Some(i)
    ensures var parts := Split(policy);
            var own := Fields(parts[i])[1..];
            var after := Sources(Split(Join(parts[i := Granted(Fields(parts[i])[0], own, source)])), name);
            after == if name == directive then Some(Without(own, NONE) + [source]) else Sources(parts, name)
  {
    var parts := Split(policy);
    var head, own := Fields(parts[i])[0], Fields(parts[i])[1..];
    var part := Granted(head, own, source);
    SplitGivesParts(policy);
    PartsAreWords(policy, i);
    GrantedFields("", head, own, source);
    assert "" + part == part;
    SplitOfJoin(parts[i := part]);
    RewriteEffect(parts, i, part, directive, name);
  }

  /** The edit does to the named directive exactly what it should, and to every other directive nothing. */
  lemma AddedSourceEffect(policy: string, directive: string, source: string, fallback: string, name: string)
    requires IsName(directive) && IsWord(source)
    ensures var before, after := Split(policy), Split(AddedSource(policy, directive, source, fallback));
            Sources(after, name) ==
              if name == directive then After(Sources(before, directive), Sources(before, fallback), source)
              else Sources(before, name)
  {
    var parts := Split(policy);
    match Find(parts, directive)
    case Some(i) =>
      JoinOfSplit(policy);
      if source !in Fields(parts[i])[1..] { RewrittenEffect(policy, i, directive, source, name); }
    case None =>
      match Find(parts, fallback) {
        case None =>
        case Some(j) =>
          PartsAreWords(policy, j);
          if TrimSpace(policy) == "" { BlankGivesNothing(policy, fallback); }
          AppendedEffect(policy, directive, Fields(parts[j])[1..], source, name);
      }
  }

  /** Editing twice is editing once, to the letter. */
  lemma AddedSourceIsIdempotent(policy: string, directive: string, source: string, fallback: string)
    requires IsName(directive) && IsWord(source)
    ensures var once := AddedSource(policy, directive, source, fallback);
            AddedSource(once, directive, source, fallback) == once
  {
    var once := AddedSource(policy, directive, source, fallback);
    AddedSourceEffect(policy, directive, source, fallback, directive);
    JoinOfSplit(once);
    JoinOfSplit(policy);
  }

  // ---- The page that the developer sees

  const SCRIPT := "script-src"
  const SCRIPT_ELEM := "script-src-elem"
  const CONNECT := "connect-src"
  const DEFAULT := "default-src"
  const SELF := "'self'"

  /** The hash of the reload client is granted to inline scripts, */
  function ScriptsAdjusted(policy: string, hash: string): string { AddedSource(policy, SCRIPT, hash, DEFAULT) }

  /** then to script elements, */
  function ElementsAdjusted(policy: string, hash: string): string {
    AddedSource(ScriptsAdjusted(policy, hash), SCRIPT_ELEM, hash, SCRIPT)
  }

  /** and then its connection back: adjustCSP on one policy. */
  function Adjusted(policy: string, hash: string): string {
    AddedSource(ElementsAdjusted(policy, hash), CONNECT, SELF, DEFAULT)
  }

  method AdjustOne(policy: string, hash: string) returns (adjusted: string)
    ensures adjusted == Adjusted(policy, hash)
  {
    adjusted := AddCspSource(policy, SCRIPT, hash, DEFAULT);
    adjusted := AddCspSource(adjusted, SCRIPT_ELEM, hash, SCRIPT);
    adjusted := AddCspSource(adjusted, CONNECT, SELF, DEFAULT);
  }

  /** adjustCSP on the values of one header. */
  method AdjustCsp(policies: seq<string>, hash: string) returns (adjusted: seq<string>)
    ensures |adjusted| == |policies| && forall k | 0 <= k < |policies| :: adjusted[k] == Adjusted(policies[k], hash)
  {
    adjusted := [];
    for k := 0 to |policies|
      invariant |adjusted| == k && forall j | 0 <= j < k :: adjusted[j] == Adjusted(policies[j], hash)
    {
      var policy := AdjustOne(policies[k], hash);
      adjusted := adjusted + [policy];
    }
  }

  function Or(own: Option<seq<string>>, fallback: Option<seq<string>>): Option<seq<string>> {
    if own.Some? then own else fallback
  }

  /** What a policy says of a directive. */
  function Says(policy: string, name: string, reading: Reading := Code): Option<seq<string>> {
    Sources(Split(policy), name, reading)
  }

  /** The sources that govern an inline script element (section 6.8.3 of Content Security Policy Level 3), or none when
      it is unrestricted. */
  function ScriptSources(policy: string, reading: Reading := Code): Option<seq<string>> {
    Or(Says(policy, SCRIPT_ELEM, reading), Or(Says(policy, SCRIPT, reading), Says(policy, DEFAULT, reading)))
  }

  /** What governs a directive: its own sources, or its fallback's. */
  function Governing(policy: string, directive: string, fallback: string, reading: Reading := Code): Option<seq<string>> {
    Or(Says(policy, directive, reading), Says(policy, fallback, reading))
  }

  /** The sources that govern a connection. */
  function ConnectSources(policy: string, reading: Reading := Code): Option<seq<string>> {
    Governing(policy, CONNECT, DEFAULT, reading)
  }

  /** The source is granted, and nothing else is: what was unrestricted stays so, and a list gains the source alone,
      losing only a 'none'. */
  predicate Grants(before: Option<seq<string>>, after: Option<seq<string>>, source: string) {
    match (before, after)
    case (None, None) => true
    case (Some(had), Some(has)) =>
      && source in has
      && (forall w :: w in has ==> w == source || w in had)
      && (forall w :: w in had && !EqualFold(w, NONE) ==> w in has)
      && (source !in had ==> forall w :: w in has && w != source ==> !EqualFold(w, NONE))
    case _ => false
  }

  lemma AfterGrants(own: Option<seq<string>>, fallback: Option<seq<string>>, source: string)
    ensures Grants(Or(own, fallback), After(own, fallback, source), source)
  {
  }

  lemma ConstantsAreNames()
    ensures IsName(SCRIPT) && IsName(SCRIPT_ELEM) && IsName(CONNECT) && IsName(DEFAULT) && IsWord(SELF)
    ensures SCRIPT != SCRIPT_ELEM && SCRIPT != CONNECT && SCRIPT != DEFAULT && SCRIPT_ELEM != CONNECT
    ensures SCRIPT_ELEM != DEFAULT && CONNECT != DEFAULT
  {
    assert |SCRIPT| == 10 && |SCRIPT_ELEM| == 15 && |CONNECT| == 11 && |DEFAULT| == 11;
    assert CONNECT[0] == 'c' && DEFAULT[0] == 'd';
  }

  /** The two script edits, one after the other. */
  lemma ScriptGrants(elements: Option<seq<string>>, scripts: Option<seq<string>>, otherwise: Option<seq<string>>, hash: string)
    ensures var granted := After(scripts, otherwise, hash);
            Grants(Or(elements, Or(scripts, otherwise)), Or(After(elements, granted, hash), Or(granted, otherwise)), hash)
  {
    AfterGrants(scripts, otherwise, hash);
    AfterGrants(elements, After(scripts, otherwise, hash), hash);
  }

  /** After the adjustment the reload client may run and connect wherever it is restricted at all, nothing else may, and
      no directive but the three has changed. */
  lemma AdjustedEffect(policy: string, hash: string, other: string)
    requires IsWord(hash)
    ensures Grants(ScriptSources(policy), ScriptSources(Adjusted(policy, hash)), hash)
    ensures Grants(ConnectSources(policy), ConnectSources(Adjusted(policy, hash)), SELF)
    ensures other != SCRIPT && other != SCRIPT_ELEM && other != CONNECT ==>
              Says(Adjusted(policy, hash), other) == Says(policy, other)
  {
    ConstantsAreNames();
    SaysAfter(policy, hash, SCRIPT);
    SaysAfter(policy, hash, SCRIPT_ELEM);
    SaysAfter(policy, hash, CONNECT);
    SaysAfter(policy, hash, DEFAULT);
    SaysAfter(policy, hash, other);
    ScriptGrants(Says(policy, SCRIPT_ELEM), Says(policy, SCRIPT), Says(policy, DEFAULT), hash);
    AfterGrants(Says(policy, CONNECT), Says(policy, DEFAULT), SELF);
  }

  /** What the adjusted policy says of a directive. */
  lemma SaysAfter(policy: string, hash: string, name: string)
    requires IsWord(hash)
    ensures var scripts := After(Says(policy, SCRIPT), Says(policy, DEFAULT), hash);
            Says(Adjusted(policy, hash), name) ==
              if name == SCRIPT then scripts
              else if name == SCRIPT_ELEM then After(Says(policy, SCRIPT_ELEM), scripts, hash)
              else if name == CONNECT then After(Says(policy, CONNECT), Says(policy, DEFAULT), SELF)
              else Says(policy, name)
  {
    ConstantsAreNames();
    var scripts := AddedSource(policy, SCRIPT, hash, DEFAULT);
    var elements := AddedSource(scripts, SCRIPT_ELEM, hash, SCRIPT);
    forall n | n in {name, SCRIPT, SCRIPT_ELEM, CONNECT, DEFAULT}
      ensures Says(scripts, n) == if n == SCRIPT then After(Says(policy, SCRIPT), Says(policy, DEFAULT), hash) else Says(policy, n)
    {
      AddedSourceEffect(policy, SCRIPT, hash, DEFAULT, n);
    }
    forall n | n in {name, CONNECT, DEFAULT}
      ensures Says(elements, n) ==
        if n == SCRIPT_ELEM then After(Says(scripts, SCRIPT_ELEM), Says(scripts, SCRIPT), hash) else Says(scripts, n)
    {
      AddedSourceEffect(scripts, SCRIPT_ELEM, hash, SCRIPT, n);
    }
    AddedSourceEffect(elements, CONNECT, SELF, DEFAULT, name);
  }
}
