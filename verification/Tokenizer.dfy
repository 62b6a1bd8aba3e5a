/** Splitting a template into text and tags. A template is read byte by byte, one character for each byte. */
module Tokenizer {
  import opened Text
  import opened Sequences

  // ---- Where a tag ends

  /** What the bytes read so far leave Go's lexer in. `Slash` and `Star` are code and a block comment of which the
      last byte may begin a comment or end it. */
  datatype Mode = Code | Slash | Str | StrEscape | Rune | RuneEscape | Raw | Line | Block | Star

  function Enter(b: char): Mode {
    if b == '"' then Str else if b == '\'' then Rune else if b == '`' then Raw else if b == '/' then Slash else Code
  }

  function Next(m: Mode, b: char): Mode {
    match m
    case Code => Enter(b)
    case Slash => if b == '/' then Line else if b == '*' then Block else Enter(b)
    case Str => if b == '"' then Code else if b == '\\' then StrEscape else Str
    case StrEscape => Str
    case Rune => if b == '\'' then Code else if b == '\\' then RuneEscape else Rune
    case RuneEscape => Rune
    case Raw => if b == '`' then Code else Raw
    case Line => if b == '\n' then Code else Line
    case Block => if b == '*' then Star else Block
    case Star => if b == '/' then Code else if b == '*' then Star else Block
  }

  /** Outside strings, runes, raw strings and comments. */
  predicate IsCode(m: Mode) { m == Code || m == Slash }

  predicate IsPair(s: string, i: nat, a: char, b: char) { i + 2 <= |s| && s[i] == a && s[i + 1] == b }

  /** The mode after the bytes from `lo` to `hi`. */
  function ModeAt(s: string, lo: nat, hi: nat): Mode
    requires lo <= hi <= |s|
  {
    if hi == lo then Code else Next(ModeAt(s, lo, hi - 1), s[hi - 1])
  }

  /** A ?> that lies in code, as Go's lexer sees it from `lo` on. */
  predicate IsDelimiter(s: string, lo: nat, i: nat)
    requires lo <= i <= |s|
  {
    IsPair(s, i, '?', '>') && IsCode(ModeAt(s, lo, i))
  }

  function Delimiter(s: string, i: nat, m: Mode): (d: Option<nat>)
    requires i <= |s|
    ensures d.Some? ==> i <= d.value && IsPair(s, d.value, '?', '>')
    decreases |s| - i
  {
    if i == |s| then None
    else if IsCode(m) && IsPair(s, i, '?', '>') then Some(i)
    else Delimiter(s, i + 1, Next(m, s[i]))
  }

  /** `Delimiter` is the first ?> in code, and there is none exactly when it finds none. */
  lemma {:induction false} DelimiterIsFirst(s: string, lo: nat, i: nat)
    requires lo <= i <= |s|
    ensures var d := Delimiter(s, i, ModeAt(s, lo, i));
            && (d.Some? ==> IsDelimiter(s, lo, d.value))
            && forall j | i <= j < |s| && IsDelimiter(s, lo, j) :: d.Some? && d.value <= j
    decreases |s| - i
  {
    if i < |s| && !IsDelimiter(s, lo, i) {
      assert ModeAt(s, lo, i + 1) == Next(ModeAt(s, lo, i), s[i]);
      DelimiterIsFirst(s, lo, i + 1);
    }
  }

  datatype State = Normal | InString | InRune | InRawString | InLineComment | InBlockComment

  /** The states of the loop that looks one byte ahead, as modes. */
  predicate Tracks(s: string, i: nat, m: Mode, state: State, escaped: bool) {
    match state
    case Normal => m == Code || (m == Slash && (i < |s| ==> s[i] != '/' && s[i] != '*'))
    case InString => m == if escaped then StrEscape else Str
    case InRune => m == if escaped then RuneEscape else Rune
    case InRawString => m == Raw
    case InLineComment => m == Line
    case InBlockComment => m == Block || (m == Star && (i < |s| ==> s[i] != '/'))
  }

  /** findGoDelimiter */
  method FindGoDelimiter(source: string, start: nat) returns (found: int)
    requires start <= |source|
    ensures found >= 0 ==> start <= found <= |source| && IsDelimiter(source, start, found)
    ensures found < 0 ==> found == -1
    ensures forall j | start <= j < |source| && IsDelimiter(source, start, j) :: 0 <= found <= j
    ensures Delimiter(source, start, Code) == if found < 0 then None else Some(found)
  {
    DelimiterIsFirst(source, start, start);
    var state, escaped := Normal, false;
    var index: nat := start;
    ghost var mode := Code;
    while index < |source|
      invariant start <= index <= |source| && Tracks(source, index, mode, state, escaped)
      invariant Delimiter(source, start, Code) == Delimiter(source, index, mode)
    {
      var b := source[index];
      var next := if index + 1 < |source| then source[index + 1] else '\0';
      mode := Next(mode, b);
      index := index + 1;
      match state
      case Normal =>
        if b == '?' && next == '>' {
          return index - 1;
        } else if b == '"' {
          state, escaped := InString, false;
        } else if b == '\'' {
          state, escaped := InRune, false;
        } else if b == '`' {
          state := InRawString;
        } else if b == '/' && next == '/' {
          state, mode, index := InLineComment, Next(mode, next), index + 1;
        } else if b == '/' && next == '*' {
          state, mode, index := InBlockComment, Next(mode, next), index + 1;
        }
      case InString | InRune =>
        if escaped {
          escaped := false;
        } else if b == '\\' {
          escaped := true;
        } else if (state == InString && b == '"') || (state == InRune && b == '\'') {
          state := Normal;
        }
      case InRawString =>
        if b == '`' {
          state := Normal;
        }
      case InLineComment =>
        if b == '\n' {
          state := Normal;
        }
      case InBlockComment =>
        if b == '*' && next == '/' {
          state, mode, index := Normal, Next(mode, next), index + 1;
        }
    }
    return -1;
  }

  // ---- White space, as bytes.TrimSpace sees it

  predicate IsAsciiSpace(b: char) { '\t' <= b <= '\r' || b == ' ' }

  /** The white space of two and of three bytes in UTF-8. */
  predicate IsSpace2(a: char, b: char) { a == '\U{C2}' && (b == '\U{85}' || b == '\U{A0}') }

  predicate IsSpace3(a: char, b: char, c: char) {
    || (a == '\U{E1}' && b == '\U{9A}' && c == '\U{80}')
    || (a == '\U{E2}' && b == '\U{80}' && ('\U{80}' <= c <= '\U{8A}' || c == '\U{A8}' || c == '\U{A9}' || c == '\U{AF}'))
    || (a == '\U{E2}' && b == '\U{81}' && c == '\U{9F}')
    || (a == '\U{E3}' && b == '\U{80}' && c == '\U{80}')
  }

  /** How many bytes of white space begin at `i`, inside `s[..n]`. */
  function SpaceAt(s: string, i: nat, n: nat): (k: nat)
    requires i <= n <= |s|
    ensures i + k <= n
  {
    if i < n && IsAsciiSpace(s[i]) then 1
    else if i + 2 <= n && IsSpace2(s[i], s[i + 1]) then 2
    else if i + 3 <= n && IsSpace3(s[i], s[i + 1], s[i + 2]) then 3
    else 0
  }

  /** How many bytes of white space end at `n`, inside `s[lo..]`. */
  function SpaceBefore(s: string, lo: nat, n: nat): (k: nat)
    requires lo <= n <= |s|
    ensures lo + k <= n
  {
    if lo < n && IsAsciiSpace(s[n - 1]) then 1
    else if lo + 2 <= n && IsSpace2(s[n - 2], s[n - 1]) then 2
    else if lo + 3 <= n && IsSpace3(s[n - 3], s[n - 2], s[n - 1]) then 3
    else 0
  }

  function TrimmedStart(s: string, i: nat, n: nat): (r: nat)
    requires i <= n <= |s|
    ensures i <= r <= n && SpaceAt(s, r, n) == 0
    decreases n - i
  {
    if SpaceAt(s, i, n) == 0 then i else TrimmedStart(s, i + SpaceAt(s, i, n), n)
  }

  function TrimmedEnd(s: string, lo: nat, n: nat): (r: nat)
    requires lo <= n <= |s|
    ensures lo <= r <= n && SpaceBefore(s, lo, r) == 0
    decreases n
  {
    if SpaceBefore(s, lo, n) == 0 then n else TrimmedEnd(s, lo, n - SpaceBefore(s, lo, n))
  }

  /** bytes.TrimSpace of s[i..n] */
  function Trimmed(s: string, i: nat, n: nat): string
    requires i <= n <= |s|
  {
    s[TrimmedStart(s, i, n)..TrimmedEnd(s, TrimmedStart(s, i, n), n)]
  }

  /** Its ends are not white space: the string is its own bytes.TrimSpace. */
  predicate IsTrimmed(s: string) { SpaceAt(s, 0, |s|) == 0 && SpaceBefore(s, 0, |s|) == 0 }

  predicate IsCut(b: char) { b == ' ' || b == '\t' || b == '\r' || b == '\n' }

  /** bytes.TrimLeft(s[i..n], " \t\r\n") begins here. */
  function CutStart(s: string, i: nat, n: nat): (r: nat)
    requires i <= n <= |s|
    ensures i <= r <= n && (r < n ==> !IsCut(s[r]))
    decreases n - i
  {
    if i < n && IsCut(s[i]) then CutStart(s, i + 1, n) else i
  }

  // ---- Tokens

  /** bytes.Index of two bytes, from `i`. */
  function FindPair(s: string, i: nat, a: char, b: char): (r: Option<nat>)
    requires i <= |s|
    ensures r.Some? ==> i <= r.value && IsPair(s, r.value, a, b)
    ensures forall j | i <= j < |s| && IsPair(s, j, a, b) :: r.Some? && r.value <= j
    decreases |s| - i
  {
    if i == |s| then None else if IsPair(s, i, a, b) then Some(i) else FindPair(s, i + 1, a, b)
  }

  datatype Kind = Literal | Statement | Expression | Component | Comment

  datatype Shape = Plain | Tag(kind: Kind) | Broken

  /** A piece of the template, from `lo` up to `hi`. */
  datatype Token = Token(shape: Shape, lo: nat, hi: nat)

  /** Where the tag opened at `open` closes: a comment at the first ?>, any other tag at the first one in code. */
  function Close(s: string, open: nat): (c: Option<nat>)
    requires IsPair(s, open, '<', '?')
    ensures c.Some? ==> open + 2 <= c.value && IsPair(s, c.value, '?', '>')
  {
    if open + 2 < |s| && s[open + 2] == '#' then FindPair(s, open + 2, '?', '>') else Delimiter(s, open + 2, Code)
  }

  function KindAt(s: string, i: nat, close: nat): (k: Kind)
    requires i <= close <= |s|
    ensures k != Literal && (k != Statement ==> i < close)
  {
    if i == close then Statement
    else if s[i] == '=' then Expression
    else if s[i] == '~' then Component
    else if s[i] == '#' then Comment
    else Statement
  }

  function TokenAt(s: string, i: nat): (t: Token)
    requires i < |s|
    ensures t.lo == i < t.hi <= |s|
    ensures t.shape.Tag? ==> ContentStart(t) <= t.hi - 2
  {
    if !IsPair(s, i, '<', '?') then
      var open := FindPair(s, i, '<', '?');
      Token(Plain, i, if open.Some? then open.value else |s|)
    else
      var c := Close(s, i);
      if c.None? then Token(Broken, i, |s|) else Token(Tag(KindAt(s, i + 2, c.value)), i, c.value + 2)
  }

  /** After the sigil. */
  function ContentStart(t: Token): nat { if t.shape == Tag(Statement) then t.lo + 2 else t.lo + 3 }

  function Tokens(s: string, i: nat): seq<Token>
    requires i <= |s|
    decreases |s| - i
  {
    if i == |s| then [] else [TokenAt(s, i)] + Tokens(s, TokenAt(s, i).hi)
  }

  datatype Piece = Piece(kind: Kind, text: string)

  datatype Node = Node(piece: Piece, offset: nat)

  datatype Report = Report(code: nat, offset: nat)

  /** What becomes of a token: a node of the template, or a diagnostic. */
  datatype Outcome = Kept(node: Node) | Refused(reports: seq<Report>)

  /** The bytes from `i` up to `n` begin with `sando`. */
  predicate StartsWithSando(s: string, i: nat, n: nat)
    requires n <= |s|
  {
    i + 5 <= n && s[i] == 's' && s[i + 1] == 'a' && s[i + 2] == 'n' && s[i + 3] == 'd' && s[i + 4] == 'o'
  }

  /** The tag's trimmed bytes, its sigil among them, begin with `sando`. */
  predicate IsReserved(s: string, i: nat, close: nat)
    requires i <= close <= |s|
  {
    var start := TrimmedStart(s, i, close);
    StartsWithSando(s, start, TrimmedEnd(s, start, close))
  }

  /** expressionDiagnostics: a report for every error of the Go parser in the expression at `at`. */
  function ErrorReports(offsets: seq<nat>, at: nat): seq<Report> {
    if offsets == [] then []
    else ErrorReports(offsets[..|offsets| - 1], at) + [Report(1210, at + offsets[|offsets| - 1])]
  }

  /** What a tag at `at` with its body at `bodyAt` becomes. `errors` is what the Go parser finds: the offsets of its
      errors for every expression that it refuses. */
  function Judged(reserved: bool, kind: Kind, body: string, at: nat, bodyAt: nat, errors: map<string, seq<nat>>): Outcome {
    if reserved then Refused([Report(1202, at)])
    else if kind != Comment && |body| == 0 then Refused([Report(1203, at)])
    else if IsGo(kind) && body in errors then Refused(ErrorReports(errors[body], bodyAt))
    else Kept(Node(Piece(kind, body), bodyAt))
  }

  function ReadTag(s: string, t: Token, base: nat, errors: map<string, seq<nat>>): Outcome
    requires t.shape.Tag? && ContentStart(t) <= t.hi - 2 && t.hi <= |s|
  {
    Judged(IsReserved(s, t.lo + 2, t.hi - 2), t.shape.kind, Body(s, t), base + t.lo, base + BodyOffset(s, t), errors)
  }

  predicate IsGo(k: Kind) { k == Expression || k == Component }

  /** The trimmed content of a tag. */
  function Body(s: string, t: Token): string
    requires ContentStart(t) <= t.hi - 2 && t.hi <= |s|
  {
    Trimmed(s, ContentStart(t), t.hi - 2)
  }

  /** Where the tokenizer says the body is. */
  function BodyOffset(s: string, t: Token): (o: nat)
    requires ContentStart(t) <= t.hi - 2 && t.hi <= |s|
  {
    CutStart(s, ContentStart(t), t.hi - 2)
  }

  function ReadToken(s: string, t: Token, base: nat, errors: map<string, seq<nat>>): Outcome
    requires t.lo <= t.hi <= |s| && (t.shape.Tag? ==> ContentStart(t) <= t.hi - 2)
  {
    match t.shape
    case Plain => Kept(Node(Piece(Literal, s[t.lo..t.hi]), base + t.lo))
    case Broken => Refused([Report(1201, base + t.lo)])
    case Tag(_) => ReadTag(s, t, base, errors)
  }

  /** What becomes of each token from `i` on. */
  function Outcomes(s: string, i: nat, base: nat, errors: map<string, seq<nat>>): seq<Outcome>
    requires i <= |s|
    decreases |s| - i
  {
    if i == |s| then []
    else [ReadToken(s, TokenAt(s, i), base, errors)] + Outcomes(s, TokenAt(s, i).hi, base, errors)
  }

  function NodesOf(outcomes: seq<Outcome>): seq<Node> {
    if outcomes == [] then []
    else
      var last := outcomes[|outcomes| - 1];
      NodesOf(outcomes[..|outcomes| - 1]) + if last.Kept? then [last.node] else []
  }

  function ReportsOf(outcomes: seq<Outcome>): seq<Report> {
    if outcomes == [] then []
    else
      var last := outcomes[|outcomes| - 1];
      ReportsOf(outcomes[..|outcomes| - 1]) + if last.Refused? then last.reports else []
  }

  lemma Append(done: seq<Outcome>, o: Outcome)
    ensures o.Kept? ==> NodesOf(done + [o]) == NodesOf(done) + [o.node] && ReportsOf(done + [o]) == ReportsOf(done)
    ensures o.Refused? ==> NodesOf(done + [o]) == NodesOf(done) && ReportsOf(done + [o]) == ReportsOf(done) + o.reports
  {
    assert (done + [o])[..|done|] == done;
  }

  lemma OutcomesStep(s: string, i: nat, base: nat, errors: map<string, seq<nat>>, done: seq<Outcome>, o: Outcome)
    requires i < |s| && o == ReadToken(s, TokenAt(s, i), base, errors)
    ensures done + Outcomes(s, i, base, errors)
         == (done + [o]) + Outcomes(s, TokenAt(s, i).hi, base, errors)
  {
    var rest := Outcomes(s, TokenAt(s, i).hi, base, errors);
    assert Outcomes(s, i, base, errors) == [o] + rest;
    Associate(done, [o], rest);
  }

  /** The tag from `open` to the end of the ?> at `close`. */
  function TagToken(s: string, open: nat, close: nat): Token
    requires open + 2 <= close <= |s|
  {
    Token(Tag(KindAt(s, open + 2, close)), open, close + 2)
  }

  /** What a tag becomes, by the bounds of its parts. */
  lemma TagParts(s: string, kind: Kind, open: nat, start: nat, close: nat, base: nat, errors: map<string, seq<nat>>)
    requires start == (if kind == Statement then open + 2 else open + 3) && open + 2 <= close && start <= close
    requires close + 2 <= |s|
    ensures ReadTag(s, Token(Tag(kind), open, close + 2), base, errors)
         == Judged(IsReserved(s, open + 2, close), kind, Trimmed(s, start, close), base + open,
                   base + CutStart(s, start, close), errors)
  {
  }

  /** The loop body once the end of a tag is known. */
  method TakeTag(template: string, base: nat, errors: map<string, seq<nat>>, open: nat, close: nat) returns (outcome: Outcome)
    requires IsPair(template, open, '<', '?') && open + 2 <= close && IsPair(template, close, '?', '>')
    ensures outcome == ReadTag(template, TagToken(template, open, close), base, errors)
  {
    var kind, contentStart := TakeSigil(template, open, close);
    TagParts(template, kind, open, contentStart, close, base, errors);
    var trimmed := Trimmed(template, contentStart, close);
    var trimLeading := CutStart(template, contentStart, close) - contentStart;
    var reserved := IsReserved(template, open + 2, close);
    outcome := Judge(reserved, kind, trimmed, base + open, base + contentStart + trimLeading, errors);
  }

  /** And once its parts are. */
  method Judge(reserved: bool, kind: Kind, trimmed: string, at: nat, position: nat, errors: map<string, seq<nat>>)
      returns (outcome: Outcome)
    ensures outcome == Judged(reserved, kind, trimmed, at, position, errors)
  {
    if reserved {
      return Refused([Report(1202, at)]);
    } else if kind != Comment && |trimmed| == 0 {
      return Refused([Report(1203, at)]);
    } else if (kind == Expression || kind == Component) && trimmed in errors {
      var reports := ExpressionDiagnostics(errors[trimmed], position);
      return Refused(reports);
    }
    return Kept(Node(Piece(kind, trimmed), position));
  }

  method ExpressionDiagnostics(offsets: seq<nat>, at: nat) returns (reports: seq<Report>)
    ensures reports == ErrorReports(offsets, at)
  {
    reports := [];
    for k := 0 to |offsets|
      invariant reports == ErrorReports(offsets[..k], at)
    {
      assert offsets[..k + 1][..k] == offsets[..k];
      reports := reports + [Report(1210, at + offsets[k])];
    }
    assert offsets[..|offsets|] == offsets;
  }

  method TakeSigil(template: string, open: nat, close: nat) returns (kind: Kind, contentStart: nat)
    requires open + 2 <= close <= |template| - 2
    ensures kind == KindAt(template, open + 2, close) && contentStart == ContentStart(TagToken(template, open, close))
  {
    kind, contentStart := Statement, open + 2;
    if contentStart < close {
      var sigil := template[contentStart];
      if sigil == '=' {
        kind, contentStart := Expression, contentStart + 1;
      } else if sigil == '~' {
        kind, contentStart := Component, contentStart + 1;
      } else if sigil == '#' {
        kind, contentStart := Comment, contentStart + 1;
      }
    }
  }

  /** Where the loop finds the tag opened at `open` to close. */
  method FindClose(template: string, open: nat) returns (close: int)
    requires IsPair(template, open, '<', '?')
    ensures Close(template, open) == if close < 0 then None else Some(close)
  {
    close := -1;
    if open + 2 < |template| && template[open + 2] == '#' {
      var plain := FindPair(template, open + 2, '?', '>');
      if plain.Some? { close := plain.value; }
    } else {
      close := FindGoDelimiter(template, open + 2);
    }
  }

  /** The tokens of a template, read so far up to `cursor` and leaving `done`. */
  predicate IsReadTo(template: string, base: nat, errors: map<string, seq<nat>>, cursor: nat, done: seq<Outcome>) {
    && cursor <= |template|
    && Outcomes(template, 0, base, errors) == done + Outcomes(template, cursor, base, errors)
  }

  lemma ReadOn(template: string, base: nat, errors: map<string, seq<nat>>, cursor: nat, done: seq<Outcome>, o: Outcome)
    requires cursor < |template| && IsReadTo(template, base, errors, cursor, done)
    requires o == ReadToken(template, TokenAt(template, cursor), base, errors)
    ensures IsReadTo(template, base, errors, TokenAt(template, cursor).hi, done + [o])
    ensures o.Kept? ==> NodesOf(done + [o]) == NodesOf(done) + [o.node] && ReportsOf(done + [o]) == ReportsOf(done)
    ensures o.Refused? ==> NodesOf(done + [o]) == NodesOf(done) && ReportsOf(done + [o]) == ReportsOf(done) + o.reports
  {
    OutcomesStep(template, cursor, base, errors, done, o);
    Append(done, o);
  }

  lemma ReadAll(template: string, base: nat, errors: map<string, seq<nat>>, done: seq<Outcome>)
    requires IsReadTo(template, base, errors, |template|, done)
    ensures Outcomes(template, 0, base, errors) == done
  {
  }

  /** The text before the next tag. */
  method TakeText(template: string, base: nat, errors: map<string, seq<nat>>, cursor: nat) returns (node: Node, open: nat)
    requires cursor < |template| && !IsPair(template, cursor, '<', '?')
    ensures Kept(node) == ReadToken(template, TokenAt(template, cursor), base, errors)
    ensures open == TokenAt(template, cursor).hi && (open < |template| ==> IsPair(template, open, '<', '?'))
  {
    var found := FindPair(template, cursor, '<', '?');
    open := if found.Some? then found.value else |template|;
    node := Node(Piece(Literal, template[cursor..open]), base + cursor);
  }

  lemma TagOpens(s: string, open: nat)
    requires IsPair(s, open, '<', '?')
    ensures match Close(s, open)
            case None => TokenAt(s, open) == Token(Broken, open, |s|)
            case Some(close) => TokenAt(s, open) == TagToken(s, open, close)
  {
  }

  lemma TagReads(s: string, t: Token, base: nat, errors: map<string, seq<nat>>)
    requires t.lo <= t.hi <= |s| && t.shape.Tag? && ContentStart(t) <= t.hi - 2
    ensures ReadToken(s, t, base, errors) == ReadTag(s, t, base, errors)
  {
  }

  /** The tag opened at `open`, or the diagnostic that ends the template when it does not close. */
  method TakeToken(template: string, base: nat, errors: map<string, seq<nat>>, open: nat)
      returns (outcome: Outcome, cursor: nat)
    requires IsPair(template, open, '<', '?')
    ensures outcome == ReadToken(template, TokenAt(template, open), base, errors)
    ensures cursor == TokenAt(template, open).hi
  {
    var close := FindClose(template, open);
    TagOpens(template, open);
    if close < 0 {
      return Refused([Report(1201, base + open)]), |template|;
    }
    outcome := TakeTag(template, base, errors, open, close);
    TagReads(template, TagToken(template, open, close), base, errors);
    cursor := close + 2;
  }

  /** tokenizeTemplate */
  method TokenizeTemplate(template: string, base: nat, errors: map<string, seq<nat>>)
      returns (nodes: seq<Node>, diagnostics: seq<Report>)
    ensures nodes == NodesOf(Outcomes(template, 0, base, errors))
    ensures diagnostics == ReportsOf(Outcomes(template, 0, base, errors))
  {
    nodes, diagnostics := [], [];
    var cursor: nat := 0;
    ghost var done: seq<Outcome> := [];
    while cursor < |template|
      invariant IsReadTo(template, base, errors, cursor, done)
      invariant nodes == NodesOf(done) && diagnostics == ReportsOf(done)
    {
      var open := cursor;
      if !IsPair(template, cursor, '<', '?') {
        var text, end := TakeText(template, base, errors, cursor);
        ReadOn(template, base, errors, cursor, done, Kept(text));
        nodes, open := nodes + [text], end;
        done := done + [Kept(text)];
      }
      cursor := open;
      if open < |template| {
        var outcome, end := TakeToken(template, base, errors, open);
        ReadOn(template, base, errors, open, done, outcome);
        done, cursor := done + [outcome], end;
        match outcome
        case Kept(node) => nodes := nodes + [node];
        case Refused(reports) => diagnostics := diagnostics + reports;
      }
    }
    ReadAll(template, base, errors, done);
  }

  // ---- Tokens tile the template

  /** What a token is, without reference to how it is found: text holds no <? and reaches up to the next one, a tag ends
      with the ?> that closes it, and a broken tag has none. */
  predicate IsToken(s: string, t: Token) {
    && t.lo < t.hi <= |s|
    && match t.shape
       case Plain =>
         && (forall j | t.lo <= j < t.hi :: !IsPair(s, j, '<', '?'))
         && (t.hi == |s| || IsPair(s, t.hi, '<', '?'))
       case Tag(kind) =>
         && t.lo + 4 <= t.hi && IsPair(s, t.lo, '<', '?') && kind == KindAt(s, t.lo + 2, t.hi - 2)
         && (if kind == Comment then IsFirstPair(s, t.lo + 2, t.hi - 2)
             else IsFirstDelimiter(s, t.lo + 2, t.hi - 2))
       case Broken =>
         && t.hi == |s| && IsPair(s, t.lo, '<', '?')
         && if t.lo + 2 < |s| && s[t.lo + 2] == '#' then forall j | t.lo + 2 <= j < |s| :: !IsPair(s, j, '?', '>')
            else HasNoDelimiter(s, t.lo + 2)
  }

  predicate IsFirstPair(s: string, lo: nat, i: nat) {
    IsPair(s, i, '?', '>') && forall j | lo <= j < i :: !IsPair(s, j, '?', '>')
  }

  predicate IsFirstDelimiter(s: string, lo: nat, i: nat) {
    lo <= i <= |s| && IsDelimiter(s, lo, i) && forall j | lo <= j < i :: !IsDelimiter(s, lo, j)
  }

  predicate HasNoDelimiter(s: string, lo: nat) { forall j | lo <= j < |s| :: !IsDelimiter(s, lo, j) }

  lemma TokenIsToken(s: string, i: nat)
    requires i < |s|
    ensures IsToken(s, TokenAt(s, i))
  {
    if IsPair(s, i, '<', '?') {
      DelimiterIsFirst(s, i + 2, i + 2);
    }
  }

  /** The tokens lie end to end: each begins where the one before it ends. */
  predicate Tiles(ts: seq<Token>, lo: nat, hi: nat) {
    if ts == [] then lo == hi else ts[0].lo == lo && ts[0].lo < ts[0].hi && Tiles(ts[1..], ts[0].hi, hi)
  }

  function Spelled(s: string, ts: seq<Token>): string
    requires forall k | 0 <= k < |ts| :: ts[k].lo <= ts[k].hi <= |s|
  {
    if ts == [] then "" else s[ts[0].lo..ts[0].hi] + Spelled(s, ts[1..])
  }

  /** The tokens tile the template: nothing is lost, nothing is read twice, and each is what its shape says. */
  lemma {:induction false} TokensTile(s: string, i: nat)
    requires i <= |s|
    ensures var ts := Tokens(s, i);
            && Tiles(ts, i, |s|)
            && (forall k | 0 <= k < |ts| :: IsToken(s, ts[k]))
            && Spelled(s, ts) == s[i..]
    decreases |s| - i
  {
    if i < |s| {
      var t := TokenAt(s, i);
      TokenIsToken(s, i);
      TokensTile(s, t.hi);
      assert Tokens(s, i)[1..] == Tokens(s, t.hi);
      SliceApart(s, i, t.hi);
    }
  }

  lemma {:induction false} AsManyOutcomes(s: string, i: nat, base: nat, errors: map<string, seq<nat>>)
    requires i <= |s|
    ensures |Outcomes(s, i, base, errors)| == |Tokens(s, i)|
    decreases |s| - i
  {
    if i < |s| { AsManyOutcomes(s, TokenAt(s, i).hi, base, errors); }
  }

  /** Each token leaves exactly one outcome, and no two texts are adjacent. */
  lemma {:induction false} OneOutcomeEach(s: string, i: nat, base: nat, errors: map<string, seq<nat>>, k: nat)
    requires i <= |s| && k < |Tokens(s, i)|
    ensures var ts := Tokens(s, i);
            && |Outcomes(s, i, base, errors)| == |ts|
            && IsToken(s, ts[k]) && Outcomes(s, i, base, errors)[k] == ReadToken(s, ts[k], base, errors)
            && (k > 0 ==> !ts[k].shape.Plain? || !ts[k - 1].shape.Plain?)
    decreases |s| - i
  {
    var t := TokenAt(s, i);
    AsManyOutcomes(s, i, base, errors);
    if k == 0 {
      TokenIsToken(s, i);
    } else {
      OneOutcomeEach(s, t.hi, base, errors, k - 1);
    }
  }

  // ---- Offsets

  /** The text of a node is found in the source at its offset. */
  predicate IsFound(source: string, n: Node) {
    n.offset + |n.piece.text| <= |source| && source[n.offset..n.offset + |n.piece.text|] == n.piece.text
  }

  /** The white space that leads the content of a tag is of the four kinds the offset skips. */
  predicate IsPlainlySpaced(s: string, t: Token) {
    t.shape.Tag? && ContentStart(t) <= t.hi - 2 && t.hi <= |s| ==>
      SpaceAt(s, CutStart(s, ContentStart(t), t.hi - 2), t.hi - 2) == 0
  }

  lemma {:induction false} CutIsTrim(s: string, i: nat, n: nat)
    requires i <= n <= |s|
    ensures CutStart(s, i, n) <= TrimmedStart(s, i, n)
    ensures CutStart(s, i, n) == TrimmedStart(s, i, n) <==> SpaceAt(s, CutStart(s, i, n), n) == 0
    decreases n - i
  {
    if i < n && IsCut(s[i]) { CutIsTrim(s, i + 1, n); }
  }

  /** The recorded offset of a tag is the offset of its body exactly when no other white space leads it. */
  lemma OffsetIsTrue(s: string, i: nat)
    requires i < |s| && TokenAt(s, i).shape.Tag?
    ensures var t := TokenAt(s, i);
            BodyOffset(s, t) == TrimmedStart(s, ContentStart(t), t.hi - 2) <==> IsPlainlySpaced(s, t)
  {
    var t := TokenAt(s, i);
    CutIsTrim(s, ContentStart(t), t.hi - 2);
  }

  lemma SliceIsFound(source: string, base: nat, s: string, a: nat, b: nat, n: Node)
    requires base <= |source| && s == source[base..] && a <= b <= |s|
    requires n.offset == base + a && n.piece.text == s[a..b]
    ensures IsFound(source, n)
  {
  }

  lemma BodyIsWhereItIs(s: string, t: Token)
    requires ContentStart(t) <= t.hi - 2 && t.hi <= |s| && t.shape.Tag? && IsPlainlySpaced(s, t)
    ensures var o := BodyOffset(s, t); o + |Body(s, t)| <= |s| && Body(s, t) == s[o..o + |Body(s, t)|]
  {
    CutIsTrim(s, ContentStart(t), t.hi - 2);
  }

  lemma TokenIsFound(source: string, base: nat, s: string, t: Token, errors: map<string, seq<nat>>, n: Node)
    requires base <= |source| && s == source[base..]
    requires IsToken(s, t) && IsPlainlySpaced(s, t) && (t.shape.Tag? ==> ContentStart(t) <= t.hi - 2)
    requires ReadToken(s, t, base, errors) == Kept(n)
    ensures IsFound(source, n)
  {
    if t.shape.Tag? {
      BodyIsWhereItIs(s, t);
      var o := BodyOffset(s, t);
      SliceIsFound(source, base, s, o, o + |Body(s, t)|, n);
    } else {
      SliceIsFound(source, base, s, t.lo, t.hi, n);
    }
  }

  /** Every node of a plainly spaced template is found in the source at its offset. */
  lemma NodesAreFound(source: string, base: nat, errors: map<string, seq<nat>>, s: string, k: nat)
    requires base <= |source| && s == source[base..]
    requires k < |Tokens(s, 0)| == |Outcomes(s, 0, base, errors)|
    ensures var o := Outcomes(s, 0, base, errors)[k];
            IsPlainlySpaced(s, Tokens(s, 0)[k]) && o.Kept? ==> IsFound(source, o.node)
  {
    OneOutcomeEach(s, 0, base, errors, k);
    var t, o := Tokens(s, 0)[k], Outcomes(s, 0, base, errors)[k];
    if IsPlainlySpaced(s, t) && o.Kept? {
      TokenIsFound(source, base, s, t, errors, o.node);
    }
  }

  /** White space that bytes.TrimSpace drops and the offset does not skip: a form feed before the body of a tag. */
  lemma FormFeedShiftsTheOffset()
    ensures var s := "<?=\U{0C}x?>"; var t := TokenAt(s, 0);
            && t == Token(Tag(Expression), 0, 7) && !IsPlainlySpaced(s, t)
            && Body(s, t) == "x" && BodyOffset(s, t) == 3 && s[3] != 'x'
  {
    var s := "<?=\U{0C}x?>";
    assert Delimiter(s, 5, Code) == Some(5);
  }
}
