/** The HTML automaton of the context analyzer: one transition per template character. */
module HtmlAutomaton {
  import opened Text
  import opened Html
  import opened UrlPolicy

  datatype State =
    | Data | AfterLT | DeclarationStart | DeclarationDash | Declaration | Comment
    | TagName | BeforeAttribute | AttributeName | AfterAttributeName | BeforeAttributeValue
    | DoubleQuoted | SingleQuoted | SelfClosing
    | EndTagName | AfterEndTagName
    | RawText | RawAfterLT | RawEndTagName | RawAfterEndTagName

  /** The tag being read: currentTag, currentAttr, selfClosing, attributes and seenAttrs. */
  datatype Element = Element(
    tag: string, attr: string, selfClosing: bool, attributes: map<string, string>, seen: set<string>)

  /** The attribute value being read: attrLiteral, attrDynamicNodes, attrFirstDynamic and attrDynamicPrefix. */
  datatype Value = Value(literal: string, nodes: seq<nat>, first: int, prefix: string)

  /** The raw-text element being read: rawTag, rawEndName and scriptTail. */
  datatype Raw = Raw(tag: string, endName: string, tail: string)

  datatype Automaton = Automaton(
    state: State, element: Element, value: Value, raw: Raw, stack: seq<string>, commentDash: nat)

  /** A transition: on to the next automaton, or stopped by the diagnostic HIM<code>. */
  datatype Outcome = Next(auto: Automaton) | Stop(code: nat)

  /** The element and attribute names the analyzer treats specially. */
  datatype Tables = Tables(
    voidElements: set<string>,
    urlAttributes: set<string>,
    unsupportedDynamicAttributes: set<string>,
    foreignElements: set<string>,
    unsupportedElements: set<string>,
    rawElements: set<string>)

  /** Which checks a run makes. The analyzer makes all of them. The markup reading of rendered output leaves out the
      URL and script-comment diagnostics, and the stack-free reading also leaves out tag balance. */
  datatype Rules = Rules(lib: Library, tables: Tables, urls: bool, scriptGuard: bool, balance: bool)

  function Markup(r: Rules, balance: bool): Rules { r.(urls := false, scriptGuard := false, balance := balance) }

  const HTML: Tables := Tables(
    { "area", "base", "br", "col", "embed", "hr", "img", "input", "link", "meta", "param", "source", "track", "wbr" },
    { "action", "background", "cite", "classid", "code", "codebase", "data", "dynsrc", "formaction", "href", "icon",
      "itemid", "longdesc", "lowsrc", "manifest", "poster", "profile", "src", "usemap", "xlink:href", "xmlns" },
    { "archive", "imagesrcset", "itemtype", "ping", "srcdoc", "srcset" },
    { "svg", "math" },
    { "plaintext", "noscript" },
    { "script", "style", "textarea", "title", "iframe", "noembed", "noframes", "xmp" })

  const NO_VALUE: Value := Value("", [], -1, "")

  const INITIAL: Automaton :=
    Automaton(Data, Element("", "", false, map[], {}), NO_VALUE, Raw("", "", ""), [], 0)

  predicate IsTagNameChar(b: char) { IsLetter(b) || IsDigit(b) || b == ':' || b == '-' }

  predicate IsAttributeNameStart(b: char) { IsLetter(b) || b == '_' || b == ':' }

  predicate IsAttributeNameChar(b: char) { IsAttributeNameStart(b) || IsDigit(b) || b == '-' || b == '.' }

  predicate IsHtmlSpace(b: char) { b == ' ' || b == '\t' || b == '\r' || b == '\n' || b == '\U{C}' }

  predicate InContent(s: State) {
    s.Data? || s.AfterLT? || s.DeclarationStart? || s.DeclarationDash? || s.Declaration? || s.Comment?
  }

  predicate BetweenAttributes(s: State) { s.TagName? || s.BeforeAttribute? || s.SelfClosing? }

  predicate NamesAttribute(s: State) { s.AttributeName? || s.AfterAttributeName? || s.BeforeAttributeValue? }

  predicate Quoted(s: State) { s.DoubleQuoted? || s.SingleQuoted? }

  predicate InTag(s: State) { BetweenAttributes(s) || NamesAttribute(s) || Quoted(s) }

  predicate InEndTag(s: State) { s.EndTagName? || s.AfterEndTagName? }

  predicate InRaw(s: State) { s.RawText? || s.RawAfterLT? || s.RawEndTagName? || s.RawAfterEndTagName? }

  /** string(b) re-encodes a byte above 127 as two bytes, neither of them ASCII. */
  function Widen(b: char): (r: string) { if IsAscii(b) then [b] else [b, b] }

  function LastFour(s: string): string { if |s| > 4 then s[|s| - 4..] else s }

  function Slide(tail: string, b: char): string { LastFour(tail + Widen(b)) }

  // ---- The helpers of the transition

  function BeginAttribute(a: Automaton, first: char): Automaton {
    a.(state := AttributeName, element := a.element.(attr := [Lower(first)]), value := NO_VALUE)
  }

  function ValidateAttributeName(a: Automaton): Outcome {
    if a.element.attr in a.element.seen then Stop(1347)
    else if HasPrefix(a.element.attr, "on") then Stop(1340)
    else Next(a.(element := a.element.(seen := a.element.seen + {a.element.attr})))
  }

  /** The diagnostic of the URL rules at the end of an attribute value, if any. */
  function UrlProblem(r: Rules, e: Element, v: Value): Option<nat> {
    if e.attr !in r.tables.urlAttributes then None
    else if v.nodes == [] then if SafeStaticUrl(r.lib, v.literal) then None else Some(1344)
    else if v.prefix == "" then if |v.nodes| != 1 || v.literal != "" then Some(1341) else None
    else if SafeUrlPrefix(r.lib, v.prefix) then None else Some(1342)
  }

  /** Only values without expressions are kept. */
  function Record(lib: Library, e: Element, v: Value): Element {
    if v.nodes == [] then e.(attributes := e.attributes[e.attr := Unescape(lib, v.literal)]) else e
  }

  function FinishAttributeValue(r: Rules, a: Automaton): Outcome {
    var problem := if r.urls then UrlProblem(r, a.element, a.value) else None;
    if problem.Some? then Stop(problem.value)
    else Next(a.(state := BeforeAttribute, element := Record(r.lib, a.element, a.value)))
  }

  predicate IsRefresh(e: Element) {
    "http-equiv" in e.attributes && EqualFold(TrimSpace(e.attributes["http-equiv"]), "refresh")
  }

  function TagProblem(t: Tables, e: Element): Option<nat> {
    if e.tag == "" then Some(1350)
    else if e.tag in t.foreignElements then Some(1355)
    else if e.tag in t.unsupportedElements then Some(1356)
    else if e.tag == "meta" && IsRefresh(e) then Some(1346)
    else if e.selfClosing && e.tag !in t.voidElements then Some(1354)
    else None
  }

  function FinishOpenTag(r: Rules, a: Automaton): Outcome {
    var e := a.element;
    if TagProblem(r.tables, e).Some? then Stop(TagProblem(r.tables, e).value)
    else
      var opens := !e.selfClosing && e.tag !in r.tables.voidElements;
      var raw := !e.selfClosing && e.tag in r.tables.rawElements;
      Next(a.(
        state := if raw then RawText else Data,
        element := e.(attr := ""),
        raw := if raw then a.raw.(tag := e.tag, tail := "") else a.raw,
        stack := if opens then a.stack + [e.tag] else a.stack))
  }

  function Pop(stack: seq<string>): seq<string> { if stack == [] then stack else stack[..|stack| - 1] }

  predicate Closes(r: Rules, stack: seq<string>, name: string) {
    !r.balance || (stack != [] && stack[|stack| - 1] == name)
  }

  function FinishCloseTag(r: Rules, a: Automaton): Outcome {
    if a.element.tag in r.tables.voidElements then Stop(1351)
    else if !Closes(r, a.stack, a.element.tag) then Stop(1352)
    else Next(a.(state := Data, element := a.element.(tag := ""), stack := Pop(a.stack)))
  }

  function FinishRawClose(r: Rules, a: Automaton): Outcome {
    if !Closes(r, a.stack, a.raw.tag) then Stop(1353)
    else Next(a.(state := Data, element := a.element.(tag := ""), raw := Raw("", "", ""), stack := Pop(a.stack)))
  }

  function EnterSelfClosing(a: Automaton): Automaton {
    a.(state := SelfClosing, element := a.element.(selfClosing := true))
  }

  function GrowTag(a: Automaton, b: char): Automaton {
    a.(element := a.element.(tag := a.element.tag + [Lower(b)]))
  }

  function GrowAttr(a: Automaton, b: char): Automaton {
    a.(element := a.element.(attr := a.element.attr + [Lower(b)]))
  }

  // ---- The transition

  function StepContent(a: Automaton, b: char): Outcome
    requires InContent(a.state)
  {
    match a.state
    case Data => Next(if b == '<' then a.(state := AfterLT) else a)
    case AfterLT =>
      if b == '!' then Next(a.(state := DeclarationStart))
      else if b == '/' then Next(a.(state := EndTagName, element := a.element.(tag := "")))
      else if IsLetter(b) then
        Next(a.(state := TagName, element := Element([Lower(b)], a.element.attr, false, map[], {})))
      else Stop(1320)
    case DeclarationStart =>
      if b == '-' then Next(a.(state := DeclarationDash))
      else if IsLetter(b) then Next(a.(state := Declaration)) else Stop(1321)
    case DeclarationDash => if b == '-' then Next(a.(commentDash := 0, state := Comment)) else Stop(1322)
    case Declaration =>
      if b == '>' then Next(a.(state := Data)) else if b == '<' then Stop(1323) else Next(a)
    case Comment =>
      if b == '-' then Next(a.(commentDash := a.commentDash + 1))
      else if b == '>' && a.commentDash >= 2 then Next(a.(commentDash := 0, state := Data))
      else Next(a.(commentDash := 0))
  }

  function StepTag(r: Rules, a: Automaton, b: char): Outcome
    requires BetweenAttributes(a.state)
  {
    match a.state
    case TagName =>
      if IsTagNameChar(b) then Next(GrowTag(a, b))
      else if IsHtmlSpace(b) then Next(a.(state := BeforeAttribute))
      else if b == '>' then FinishOpenTag(r, a)
      else if b == '/' then Next(EnterSelfClosing(a)) else Stop(1324)
    case BeforeAttribute =>
      if IsHtmlSpace(b) then Next(a)
      else if IsAttributeNameStart(b) then Next(BeginAttribute(a, b))
      else if b == '>' then FinishOpenTag(r, a)
      else if b == '/' then Next(EnterSelfClosing(a)) else Stop(1325)
    case SelfClosing =>
      if IsHtmlSpace(b) then Next(a) else if b != '>' then Stop(1330) else FinishOpenTag(r, a)
  }

  /** Every way out of an attribute name validates it first. */
  function StepAttributeName(r: Rules, a: Automaton, b: char): Outcome {
    if IsAttributeNameChar(b) then Next(GrowAttr(a, b))
    else if !IsHtmlSpace(b) && b != '=' && b != '>' && b != '/' then Stop(1326)
    else
      var valid := ValidateAttributeName(a);
      if valid.Stop? then valid
      else if IsHtmlSpace(b) then Next(valid.auto.(state := AfterAttributeName))
      else if b == '=' then Next(valid.auto.(state := BeforeAttributeValue))
      else if b == '>' then FinishOpenTag(r, valid.auto)
      else Next(EnterSelfClosing(valid.auto))
  }

  function StepAfterAttributeName(r: Rules, a: Automaton, b: char): Outcome {
    if IsHtmlSpace(b) then Next(a)
    else if b == '=' then Next(a.(state := BeforeAttributeValue))
    else if IsAttributeNameStart(b) then Next(BeginAttribute(a, b))
    else if b == '>' then FinishOpenTag(r, a)
    else if b == '/' then Next(EnterSelfClosing(a)) else Stop(1327)
  }

  function StepBeforeAttributeValue(a: Automaton, b: char): Outcome {
    if IsHtmlSpace(b) then Next(a)
    else if b == '"' then Next(a.(state := DoubleQuoted, value := NO_VALUE))
    else if b == '\'' then Next(a.(state := SingleQuoted, value := NO_VALUE)) else Stop(1328)
  }

  predicate ClosesQuote(s: State, b: char) { (s.DoubleQuoted? && b == '"') || (s.SingleQuoted? && b == '\'') }

  function StepQuoted(r: Rules, a: Automaton, b: char): Outcome
    requires Quoted(a.state)
  {
    if ClosesQuote(a.state, b) then FinishAttributeValue(r, a)
    else if b == '<' then Stop(1329)
    else Next(a.(value := a.value.(literal := a.value.literal + [b])))
  }

  function StepEndTag(r: Rules, a: Automaton, b: char): Outcome
    requires InEndTag(a.state)
  {
    match a.state
    case EndTagName =>
      if IsTagNameChar(b) then Next(GrowTag(a, b))
      else if IsHtmlSpace(b) && a.element.tag != "" then Next(a.(state := AfterEndTagName))
      else if b == '>' && a.element.tag != "" then FinishCloseTag(r, a) else Stop(1331)
    case AfterEndTagName =>
      if IsHtmlSpace(b) then Next(a) else if b != '>' then Stop(1332) else FinishCloseTag(r, a)
  }

  function StepRaw(r: Rules, a: Automaton, b: char): Outcome
    requires InRaw(a.state)
  {
    match a.state
    case RawText => Next(if b == '<' then a.(state := RawAfterLT) else a)
    case RawAfterLT =>
      if b == '/' then Next(a.(raw := a.raw.(endName := ""), state := RawEndTagName))
      else if b != '<' then Next(a.(state := RawText)) else Next(a)
    case RawEndTagName =>
      if IsTagNameChar(b) then Next(a.(raw := a.raw.(endName := a.raw.endName + [Lower(b)])))
      else if a.raw.endName != a.raw.tag then Next(a.(state := if b == '<' then RawAfterLT else RawText))
      else if b == '>' then FinishRawClose(r, a)
      else Next(a.(state := if IsHtmlSpace(b) then RawAfterEndTagName else RawText))
    case RawAfterEndTagName =>
      if IsHtmlSpace(b) then Next(a) else if b != '>' then Stop(1333) else FinishRawClose(r, a)
  }

  function Dispatch(r: Rules, a: Automaton, b: char): Outcome {
    if InContent(a.state) then StepContent(a, b)
    else if BetweenAttributes(a.state) then StepTag(r, a, b)
    else if a.state.AttributeName? then StepAttributeName(r, a, b)
    else if a.state.AfterAttributeName? then StepAfterAttributeName(r, a, b)
    else if a.state.BeforeAttributeValue? then StepBeforeAttributeValue(a, b)
    else if Quoted(a.state) then StepQuoted(r, a, b)
    else if InEndTag(a.state) then StepEndTag(r, a, b)
    else StepRaw(r, a, b)
  }

  function Watch(a: Automaton, b: char): Automaton {
    if a.raw.tag == "script" then a.(raw := a.raw.(tail := Slide(a.raw.tail, b))) else a
  }

  predicate OpensComment(a: Automaton) { a.raw.tag == "script" && a.raw.tail == "<!--" }

  function Step(r: Rules, a: Automaton, b: char): Outcome {
    if r.scriptGuard && OpensComment(Watch(a, b)) then Stop(1357) else Dispatch(r, Watch(a, b), b)
  }

  // ---- Runs

  datatype Scan = Reached(auto: Automaton) | Rejected(code: nat, offset: nat)

  /** Runs over `s`; a diagnostic carries the offset of its character. */
  function Run(r: Rules, a: Automaton, s: string): Scan {
    if s == "" then Reached(a)
    else
      var n := |s| - 1;
      var before := Run(r, a, s[..n]);
      if before.Rejected? then before
      else match Step(r, before.auto, s[n])
        case Next(auto) => Reached(auto)
        case Stop(code) => Rejected(code, n)
  }

  function Shift(scan: Scan, n: nat): Scan {
    if scan.Rejected? then Rejected(scan.code, scan.offset + n) else scan
  }

  lemma {:induction false} RunConcat(r: Rules, a: Automaton, s: string, t: string)
    ensures Run(r, a, s + t) ==
            (var mid := Run(r, a, s); if mid.Rejected? then mid else Shift(Run(r, mid.auto, t), |s|))
  {
    if t == "" {
      assert s + t == s;
    } else {
      var n := |t| - 1;
      RunConcat(r, a, s, t[..n]);
      assert (s + t)[..|s + t| - 1] == s + t[..n];
      assert (s + t)[|s + t| - 1] == t[n];
    }
  }

  /** A run that is rejected in a prefix is rejected there. */
  lemma RunStuck(r: Rules, a: Automaton, s: string, k: nat)
    requires k <= |s| && Run(r, a, s[..k]).Rejected?
    ensures Run(r, a, s) == Run(r, a, s[..k])
  {
    assert s == s[..k] + s[k..];
    RunConcat(r, a, s[..k], s[k..]);
  }

  // ---- Characters outside ASCII

  /** Everything but the recorded text of an attribute value and of a script. */
  function Control(a: Automaton): Automaton { a.(value := a.value.(literal := ""), raw := a.raw.(tail := "")) }

  /** The automaton moves alike on all characters outside ASCII, and on two of them as on one. So the several bytes
      that encode a character move it as that character does, and the analyzer's bytes may be read as characters. */
  lemma NonAsciiMovesAlike(r: Rules, a: Automaton, c: char, d: char)
    requires !IsAscii(c) && !IsAscii(d)
    ensures match Step(r, a, c)
            case Stop(code) => Step(r, a, d) == Stop(code)
            case Next(b) =>
              && Step(r, a, d).Next? && Control(Step(r, a, d).auto) == Control(b)
              && Step(r, b, d).Next? && Control(Step(r, b, d).auto) == Control(b)
  {
    assert Watch(a, c).raw.tail != "<!--" || a.raw.tag != "script" by { NonAsciiIsNoOpening(a.raw.tail, c); }
    assert Watch(a, d).raw.tail != "<!--" || a.raw.tag != "script" by { NonAsciiIsNoOpening(a.raw.tail, d); }
    NonAsciiDispatch(r, Watch(a, c), Watch(a, d), c, d);
    if Step(r, a, c).Next? {
      var b := Step(r, a, c).auto;
      NonAsciiIsNoOpening(b.raw.tail, d);
      NonAsciiDispatchTwice(r, Watch(a, c), c, Watch(b, d), d);
    }
  }

  lemma NonAsciiIsNoOpening(tail: string, c: char)
    requires !IsAscii(c)
    ensures Slide(tail, c) != "<!--"
  {
    var t := Slide(tail, c);
    assert t[|t| - 1] == c;
  }

  lemma NonAsciiInTag(r: Rules, a: Automaton, b: Automaton, c: char, d: char)
    requires !IsAscii(c) && !IsAscii(d) && Control(a) == Control(b) && a.value == b.value && InTag(a.state)
    ensures match Dispatch(r, a, c)
            case Stop(code) => Dispatch(r, b, d) == Stop(code)
            case Next(next) => Dispatch(r, b, d).Next? && Control(Dispatch(r, b, d).auto) == Control(next)
  {
  }

  lemma NonAsciiDispatch(r: Rules, a: Automaton, b: Automaton, c: char, d: char)
    requires !IsAscii(c) && !IsAscii(d) && Control(a) == Control(b) && a.value == b.value
    ensures match Dispatch(r, a, c)
            case Stop(code) => Dispatch(r, b, d) == Stop(code)
            case Next(next) => Dispatch(r, b, d).Next? && Control(Dispatch(r, b, d).auto) == Control(next)
  {
    if InTag(a.state) { NonAsciiInTag(r, a, b, c, d); }
  }

  lemma NonAsciiTwiceInTag(r: Rules, a: Automaton, c: char, b: Automaton, d: char)
    requires !IsAscii(c) && !IsAscii(d) && Dispatch(r, a, c).Next? && Control(b) == Control(Dispatch(r, a, c).auto)
    requires InTag(a.state)
    ensures Dispatch(r, b, d).Next? && Control(Dispatch(r, b, d).auto) == Control(b)
  {
  }

  lemma NonAsciiDispatchTwice(r: Rules, a: Automaton, c: char, b: Automaton, d: char)
    requires !IsAscii(c) && !IsAscii(d) && Dispatch(r, a, c).Next? && Control(b) == Control(Dispatch(r, a, c).auto)
    ensures Dispatch(r, b, d).Next? && Control(Dispatch(r, b, d).auto) == Control(b)
  {
    if InTag(a.state) { NonAsciiTwiceInTag(r, a, c, b, d); }
  }
}
