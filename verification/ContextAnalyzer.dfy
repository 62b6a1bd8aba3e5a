/** The context analyzer as it runs: fields updated character by character, node contexts written in place. */
module ContextAnalyzer {
  import opened Text
  import opened Html
  import opened UrlPolicy
  import opened HtmlAutomaton
  import opened Analysis

  /** The run over the first `n` characters, read one after another. */
  function RunTo(r: Rules, a: Automaton, text: string, n: nat): Scan
    requires n <= |text|
  {
    if n == 0 then Reached(a)
    else
      var before := RunTo(r, a, text, n - 1);
      if before.Rejected? then before
      else match Step(r, before.auto, text[n - 1])
        case Next(auto) => Reached(auto)
        case Stop(code) => Rejected(code, n - 1)
  }

  lemma {:induction false} RunToIsRun(r: Rules, a: Automaton, text: string, n: nat)
    requires n <= |text|
    ensures RunTo(r, a, text, n) == Run(r, a, text[..n])
  {
    if n > 0 {
      RunToIsRun(r, a, text, n - 1);
      assert text[..n][..n - 1] == text[..n - 1];
    }
  }

  /** The run over a text is the run over the part that was read, once that has failed or is all of it. */
  lemma RunToDecides(r: Rules, a: Automaton, text: string, n: nat)
    requires n <= |text| && (n == |text| || RunTo(r, a, text, n).Rejected?)
    ensures RunTo(r, a, text, n) == Run(r, a, text)
  {
    RunToIsRun(r, a, text, n);
    if n == |text| { assert text[..n] == text; } else { RunStuck(r, a, text, n); }
  }

  class ContextAnalyzer {
    const rules: Rules
    var state: State
    var currentTag: string
    var currentAttr: string
    var stack: seq<string>
    var selfClosing: bool
    var commentDash: nat
    var rawTag: string
    var rawEndName: string
    var scriptTail: string
    var attributes: map<string, string>
    var seenAttrs: set<string>
    var attrLiteral: string
    var attrDynamicNodes: seq<nat>
    var attrFirstDynamic: int
    var attrDynamicPrefix: string

    /** The automaton the fields hold. */
    function Snapshot(): Automaton
      reads this
    {
      Automaton(
        state,
        Element(currentTag, currentAttr, selfClosing, attributes, seenAttrs),
        Value(attrLiteral, attrDynamicNodes, attrFirstDynamic, attrDynamicPrefix),
        Raw(rawTag, rawEndName, scriptTail),
        stack,
        commentDash)
    }

    /** The fields are where the transition leads, or `problem` is the diagnostic it stops with. */
    ghost predicate Took(o: Outcome, problem: Option<nat>)
      reads this
    {
      match o
      case Next(auto) => problem.None? && Snapshot() == auto
      case Stop(code) => problem == Some(code)
    }

    constructor (rules: Rules)
      ensures Snapshot() == INITIAL && this.rules == rules
    {
      this.rules := rules;
      state, currentTag, currentAttr, stack := Data, "", "", [];
      selfClosing, commentDash := false, 0;
      rawTag, rawEndName, scriptTail := "", "", "";
      attributes, seenAttrs := map[], {};
      attrLiteral, attrDynamicNodes, attrFirstDynamic, attrDynamicPrefix := "", [], -1, "";
    }

    method ResetAttributeValue()
      modifies this
      ensures Snapshot() == old(Snapshot()).(value := NO_VALUE)
    {
      attrLiteral, attrDynamicNodes, attrFirstDynamic, attrDynamicPrefix := "", [], -1, "";
    }

    method BeginAttributeAt(first: char)
      modifies this
      ensures Snapshot() == BeginAttribute(old(Snapshot()), first)
    {
      currentAttr := [Lower(first)];
      ResetAttributeValue();
      state := AttributeName;
    }

    method Validate() returns (problem: Option<nat>)
      modifies this
      ensures Took(ValidateAttributeName(old(Snapshot())), problem)
    {
      if currentAttr in seenAttrs {
        return Some(1347);
      }
      seenAttrs := seenAttrs + {currentAttr};
      if HasPrefix(currentAttr, "on") {
        return Some(1340);
      }
      return None;
    }

    method FinishValue() returns (problem: Option<nat>)
      modifies this
      ensures Took(FinishAttributeValue(rules, old(Snapshot())), problem)
    {
      if attrDynamicNodes == [] {
        attributes := attributes[currentAttr := Unescape(rules.lib, attrLiteral)];
      }
      if rules.urls && currentAttr in rules.tables.urlAttributes {
        if attrDynamicNodes == [] {
          if !SafeStaticUrl(rules.lib, attrLiteral) {
            return Some(1344);
          }
        } else if attrDynamicPrefix == "" {
          if |attrDynamicNodes| != 1 || attrLiteral != "" {
            return Some(1341);
          }
        } else if !SafeUrlPrefix(rules.lib, attrDynamicPrefix) {
          return Some(1342);
        }
      }
      state := BeforeAttribute;
      return None;
    }

    /** The checks at the end of an opening tag. */
    method CheckTag() returns (problem: Option<nat>)
      ensures problem == TagProblem(rules.tables, Snapshot().element)
    {
      if currentTag == "" {
        return Some(1350);
      }
      if currentTag in rules.tables.foreignElements {
        return Some(1355);
      }
      if currentTag in rules.tables.unsupportedElements {
        return Some(1356);
      }
      if currentTag == "meta" && "http-equiv" in attributes && EqualFold(TrimSpace(attributes["http-equiv"]), "refresh") {
        return Some(1346);
      }
      if selfClosing && currentTag !in rules.tables.voidElements {
        return Some(1354);
      }
      return None;
    }

    method FinishOpen() returns (problem: Option<nat>)
      modifies this
      ensures Took(FinishOpenTag(rules, old(Snapshot())), problem)
    {
      problem := CheckTag();
      if problem.Some? {
        return;
      }
      if !selfClosing && currentTag !in rules.tables.voidElements {
        stack := stack + [currentTag];
      }
      if !selfClosing && currentTag in rules.tables.rawElements {
        rawTag, scriptTail, state := currentTag, "", RawText;
      } else {
        state := Data;
      }
      currentAttr := "";
    }

    method FinishClose() returns (problem: Option<nat>)
      modifies this
      ensures Took(FinishCloseTag(rules, old(Snapshot())), problem)
    {
      if currentTag in rules.tables.voidElements {
        return Some(1351);
      }
      if rules.balance && (stack == [] || stack[|stack| - 1] != currentTag) {
        return Some(1352);
      }
      if stack != [] {
        stack := stack[..|stack| - 1];
      }
      state, currentTag := Data, "";
      return None;
    }

    method FinishRaw() returns (problem: Option<nat>)
      modifies this`state, this`currentTag, this`rawTag, this`rawEndName, this`scriptTail, this`stack
      ensures Took(FinishRawClose(rules, old(Snapshot())), problem)
    {
      if rules.balance && (stack == [] || stack[|stack| - 1] != rawTag) {
        return Some(1353);
      }
      if stack != [] {
        stack := stack[..|stack| - 1];
      }
      state, currentTag := Data, "";
      ClearRaw();
      return None;
    }

    method ClearRaw()
      modifies this`rawTag, this`rawEndName, this`scriptTail
      ensures rawTag == "" && rawEndName == "" && scriptTail == ""
    {
      rawTag, rawEndName, scriptTail := "", "", "";
    }

    method BeginTag(b: char)
      modifies this`state, this`currentTag, this`attributes, this`seenAttrs, this`selfClosing
      ensures state == TagName && currentTag == [Lower(b)] && attributes == map[] && seenAttrs == {} && !selfClosing
    {
      currentTag, attributes, seenAttrs, selfClosing := [Lower(b)], map[], {}, false;
      state := TagName;
    }

    method ConsumeContent(b: char) returns (problem: Option<nat>)
      requires InContent(state)
      modifies this`state, this`currentTag, this`attributes, this`seenAttrs, this`selfClosing, this`commentDash
      ensures Took(StepContent(old(Snapshot()), b), problem)
    {
      problem := None;
      match state {
        case Data =>
          if b == '<' { state := AfterLT; }
        case AfterLT =>
          if b == '!' {
            state := DeclarationStart;
          } else if b == '/' {
            currentTag, state := "", EndTagName;
          } else if IsLetter(b) {
            BeginTag(b);
          } else {
            problem := Some(1320);
          }
        case DeclarationStart =>
          if b == '-' { state := DeclarationDash; } else if IsLetter(b) { state := Declaration; } else { problem := Some(1321); }
        case DeclarationDash =>
          if b != '-' { problem := Some(1322); } else { commentDash, state := 0, Comment; }
        case Declaration =>
          if b == '>' { state := Data; } else if b == '<' { problem := Some(1323); }
        case Comment =>
          if b == '-' {
            commentDash := commentDash + 1;
          } else if b == '>' && commentDash >= 2 {
            commentDash, state := 0, Data;
          } else {
            commentDash := 0;
          }
      }
    }

    method ConsumeTag(b: char) returns (problem: Option<nat>)
      requires BetweenAttributes(state)
      modifies this
      ensures Took(StepTag(rules, old(Snapshot()), b), problem)
    {
      problem := None;
      match state {
        case TagName =>
          if IsTagNameChar(b) {
            currentTag := currentTag + [Lower(b)];
          } else if IsHtmlSpace(b) {
            state := BeforeAttribute;
          } else if b == '>' {
            problem := FinishOpen();
          } else if b == '/' {
            selfClosing, state := true, SelfClosing;
          } else {
            problem := Some(1324);
          }
        case BeforeAttribute =>
          if IsHtmlSpace(b) {
          } else if IsAttributeNameStart(b) {
            BeginAttributeAt(b);
          } else if b == '>' {
            problem := FinishOpen();
          } else if b == '/' {
            selfClosing, state := true, SelfClosing;
          } else {
            problem := Some(1325);
          }
        case SelfClosing =>
          if IsHtmlSpace(b) {
          } else if b != '>' {
            problem := Some(1330);
          } else {
            problem := FinishOpen();
          }
      }
    }

    method ConsumeAttributeName(b: char) returns (problem: Option<nat>)
      modifies this
      ensures Took(StepAttributeName(rules, old(Snapshot()), b), problem)
    {
      problem := None;
      if IsAttributeNameChar(b) {
        currentAttr := currentAttr + [Lower(b)];
      } else if IsHtmlSpace(b) {
        problem := Validate();
        if problem.None? { state := AfterAttributeName; }
      } else if b == '=' {
        problem := Validate();
        if problem.None? { state := BeforeAttributeValue; }
      } else if b == '>' {
        problem := Validate();
        if problem.None? { problem := FinishOpen(); }
      } else if b == '/' {
        problem := Validate();
        if problem.None? { selfClosing, state := true, SelfClosing; }
      } else {
        problem := Some(1326);
      }
    }

    method ConsumeAfterAttributeName(b: char) returns (problem: Option<nat>)
      modifies this
      ensures Took(StepAfterAttributeName(rules, old(Snapshot()), b), problem)
    {
      problem := None;
      if IsHtmlSpace(b) {
      } else if b == '=' {
        state := BeforeAttributeValue;
      } else if IsAttributeNameStart(b) {
        BeginAttributeAt(b);
      } else if b == '>' {
        problem := FinishOpen();
      } else if b == '/' {
        selfClosing, state := true, SelfClosing;
      } else {
        problem := Some(1327);
      }
    }

    method ConsumeBeforeValue(b: char) returns (problem: Option<nat>)
      modifies this
      ensures Took(StepBeforeAttributeValue(old(Snapshot()), b), problem)
    {
      problem := None;
      if IsHtmlSpace(b) {
      } else if b == '"' {
        ResetAttributeValue();
        state := DoubleQuoted;
      } else if b == '\'' {
        ResetAttributeValue();
        state := SingleQuoted;
      } else {
        problem := Some(1328);
      }
    }

    method ConsumeQuoted(b: char) returns (problem: Option<nat>)
      requires Quoted(state)
      modifies this
      ensures Took(StepQuoted(rules, old(Snapshot()), b), problem)
    {
      problem := None;
      if (state == DoubleQuoted && b == '"') || (state == SingleQuoted && b == '\'') {
        problem := FinishValue();
      } else if b == '<' {
        problem := Some(1329);
      } else {
        attrLiteral := attrLiteral + [b];
      }
    }

    method ConsumeEndTag(b: char) returns (problem: Option<nat>)
      requires InEndTag(state)
      modifies this
      ensures Took(StepEndTag(rules, old(Snapshot()), b), problem)
    {
      problem := None;
      match state {
        case EndTagName =>
          if IsTagNameChar(b) {
            currentTag := currentTag + [Lower(b)];
          } else if IsHtmlSpace(b) && currentTag != "" {
            state := AfterEndTagName;
          } else if b == '>' && currentTag != "" {
            problem := FinishClose();
          } else {
            problem := Some(1331);
          }
        case AfterEndTagName =>
          if IsHtmlSpace(b) {
          } else if b != '>' {
            problem := Some(1332);
          } else {
            problem := FinishClose();
          }
      }
    }

    method ConsumeRaw(b: char) returns (problem: Option<nat>)
      requires InRaw(state)
      modifies this
      ensures Took(StepRaw(rules, old(Snapshot()), b), problem)
    {
      problem := None;
      match state {
        case RawText =>
          if b == '<' { state := RawAfterLT; }
        case RawAfterLT =>
          if b == '/' { rawEndName, state := "", RawEndTagName; } else if b != '<' { state := RawText; }
        case RawEndTagName =>
          if IsTagNameChar(b) {
            rawEndName := rawEndName + [Lower(b)];
          } else if rawEndName != rawTag {
            state := RawText;
            if b == '<' { state := RawAfterLT; }
          } else if b == '>' {
            problem := FinishRaw();
          } else if IsHtmlSpace(b) {
            state := RawAfterEndTagName;
          } else {
            state := RawText;
          }
        case RawAfterEndTagName =>
          if IsHtmlSpace(b) {
          } else if b != '>' {
            problem := Some(1333);
          } else {
            problem := FinishRaw();
          }
      }
    }

    method ConsumeByState(b: char) returns (problem: Option<nat>)
      modifies this
      ensures Took(Dispatch(rules, old(Snapshot()), b), problem)
    {
      if InContent(state) { problem := ConsumeContent(b); }
      else if BetweenAttributes(state) { problem := ConsumeTag(b); }
      else if state == AttributeName { problem := ConsumeAttributeName(b); }
      else if state == AfterAttributeName { problem := ConsumeAfterAttributeName(b); }
      else if state == BeforeAttributeValue { problem := ConsumeBeforeValue(b); }
      else if Quoted(state) { problem := ConsumeQuoted(b); }
      else if InEndTag(state) { problem := ConsumeEndTag(b); }
      else { problem := ConsumeRaw(b); }
    }

    method Consume(b: char) returns (problem: Option<nat>)
      modifies this
      ensures Took(Step(rules, old(Snapshot()), b), problem)
    {
      if rawTag == "script" {
        scriptTail := scriptTail + Widen(b);
        if |scriptTail| > 4 {
          scriptTail := scriptTail[|scriptTail| - 4..];
        }
        if rules.scriptGuard && scriptTail == "<!--" {
          return Some(1357);
        }
      }
      assert Snapshot() == Watch(old(Snapshot()), b);
      problem := ConsumeByState(b);
    }

    /** Consumes the next character of a text, `a` being where the text began. */
    method ConsumeAt(text: string, index: nat, ghost a: Automaton) returns (problem: Option<nat>)
      requires index < |text| && RunTo(rules, a, text, index) == Reached(Snapshot())
      modifies this
      ensures match problem
              case None => RunTo(rules, a, text, index + 1) == Reached(Snapshot())
              case Some(code) => RunTo(rules, a, text, index + 1) == Rejected(code, index)
    {
      problem := Consume(text[index]);
    }

    /** Consumes a text up to its end, or to the character that is refused. */
    method ConsumeAll(text: string) returns (problem: Option<nat>, read: nat)
      modifies this
      ensures problem.None? || read > 0
      ensures Run(rules, old(Snapshot()), text)
           == if problem.None? then Reached(Snapshot()) else Rejected(problem.value, read - 1)
    {
      ghost var a := Snapshot();
      problem, read := None, 0;
      while read < |text| && problem.None?
        invariant read <= |text| && (problem.Some? ==> read > 0)
        invariant RunTo(rules, a, text, read) ==
          if problem.None? then Reached(Snapshot()) else Rejected(problem.value, read - 1)
        decreases |text| - read
      {
        problem := ConsumeAt(text, read, a);
        read := read + 1;
      }
      RunToDecides(rules, a, text, read);
    }

    /** Consumes a text node that starts at `start`; the diagnostic carries the offset of its character. */
    method ConsumeText(text: string, start: nat) returns (problem: Option<Diagnostic>)
      modifies this
      ensures match Run(rules, old(Snapshot()), text)
              case Reached(auto) => problem.None? && Snapshot() == auto
              case Rejected(code, offset) => problem == Some(Diagnostic(code, start + offset))
    {
      var code, read := ConsumeAll(text);
      return if code.None? then None else Some(Diagnostic(code.value, start + read - 1));
    }

    /** Remembers an expression inside an attribute value. */
    method Note(index: nat)
      modifies this
      ensures Snapshot() == NoteExpression(old(Snapshot()), index)
    {
      if Quoted(state) {
        if attrFirstDynamic < 0 {
          attrFirstDynamic, attrDynamicPrefix := index, attrLiteral;
        }
        attrDynamicNodes := attrDynamicNodes + [index];
      }
    }

    /** Analyses node `index` and gives back its annotated form. */
    method AnalyzeNode(node: Node, index: nat) returns (annotated: Node, problem: Option<Diagnostic>)
      modifies this
      ensures match NodeStep(rules, old(Snapshot()), node, index)
              case Reached(auto) =>
                problem.None? && Snapshot() == auto && annotated == AssignContext(rules.tables, old(Snapshot()), node)
              case Rejected(code, offset) => problem == Some(Diagnostic(code, offset)) && annotated == node
    {
      annotated, problem := node, None;
      match node.kind {
        case TextNode =>
          problem := ConsumeText(node.text, node.offset);
        case CommentNode =>
        case StatementNode =>
          if state != Data {
            problem := Some(Diagnostic(1301, node.offset));
          } else {
            annotated := node.(context := NoContext);
          }
        case ComponentNode =>
          if state != Data {
            problem := Some(Diagnostic(1302, node.offset));
          } else {
            annotated := node.(context := HtmlText);
          }
        case ExpressionNode =>
          var code := ExpressionProblem(rules.tables, Snapshot());
          if code.Some? {
            problem := Some(Diagnostic(code.value, node.offset));
          } else {
            annotated := node.(context := DynamicContext(rules.tables, Snapshot()));
            Note(index);
          }
      }
    }
  }

  lemma {:induction false} RejectionStays(r: Rules, nodes: seq<Node>, m: nat, n: nat)
    requires m <= n <= |nodes| && Before(r, nodes, m).Rejected?
    ensures Before(r, nodes, n) == Before(r, nodes, m)
  {
    if m < n { RejectionStays(r, nodes, m, n - 1); }
  }

  /** The nodes once those before `index` have been annotated. */
  predicate IsAnnotatedTo(r: Rules, source: seq<Node>, now: seq<Node>, index: nat) {
    && |now| == |source| && index <= |source|
    && forall j {:trigger now[j]} | 0 <= j < |source| ::
         now[j] == if j < index then AnnotatedNode(r, source, j) else source[j]
  }

  lemma OneMoreAnnotated(r: Rules, source: seq<Node>, now: seq<Node>, index: nat, node: Node)
    requires index < |source| && IsAnnotatedTo(r, source, now, index) && node == AnnotatedNode(r, source, index)
    ensures IsAnnotatedTo(r, source, now[index := node], index + 1)
  {
  }

  lemma AllAnnotated(r: Rules, source: seq<Node>, now: seq<Node>)
    requires IsAnnotatedTo(r, source, now, |source|)
    ensures now == Annotated(r, source)
  {
  }

  /** A rejected node and those behind it stay as they are. */
  lemma NothingAfterRejection(r: Rules, source: seq<Node>, now: seq<Node>, m: nat)
    requires m < |source| && Before(r, source, m + 1).Rejected? && IsAnnotatedTo(r, source, now, m + 1)
    ensures now == Annotated(r, source) && Before(r, source, |source|) == Before(r, source, m + 1)
  {
    forall j | m < j < |source| ensures now[j] == AnnotatedNode(r, source, j) {
      RejectionStays(r, source, m + 1, j + 1);
    }
    RejectionStays(r, source, m + 1, |source|);
  }

  /** Analyses node `index` of the nodes that were `source`, in place. */
  method AnalyzeInPlace(analyzer: ContextAnalyzer, nodes: array<Node>, index: nat, ghost source: seq<Node>)
      returns (problem: Option<Diagnostic>)
    requires index < nodes.Length && IsAnnotatedTo(analyzer.rules, source, nodes[..], index)
    requires Before(analyzer.rules, source, index) == Reached(analyzer.Snapshot())
    modifies analyzer, nodes
    ensures IsAnnotatedTo(analyzer.rules, source, nodes[..], index + 1)
    ensures Before(analyzer.rules, source, index + 1)
         == if problem.None? then Reached(analyzer.Snapshot()) else Rejected(problem.value.code, problem.value.offset)
  {
    ghost var now := nodes[..];
    var annotated;
    assert nodes[index] == now[index];
    annotated, problem := analyzer.AnalyzeNode(nodes[index], index);
    nodes[index] := annotated;
    OneMoreAnnotated(analyzer.rules, source, now, index, annotated);
    assert nodes[..] == now[index := annotated];
  }

  /** analyzeContexts: writes the context of every node in place, up to the first rejected one, and reports. */
  method AnalyzeContexts(rules: Rules, nodes: array<Node>, size: nat) returns (diagnostics: seq<Diagnostic>)
    modifies nodes
    ensures nodes[..] == Annotated(rules, old(nodes[..]))
    ensures diagnostics == Diagnostics(rules, old(nodes[..]), size)
  {
    var analyzer := new ContextAnalyzer(rules);
    ghost var source := nodes[..];
    for index := 0 to nodes.Length
      invariant fresh(analyzer) && analyzer.rules == rules
      invariant Before(rules, source, index) == Reached(analyzer.Snapshot())
      invariant IsAnnotatedTo(rules, source, nodes[..], index)
    {
      var problem := AnalyzeInPlace(analyzer, nodes, index, source);
      if problem.Some? {
        NothingAfterRejection(rules, source, nodes[..], index);
        return [problem.value];
      }
    }
    AllAnnotated(rules, source, nodes[..]);
    diagnostics := [];
    if analyzer.state != Data {
      diagnostics := diagnostics + [Diagnostic(1310, size)];
    }
    if analyzer.stack != [] {
      diagnostics := diagnostics + [Diagnostic(1311, size)];
    }
  }
}
