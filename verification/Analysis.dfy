/** The static analysis of a template: the automaton over its nodes, and the context given to every node. */
module Analysis {
  import opened Text
  import opened HtmlAutomaton

  datatype Kind = TextNode | StatementNode | ExpressionNode | ComponentNode | CommentNode

  datatype Context = HtmlText | Rcdata | Attr | Url | Js | Css | NoContext

  datatype Node = Node(kind: Kind, text: string, context: Context, offset: nat)

  datatype Diagnostic = Diagnostic(code: nat, offset: nat)

  function DynamicContext(t: Tables, a: Automaton): Context {
    match a.state
    case Data => HtmlText
    case DoubleQuoted | SingleQuoted => if a.element.attr in t.urlAttributes then Url else Attr
    case RawText =>
      if a.raw.tag == "script" then Js
      else if a.raw.tag == "style" then Css
      else if a.raw.tag == "textarea" || a.raw.tag == "title" then Rcdata else NoContext
    case _ => NoContext
  }

  function ExpressionProblem(t: Tables, a: Automaton): Option<nat> {
    if a.state.BeforeAttributeValue? then Some(1328)
    else if Quoted(a.state) && a.element.attr in t.unsupportedDynamicAttributes then Some(1345)
    else if Quoted(a.state) && a.element.tag == "meta" && a.element.attr == "http-equiv" then Some(1346)
    else if Quoted(a.state) && a.element.attr == "style" then Some(1343)
    else if DynamicContext(t, a).NoContext? then Some(1303)
    else None
  }

  /** Remembers an expression inside an attribute value, and before the first one the literal text so far. */
  function NoteExpression(a: Automaton, index: nat): Automaton {
    if !Quoted(a.state) then a
    else
      var v := a.value;
      var v := if v.first < 0 then v.(first := index, prefix := v.literal) else v;
      a.(value := v.(nodes := v.nodes + [index]))
  }

  /** The automaton after one more node. */
  function NodeStep(r: Rules, a: Automaton, node: Node, index: nat): Scan {
    match node.kind
    case TextNode => Shift(Run(r, a, node.text), node.offset)
    case CommentNode => Reached(a)
    case StatementNode => if a.state.Data? then Reached(a) else Rejected(1301, node.offset)
    case ComponentNode => if a.state.Data? then Reached(a) else Rejected(1302, node.offset)
    case ExpressionNode =>
      match ExpressionProblem(r.tables, a)
      case Some(code) => Rejected(code, node.offset)
      case None => Reached(NoteExpression(a, index))
  }

  /** The automaton after the first `n` nodes. */
  function Before(r: Rules, nodes: seq<Node>, n: nat): Scan
    requires n <= |nodes|
  {
    if n == 0 then Reached(INITIAL)
    else
      var before := Before(r, nodes, n - 1);
      if before.Rejected? then before else NodeStep(r, before.auto, nodes[n - 1], n - 1)
  }

  lemma BeforeReached(r: Rules, nodes: seq<Node>, m: nat, n: nat)
    requires m <= n <= |nodes| && Before(r, nodes, n).Reached?
    ensures Before(r, nodes, m).Reached?
  {
    if m < n { BeforeReached(r, nodes, m, n - 1); }
  }

  function AssignContext(t: Tables, a: Automaton, node: Node): Node {
    match node.kind
    case TextNode | CommentNode => node
    case StatementNode => node.(context := NoContext)
    case ComponentNode => node.(context := HtmlText)
    case ExpressionNode => node.(context := DynamicContext(t, a))
  }

  /** Node `i` as the analysis leaves it: nodes from a rejected one on are not touched. */
  function AnnotatedNode(r: Rules, nodes: seq<Node>, i: nat): Node
    requires i < |nodes|
  {
    if Before(r, nodes, i + 1).Reached? && Before(r, nodes, i).Reached?
    then AssignContext(r.tables, Before(r, nodes, i).auto, nodes[i]) else nodes[i]
  }

  function Annotated(r: Rules, nodes: seq<Node>): (ir: seq<Node>)
    ensures |ir| == |nodes| && forall i | 0 <= i < |nodes| :: ir[i] == AnnotatedNode(r, nodes, i)
  {
    seq(|nodes|, i requires 0 <= i < |nodes| => AnnotatedNode(r, nodes, i))
  }

  /** What the analysis reports for a source of `size` characters. */
  function Diagnostics(r: Rules, nodes: seq<Node>, size: nat): seq<Diagnostic> {
    match Before(r, nodes, |nodes|)
    case Rejected(code, offset) => [Diagnostic(code, offset)]
    case Reached(a) =>
      (if a.state.Data? then [] else [Diagnostic(1310, size)])
      + (if a.stack == [] then [] else [Diagnostic(1311, size)])
  }

  predicate Accepted(r: Rules, nodes: seq<Node>) {
    var end := Before(r, nodes, |nodes|);
    end.Reached? && end.auto.state.Data? && end.auto.stack == []
  }

  lemma AcceptedMeansNoDiagnostics(r: Rules, nodes: seq<Node>, size: nat)
    ensures Accepted(r, nodes) <==> Diagnostics(r, nodes, size) == []
  {
  }

  /** The automaton is inside a raw-text element exactly when it remembers which. */
  predicate RawMatches(a: Automaton) { a.raw.tag != "" <==> InRaw(a.state) }

  lemma RawStepKeepsMatch(r: Rules, a: Automaton, c: char)
    requires RawMatches(a) && InRaw(a.state) && StepRaw(r, a, c).Next?
    ensures RawMatches(StepRaw(r, a, c).auto)
  {
  }

  lemma TagStepKeepsMatch(r: Rules, a: Automaton, c: char)
    requires RawMatches(a) && BetweenAttributes(a.state) && StepTag(r, a, c).Next?
    ensures RawMatches(StepTag(r, a, c).auto)
  {
  }

  lemma NameStepKeepsMatch(r: Rules, a: Automaton, c: char)
    requires RawMatches(a) && NamesAttribute(a.state) && Dispatch(r, a, c).Next?
    ensures RawMatches(Dispatch(r, a, c).auto)
  {
  }

  lemma StepKeepsRawMatch(r: Rules, a: Automaton, c: char)
    requires RawMatches(a) && Step(r, a, c).Next?
    ensures RawMatches(Step(r, a, c).auto)
  {
    if InRaw(a.state) { RawStepKeepsMatch(r, Watch(a, c), c); }
    if BetweenAttributes(a.state) { TagStepKeepsMatch(r, Watch(a, c), c); }
    if NamesAttribute(a.state) { NameStepKeepsMatch(r, Watch(a, c), c); }
  }

  lemma {:induction false} RunKeepsRawMatch(r: Rules, a: Automaton, s: string)
    requires RawMatches(a) && Run(r, a, s).Reached?
    ensures RawMatches(Run(r, a, s).auto)
  {
    if s != "" {
      var t := s[..|s| - 1];
      RunKeepsRawMatch(r, a, t);
      StepKeepsRawMatch(r, Run(r, a, t).auto, s[|s| - 1]);
    }
  }

  lemma {:induction false} BeforeMatches(r: Rules, nodes: seq<Node>, n: nat)
    requires n <= |nodes| && Before(r, nodes, n).Reached?
    ensures RawMatches(Before(r, nodes, n).auto)
  {
    if n > 0 {
      BeforeMatches(r, nodes, n - 1);
      if nodes[n - 1].kind.TextNode? { RunKeepsRawMatch(r, Before(r, nodes, n - 1).auto, nodes[n - 1].text); }
    }
  }
}
