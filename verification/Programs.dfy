/** Whole pages: trees of components that run inside one another, each of them going through its template as Go's
    control flow leads, up to the end or to the first value that is refused. */
module Programs {
  import opened Text
  import opened Html
  import opened HtmlAutomaton
  import opened Agreement
  import opened Analysis
  import opened Runtime
  import opened Rendering

  /** One run of a component: its template, and the stretches it executes with what fills their holes. */
  datatype Program = Program(nodes: seq<Node>, passes: seq<Execution>)

  datatype Execution = Execution(lo: nat, hi: nat, slots: seq<Slot>)

  datatype Slot = Given(fill: Fill) | Nested(program: Program)

  /** What has been written, and what stopped the writing, if anything did. */
  datatype Emission = Emission(text: string, refusal: Option<string>)

  const NOTHING_YET := Emission("", None)

  function Then(before: Emission, next: Emission): Emission {
    if before.refusal.Some? then before else Emission(before.text + next.text, next.refusal)
  }

  /** What one node writes: a refused value nothing, a component what it wrote until it ended or was stopped. */
  function RunSlot(r: Rules, node: Node, slot: Slot): Emission
    decreases slot, 0
  {
    match slot
    case Nested(program) => RunPasses(r, program, |program.passes|)
    case Given(fill) =>
      match WriteNode(r.lib, node, fill)
      case Bytes(text) => Emission(text, None)
      case Refused(reason) => Emission("", Some(reason))
  }

  /** What a stretch writes before it comes to node `i`. */
  function RunNodes(r: Rules, ir: seq<Node>, e: Execution, i: nat): Emission
    requires i <= |ir| && i <= |e.slots|
    decreases e, i
  {
    if i <= e.lo then NOTHING_YET else Then(RunNodes(r, ir, e, i - 1), RunSlot(r, ir[i - 1], e.slots[i - 1]))
  }

  /** What the first `k` passes write. */
  function RunPasses(r: Rules, program: Program, k: nat): Emission
    requires k <= |program.passes|
    decreases program, k
  {
    if k == 0 then NOTHING_YET
    else
      var e := program.passes[k - 1];
      var last :=
        if e.hi <= |program.nodes| && e.hi <= |e.slots| then RunNodes(r, Annotated(r, program.nodes), e, e.hi)
        else Emission("", Some("slots"));
      Then(RunPasses(r, program, k - 1), last)
  }

  function RunProgram(r: Rules, program: Program): Emission { RunPasses(r, program, |program.passes|) }

  /** The nodes from `lo` up to `hi` are a stretch between two statements, or an end of the template. */
  predicate IsStretch(nodes: seq<Node>, lo: nat, hi: nat) {
    && lo <= hi <= |nodes|
    && (lo == 0 || nodes[lo - 1].kind.StatementNode?)
    && (hi == |nodes| || nodes[hi].kind.StatementNode?)
  }

  /** The template straight through, once. */
  predicate IsWhole(program: Program) {
    |program.passes| == 1 && program.passes[0].lo == 0 && program.passes[0].hi == |program.nodes|
  }

  /** Every template is accepted, every pass is a stretch, and every hole in it is filled by its type. Tags need not be
      balanced over stretches in any order, only over a whole template. */
  ghost predicate WellFormed(r: Rules, program: Program, balance: bool)
    decreases program, 0
  {
    && Accepted(r, program.nodes) && (balance ==> IsWhole(program))
    && forall k | 0 <= k < |program.passes| :: IsExecutable(r, program.nodes, program.passes[k], balance)
  }

  ghost predicate IsExecutable(r: Rules, nodes: seq<Node>, e: Execution, balance: bool)
    decreases e, 0
  {
    IsStretch(nodes, e.lo, e.hi) && |e.slots| == |nodes|
    && forall i | e.lo <= i < e.hi :: Suits(r, nodes, i, e.slots[i], balance)
  }

  ghost predicate Suits(r: Rules, nodes: seq<Node>, i: nat, slot: Slot, balance: bool)
    requires i < |nodes|
    decreases slot, 0
  {
    match slot
    case Nested(child) => nodes[i].kind.ComponentNode? && WellFormed(r, child, balance)
    case Given(fill) => Fits(AnnotatedNode(r, nodes, i), fill) && Trustworthy(r, fill, balance)
  }

  /** Around a statement the analysis is between tags. */
  lemma StretchEndsInData(r: Rules, nodes: seq<Node>, lo: nat, hi: nat)
    requires Accepted(r, nodes) && IsStretch(nodes, lo, hi)
    ensures Before(r, nodes, lo).Reached? && Before(r, nodes, lo).auto.state.Data? && Before(r, nodes, lo).auto.raw.tag == ""
    ensures Before(r, nodes, hi).Reached? && Before(r, nodes, hi).auto.state.Data? && Before(r, nodes, hi).auto.raw.tag == ""
  {
    BeforeReached(r, nodes, lo, |nodes|);
    BeforeReached(r, nodes, hi, |nodes|);
    if hi < |nodes| { BeforeReached(r, nodes, hi + 1, |nodes|); }
    if lo > 0 { BeforeReached(r, nodes, lo - 1, |nodes|); }
    BeforeMatches(r, nodes, lo);
    BeforeMatches(r, nodes, hi);
  }

  // ---- Reading what has been written, to the end or not

  lemma NodesStep(r: Rules, ir: seq<Node>, e: Execution, i: nat)
    requires e.lo <= i < |ir| && i < |e.slots|
    ensures RunNodes(r, ir, e, i + 1) == Then(RunNodes(r, ir, e, i), RunSlot(r, ir[i], e.slots[i]))
  {
  }

  lemma PassHolds(r: Rules, program: Program, k: nat, e: Execution)
    requires k < |program.passes| && program.passes[k] == e && e.hi <= |program.nodes| == |e.slots|
    ensures RunPasses(r, program, k + 1)
         == Then(RunPasses(r, program, k), RunNodes(r, Annotated(r, program.nodes), e, e.hi))
  {
  }

  lemma NothingReads(r: Rules, a: Automaton, b: Automaton, balance: bool, base: seq<string>)
    requires Agree(a, b, balance, base)
    ensures Reads(Markup(r, balance), b, "", base, b)
  {
  }

  /** A node of a template that is accepted is stepped over. */
  lemma NodeIsStepped(r: Rules, nodes: seq<Node>, i: nat)
    requires Accepted(r, nodes) && i < |nodes|
    ensures Before(r, nodes, i).Reached? && NodeStep(r, Before(r, nodes, i).auto, nodes[i], i).Reached?
    ensures Before(r, nodes, i + 1) == NodeStep(r, Before(r, nodes, i).auto, nodes[i], i)
    ensures AnnotatedNode(r, nodes, i) == AssignContext(r.tables, Before(r, nodes, i).auto, nodes[i])
  {
    BeforeReached(r, nodes, i, |nodes|);
    BeforeReached(r, nodes, i + 1, |nodes|);
  }

  lemma GivenReads(r: Rules, nodes: seq<Node>, i: nat, fill: Fill, b: Automaton, balance: bool, base: seq<string>)
    returns (c: Automaton)
    requires Sound(r.lib) && r.urls && r.balance && Accepted(r, nodes) && i < |nodes| && Before(r, nodes, i).Reached?
    requires Tracks(r, Before(r, nodes, i).auto, b, balance, base) && Suits(r, nodes, i, Given(fill), balance)
    ensures var o := RunSlot(r, AnnotatedNode(r, nodes, i), Given(fill));
            && Reads(Markup(r, balance), b, o.text, base, c) && Before(r, nodes, i + 1).Reached?
            && (o.refusal.None? ==> Tracks(r, Before(r, nodes, i + 1).auto, c, balance, base))
  {
    NodeIsStepped(r, nodes, i);
    if WriteNode(r.lib, AnnotatedNode(r, nodes, i), fill).Bytes? {
      c := NodeTracks(r, Before(r, nodes, i).auto, b, nodes[i], fill, i, balance, base);
    } else {
      c := b;
      NothingReads(r, Before(r, nodes, i).auto, b, balance, base);
    }
  }

  /** At a component node the analysis is between tags, and so is what has been read. */
  lemma ComponentStandsInData(r: Rules, nodes: seq<Node>, i: nat, b: Automaton, balance: bool, base: seq<string>)
    requires Accepted(r, nodes) && i < |nodes| && nodes[i].kind.ComponentNode? && Before(r, nodes, i).Reached?
    requires Agree(Before(r, nodes, i).auto, b, balance, base)
    ensures b.state.Data? && b.raw.tag == "" && Before(r, nodes, i).auto.state.Data?
    ensures Before(r, nodes, i + 1) == Before(r, nodes, i)
  {
    NodeIsStepped(r, nodes, i);
  }

  /** What was written inside a component is read along a trail, and when the component ended it has left no trace. */
  lemma InsideReads(r: Rules, a: Automaton, b: Automaton, s: string, c: Automaton, done: bool, balance: bool, base: seq<string>)
    requires a.state.Data? && Tracks(r, a, b, balance, base)
    requires Reads(Markup(r, balance), b, s, b.stack, c) && (done ==> IsBenignFrom(Markup(r, balance), b, s))
    ensures Reads(Markup(r, balance), b, s, base, c) && (done ==> Tracks(r, a, c, balance, base))
  {
    BaseIsBelow(r, a, b, balance, base, s);
  }

  /** One node, whatever fills it. */
  lemma {:induction false} SlotReads(r: Rules, nodes: seq<Node>, i: nat, slot: Slot, b: Automaton, balance: bool, base: seq<string>)
    returns (c: Automaton)
    requires Sound(r.lib) && r.urls && r.balance && Accepted(r, nodes) && i < |nodes| && Before(r, nodes, i).Reached?
    requires Tracks(r, Before(r, nodes, i).auto, b, balance, base) && Suits(r, nodes, i, slot, balance)
    ensures var o := RunSlot(r, AnnotatedNode(r, nodes, i), slot);
            && Reads(Markup(r, balance), b, o.text, base, c) && Before(r, nodes, i + 1).Reached?
            && (o.refusal.None? ==> Tracks(r, Before(r, nodes, i + 1).auto, c, balance, base))
    decreases slot, 0
  {
    match slot
    case Given(fill) => c := GivenReads(r, nodes, i, fill, b, balance, base);
    case Nested(child) =>
      ComponentStandsInData(r, nodes, i, b, balance, base);
      c := ProgramReads(r, child, b, balance);
      InsideReads(r, Before(r, nodes, i).auto, b, RunProgram(r, child).text, c, RunProgram(r, child).refusal.None?,
                  balance, base);
  }

  lemma {:induction false} NodesRead(r: Rules, nodes: seq<Node>, e: Execution, i: nat, b: Automaton, balance: bool, base: seq<string>)
    returns (c: Automaton)
    requires Sound(r.lib) && r.urls && r.balance && Accepted(r, nodes) && IsExecutable(r, nodes, e, balance)
    requires e.lo <= i <= e.hi && Before(r, nodes, e.lo).Reached? && Tracks(r, Before(r, nodes, e.lo).auto, b, balance, base)
    ensures var o := RunNodes(r, Annotated(r, nodes), e, i);
            && Reads(Markup(r, balance), b, o.text, base, c) && Before(r, nodes, i).Reached?
            && (o.refusal.None? ==> Tracks(r, Before(r, nodes, i).auto, c, balance, base))
    decreases e, i
  {
    var ir := Annotated(r, nodes);
    if i == e.lo {
      c := b;
      NothingReads(r, Before(r, nodes, i).auto, b, balance, base);
    } else {
      var n := i - 1;
      var before, next := RunNodes(r, ir, e, n), RunSlot(r, ir[n], e.slots[n]);
      var mid := NodesRead(r, nodes, e, n, b, balance, base);
      c := mid;
      NodesStep(r, ir, e, n);
      NodeIsStepped(r, nodes, n);
      if before.refusal.None? {
        assert Suits(r, nodes, n, e.slots[n], balance);
        c := SlotReads(r, nodes, n, e.slots[n], mid, balance, base);
      }
      ThenReads(Markup(r, balance), b, before, mid, next, c, base);
    }
  }

  lemma ThenReads(r: Rules, b: Automaton, before: Emission, mid: Automaton, next: Emission, c: Automaton, base: seq<string>)
    requires Reads(r, b, before.text, base, mid)
    requires if before.refusal.Some? then c == mid else Reads(r, mid, next.text, base, c)
    ensures Reads(r, b, Then(before, next).text, base, c)
  {
    if before.refusal.None? { ReadsConcat(r, b, before.text, mid, next.text, c, base); }
  }

  /** Between tags every stretch can begin. */
  lemma StretchBegins(r: Rules, nodes: seq<Node>, e: Execution, b: Automaton, balance: bool, base: seq<string>)
    requires Accepted(r, nodes) && IsStretch(nodes, e.lo, e.hi) && b.state.Data? && b.raw.tag == ""
    requires balance ==> e.lo == 0 && b.stack == base
    ensures Before(r, nodes, e.lo).Reached? && Tracks(r, Before(r, nodes, e.lo).auto, b, balance, base)
  {
    StretchEndsInData(r, nodes, e.lo, e.hi);
    assert base + [] == base;
  }

  lemma {:induction false} PassesRead(r: Rules, program: Program, k: nat, b: Automaton, balance: bool) returns (c: Automaton)
    requires Sound(r.lib) && r.urls && r.balance && WellFormed(r, program, balance) && k <= |program.passes|
    requires b.state.Data? && b.raw.tag == ""
    ensures Reads(Markup(r, balance), b, RunPasses(r, program, k).text, b.stack, c)
    ensures RunPasses(r, program, k).refusal.None? ==> c.state.Data? && c.raw.tag == "" && (balance ==> c.stack == b.stack)
    decreases program, k
  {
    if k == 0 {
      c := b;
    } else {
      var e, n := program.passes[k - 1], k - 1;
      var mid := PassesRead(r, program, n, b, balance);
      c := mid;
      assert IsExecutable(r, program.nodes, e, balance);
      PassHolds(r, program, n, e);
      StretchEndsInData(r, program.nodes, e.lo, e.hi);
      if RunPasses(r, program, n).refusal.None? {
        StretchBegins(r, program.nodes, e, mid, balance, b.stack);
        c := NodesRead(r, program.nodes, e, e.hi, mid, balance, b.stack);
      }
      ThenReads(Markup(r, balance), b, RunPasses(r, program, n), mid,
                RunNodes(r, Annotated(r, program.nodes), e, e.hi), c, b.stack);
    }
  }

  lemma {:induction false} ProgramReads(r: Rules, program: Program, b: Automaton, balance: bool) returns (c: Automaton)
    requires Sound(r.lib) && r.urls && r.balance && WellFormed(r, program, balance)
    requires b.state.Data? && b.raw.tag == ""
    ensures Reads(Markup(r, balance), b, RunProgram(r, program).text, b.stack, c)
    ensures RunProgram(r, program).refusal.None? ==> IsBenignFrom(Markup(r, balance), b, RunProgram(r, program).text)
    decreases program, |program.passes| + 1
  {
    c := PassesRead(r, program, |program.passes|, b, balance);
  }

  // ---- Whole pages

  /** What a component wrote that was not stopped can stand between any two tags: it leads back between tags, with the
      stack it found when tags are balanced, and every URL attribute in it is harmless once decoded. */
  lemma ProgramIsBenign(r: Rules, program: Program, balance: bool)
    requires Sound(r.lib) && r.urls && r.balance && WellFormed(r, program, balance) && RunProgram(r, program).refusal.None?
    ensures Benign(r, RunProgram(r, program).text, balance)
  {
    var s := RunProgram(r, program).text;
    forall b: Automaton {:trigger IsBenignFrom(Markup(r, balance), b, s)} | b.state.Data? && b.raw.tag == ""
      ensures IsBenignFrom(Markup(r, balance), b, s)
    {
      var c := ProgramReads(r, program, b, balance);
    }
  }

  /** The page so far, whether it ends, is stopped inside some component, or is cut anywhere by a failing writer: at its
      every character the automaton is on and no URL attribute closes on a harmful value; and when it ends, it ends
      between tags with nothing open. */
  lemma PageIsWellFormed(r: Rules, program: Program, balance: bool, k: nat)
    requires Sound(r.lib) && r.urls && r.balance && WellFormed(r, program, balance) && k <= |RunProgram(r, program).text|
    ensures var page := RunProgram(r, program);
            var end, at := Run(Markup(r, balance), INITIAL, page.text), Run(Markup(r, balance), INITIAL, page.text[..k]);
            && at.Reached? && (k < |page.text| ==> SafeAt(Markup(r, balance), at.auto, page.text[k]))
            && (page.refusal.None? ==> end.Reached? && end.auto.state.Data? && (balance ==> end.auto.stack == []))
  {
    var c := ProgramReads(r, program, INITIAL, balance);
    TrailHolds(Markup(r, balance), INITIAL, RunProgram(r, program).text, [], k);
  }

  /** What the analyzer checks, by its own tables. */
  function Analyzer(lib: Library): Rules { Rules(lib, HTML, true, true, true) }

  /** So it is of every page of the compiler's. */
  lemma EveryPageIsWellFormed(lib: Library, program: Program, k: nat)
    requires Sound(lib) && WellFormed(Analyzer(lib), program, false) && k <= |RunProgram(Analyzer(lib), program).text|
    ensures var r := Analyzer(lib);
            var page, at := RunProgram(r, program), Run(Markup(r, false), INITIAL, RunProgram(r, program).text[..k]);
            at.Reached? && (k < |page.text| ==> SafeAt(Markup(r, false), at.auto, page.text[k]))
    ensures MeetsContexts(Analyzer(lib), program, INITIAL)
  {
    PageIsWellFormed(Analyzer(lib), program, false, k);
    EveryExpressionMeetsItsContext(Analyzer(lib), program, INITIAL);
  }

  // ---- Every expression in its context

  lemma SameContext(t: Tables, a: Automaton, b: Automaton, base: seq<string>)
    requires Agree(a, b, false, base)
    ensures DynamicContext(t, a) == DynamicContext(t, b)
  {
  }

  /** An expression that is not rejected gets a context. */
  lemma PlacedContext(r: Rules, a: Automaton, node: Node, index: nat)
    requires node.kind.ExpressionNode? && NodeStep(r, a, node, index).Reached?
    ensures !DynamicContext(r.tables, a).NoContext?
    ensures AssignContext(r.tables, a, node).context == DynamicContext(r.tables, a)
  {
  }

  lemma AssignedContext(r: Rules, nodes: seq<Node>, i: nat)
    requires Accepted(r, nodes) && i < |nodes| && nodes[i].kind.ExpressionNode?
    ensures Before(r, nodes, i).Reached? && !AnnotatedNode(r, nodes, i).context.NoContext?
    ensures AnnotatedNode(r, nodes, i).context == DynamicContext(r.tables, Before(r, nodes, i).auto)
  {
    BeforeReached(r, nodes, i, |nodes|);
    BeforeReached(r, nodes, i + 1, |nodes|);
    PlacedContext(r, Before(r, nodes, i).auto, nodes[i], i);
  }

  /** What a component has written when it comes to node `i` of its `k`th pass. */
  function WrittenBefore(r: Rules, program: Program, k: nat, i: nat): Emission
    requires k < |program.passes| && i <= |program.nodes| && i <= |program.passes[k].slots|
  {
    Then(RunPasses(r, program, k), RunNodes(r, Annotated(r, program.nodes), program.passes[k], i))
  }

  /** Written from `b` on, every expression that is come to stands where its context was assigned, and so does every
      expression of the components inside. */
  ghost predicate MeetsContexts(r: Rules, program: Program, b: Automaton)
    decreases program, 1
  {
    forall k, i | 0 <= k < |program.passes| && program.passes[k].lo <= i < program.passes[k].hi ::
      MeetsAt(r, program, k, i, program.passes[k], b)
  }

  /** Node `i` of the pass `e`, the `k`th one. */
  ghost predicate MeetsAt(r: Rules, program: Program, k: nat, i: nat, e: Execution, b: Automaton)
    requires k < |program.passes| && program.passes[k] == e
    decreases program, 0
  {
    && i < |program.nodes| == |e.slots|
    && (WrittenBefore(r, program, k, i).refusal.None? ==>
          var read := Run(Markup(r, false), b, WrittenBefore(r, program, k, i).text);
          && read.Reached?
          && (program.nodes[i].kind.ExpressionNode? ==>
                && AnnotatedNode(r, program.nodes, i).context == DynamicContext(r.tables, read.auto)
                && !AnnotatedNode(r, program.nodes, i).context.NoContext?)
          && (e.slots[i].Nested? ==>
                && read.auto.state.Data? && read.auto.raw.tag == ""
                && MeetsContexts(r, e.slots[i].program, read.auto)))
  }

  /** Reading on from what the first `k` passes and a part of the next one wrote. */
  lemma ReachesNode(r: Rules, program: Program, k: nat, i: nat, e: Execution, b: Automaton) returns (c: Automaton)
    requires Sound(r.lib) && r.urls && r.balance && WellFormed(r, program, false)
    requires k < |program.passes| && program.passes[k] == e && e.lo <= i < e.hi && b.state.Data? && b.raw.tag == ""
    requires i < |program.nodes| == |e.slots| && WrittenBefore(r, program, k, i).refusal.None?
    ensures Run(Markup(r, false), b, WrittenBefore(r, program, k, i).text) == Reached(c)
    ensures Before(r, program.nodes, i).Reached? && Agree(Before(r, program.nodes, i).auto, c, false, b.stack)
  {
    assert IsExecutable(r, program.nodes, e, false);
    var mid := PassesRead(r, program, k, b, false);
    StretchBegins(r, program.nodes, e, mid, false, b.stack);
    c := NodesRead(r, program.nodes, e, i, mid, false, b.stack);
    ReadsConcat(Markup(r, false), b, RunPasses(r, program, k).text, mid,
                RunNodes(r, Annotated(r, program.nodes), e, i).text, c, b.stack);
  }

  lemma {:induction false} NodeMeets(r: Rules, program: Program, k: nat, i: nat, e: Execution, b: Automaton)
    requires Sound(r.lib) && r.urls && r.balance && WellFormed(r, program, false)
    requires k < |program.passes| && program.passes[k] == e && e.lo <= i < e.hi
    requires b.state.Data? && b.raw.tag == ""
    ensures MeetsAt(r, program, k, i, e, b)
    decreases program, 0
  {
    var nodes := program.nodes;
    assert IsExecutable(r, nodes, e, false) && Suits(r, nodes, i, e.slots[i], false);
    if WrittenBefore(r, program, k, i).refusal.None? {
      var c := ReachesNode(r, program, k, i, e, b);
      if nodes[i].kind.ExpressionNode? {
        AssignedContext(r, nodes, i);
        SameContext(r.tables, Before(r, nodes, i).auto, c, b.stack);
      }
      if e.slots[i].Nested? {
        ComponentStandsInData(r, nodes, i, c, false, b.stack);
        EveryExpressionMeetsItsContext(r, e.slots[i].program, c);
      }
    }
  }

  /** Read from anywhere between tags, every expression that any component comes to, whether the page is ended or stopped
      later, stands where its context was assigned. */
  lemma {:induction false} EveryExpressionMeetsItsContext(r: Rules, program: Program, b: Automaton)
    requires Sound(r.lib) && r.urls && r.balance && WellFormed(r, program, false)
    requires b.state.Data? && b.raw.tag == ""
    ensures MeetsContexts(r, program, b)
    decreases program, 1
  {
    forall k, i | 0 <= k < |program.passes| && program.passes[k].lo <= i < program.passes[k].hi
      ensures MeetsAt(r, program, k, i, program.passes[k], b)
    {
      NodeMeets(r, program, k, i, program.passes[k], b);
    }
  }

  lemma ThenAdds(first: Emission, before: Emission, next: Emission)
    requires first.text <= before.text && (first.refusal.Some? ==> before == first)
    ensures first.text <= Then(before, next).text && (first.refusal.Some? ==> Then(before, next) == first)
  {
  }

  lemma {:induction false} NodesOnlyAdd(r: Rules, ir: seq<Node>, e: Execution, i: nat, j: nat)
    requires e.lo <= i <= j <= |ir| && j <= |e.slots|
    ensures RunNodes(r, ir, e, i).text <= RunNodes(r, ir, e, j).text
    ensures RunNodes(r, ir, e, i).refusal.Some? ==> RunNodes(r, ir, e, j) == RunNodes(r, ir, e, i)
  {
    if i < j {
      var n := j - 1;
      NodesOnlyAdd(r, ir, e, i, n);
      NodesStep(r, ir, e, n);
      ThenAdds(RunNodes(r, ir, e, i), RunNodes(r, ir, e, n), RunSlot(r, ir[n], e.slots[n]));
    }
  }

  lemma {:induction false} PassesOnlyAdd(r: Rules, program: Program, k: nat, n: nat)
    requires k <= n <= |program.passes|
    ensures RunPasses(r, program, k).text <= RunPasses(r, program, n).text
  {
    if k < n { PassesOnlyAdd(r, program, k, n - 1); }
  }

  /** And what is written there is in the page: all before it, and what the node itself writes. */
  lemma NodeIsInPage(r: Rules, program: Program, k: nat, i: nat, e: Execution)
    requires k < |program.passes| && program.passes[k] == e && e.lo <= i < e.hi <= |program.nodes| == |e.slots|
    requires WrittenBefore(r, program, k, i).refusal.None?
    ensures WrittenBefore(r, program, k, i).text + RunSlot(r, AnnotatedNode(r, program.nodes, i), e.slots[i]).text
            <= RunProgram(r, program).text
  {
    var ir := Annotated(r, program.nodes);
    NodesStep(r, ir, e, i);
    NodesOnlyAdd(r, ir, e, i + 1, e.hi);
    PassHolds(r, program, k, e);
    PassesOnlyAdd(r, program, k + 1, |program.passes|);
    Joins(RunPasses(r, program, k).text, RunNodes(r, ir, e, i).text, RunSlot(r, ir[i], e.slots[i]).text,
          RunNodes(r, ir, e, e.hi).text);
  }

  lemma Joins(a: string, b: string, c: string, all: string)
    requires b + c <= all
    ensures (a + b) + c <= a + all
  {
    assert (a + b) + c == a + (b + c);
  }

  /** The text of `o` with the same end. */
  predicate IsWritten(o: Emitted, e: Emission) {
    match o case Bytes(text) => e == Emission(text, None) case Refused(reason) => e.refusal == Some(reason)
  }

  /** What has been written, and then what one node writes. */
  function Joined(before: Emitted, last: Emitted): Emitted {
    if before.Refused? then before else if last.Refused? then last else Bytes(before.text + last.text)
  }

  lemma OutputStep(lib: Library, ir: seq<Node>, fills: seq<Fill>, lo: nat, i: nat)
    requires lo <= i < |ir| == |fills|
    ensures Output(lib, ir, fills, lo, i + 1) == Joined(Output(lib, ir, fills, lo, i), WriteNode(lib, ir[i], fills[i]))
  {
  }

  lemma GivenWrites(r: Rules, node: Node, fill: Fill)
    ensures IsWritten(WriteNode(r.lib, node, fill), RunSlot(r, node, Given(fill)))
  {
  }

  lemma WrittenThen(before: Emitted, e: Emission, last: Emitted, next: Emission)
    requires IsWritten(before, e) && IsWritten(last, next)
    ensures IsWritten(Joined(before, last), Then(e, next))
  {
  }

  lemma StraightNode(r: Rules, ir: seq<Node>, fills: seq<Fill>, e: Execution, n: nat)
    requires e.lo <= n < |ir| == |fills| == |e.slots| && e.slots[n] == Given(fills[n])
    requires IsWritten(Output(r.lib, ir, fills, e.lo, n), RunNodes(r, ir, e, n))
    ensures IsWritten(Output(r.lib, ir, fills, e.lo, n + 1), RunNodes(r, ir, e, n + 1))
  {
    NodesStep(r, ir, e, n);
    OutputStep(r.lib, ir, fills, e.lo, n);
    GivenWrites(r, ir[n], fills[n]);
    WrittenThen(Output(r.lib, ir, fills, e.lo, n), RunNodes(r, ir, e, n),
                WriteNode(r.lib, ir[n], fills[n]), RunSlot(r, ir[n], Given(fills[n])));
  }

  /** With values alone, a pass straight through writes what the generated code does. */
  lemma {:induction false} StraightRun(r: Rules, ir: seq<Node>, fills: seq<Fill>, e: Execution, i: nat)
    requires |fills| == |ir| == |e.slots| && e.lo <= i <= |ir|
    requires forall j | 0 <= j < |ir| :: e.slots[j] == Given(fills[j])
    ensures IsWritten(Output(r.lib, ir, fills, e.lo, i), RunNodes(r, ir, e, i))
  {
    if e.lo < i {
      StraightRun(r, ir, fills, e, i - 1);
      StraightNode(r, ir, fills, e, i - 1);
    }
  }
}
