/** The promises about whole components: balanced, context-neutral output, through nesting and control flow. */
module Components {
  import opened Html
  import opened HtmlAutomaton
  import opened Agreement
  import opened Analysis
  import opened Runtime
  import opened Rendering

  /** Rendering an accepted template moves the automaton as analysing it did: read from the start, what the first `i`
      nodes write leads to where the analysis was at node `i`, and the whole of it back to the data state with
      nothing open. */
  lemma RenderingPreservesMarkup(r: Rules, nodes: seq<Node>, fills: seq<Fill>, i: nat)
    requires Sound(r.lib) && r.urls && r.balance && Accepted(r, nodes) && Filled(r, nodes, fills, true)
    requires i <= |nodes| && Rendered(r, nodes, fills, 0, i).Bytes?
    ensures Before(r, nodes, i).Reached?
    ensures var read := Run(Markup(r, true), INITIAL, Rendered(r, nodes, fills, 0, i).text);
            && read.Reached? && Agree(Before(r, nodes, i).auto, read.auto, true, [])
            && (i == |nodes| ==> read.auto.state.Data? && read.auto.stack == [])
  {
    BeforeReached(r, nodes, i, |nodes|);
    var b := SegmentTracks(r, nodes, fills, 0, i, INITIAL, true, []);
  }

  lemma RenderingIsBenignFrom(r: Rules, nodes: seq<Node>, fills: seq<Fill>, b: Automaton, balance: bool)
    requires Sound(r.lib) && r.urls && r.balance && Accepted(r, nodes) && Filled(r, nodes, fills, balance)
    requires Rendered(r, nodes, fills, 0, |nodes|).Bytes? && b.state.Data? && b.raw.tag == ""
    ensures IsBenignFrom(Markup(r, balance), b, Rendered(r, nodes, fills, 0, |nodes|).text)
  {
    assert balance ==> b.stack == b.stack + INITIAL.stack;
    var c := SegmentTracks(r, nodes, fills, 0, |nodes|, b, balance, b.stack);
  }

  /** What an accepted template renders can be inserted between any two tags: it leaves the automaton in the data
      state with the stack it found, never pops below it, depends on nothing left over from before, and every URL
      attribute in it is harmless once decoded. */
  lemma RenderingIsBenign(r: Rules, nodes: seq<Node>, fills: seq<Fill>, balance: bool)
    requires Sound(r.lib) && r.urls && r.balance && Accepted(r, nodes) && Filled(r, nodes, fills, balance)
    requires Rendered(r, nodes, fills, 0, |nodes|).Bytes?
    ensures Benign(r, Rendered(r, nodes, fills, 0, |nodes|).text, balance)
  {
    var s := Rendered(r, nodes, fills, 0, |nodes|).text;
    forall b: Automaton {:trigger IsBenignFrom(Markup(r, balance), b, s)} | b.state.Data? && b.raw.tag == ""
      ensures IsBenignFrom(Markup(r, balance), b, s)
    {
      RenderingIsBenignFrom(r, nodes, fills, b, balance);
    }
  }
}
