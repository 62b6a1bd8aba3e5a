/** The four-byte window of the analyzer finds a comment opening in a script exactly where a search of all the
    static text of the script would. */
module ScriptWindow {
  import opened Text
  import opened HtmlAutomaton
  import opened Analysis

  function WidenAll(s: string): string {
    if s == "" then "" else WidenAll(s[..|s| - 1]) + Widen(s[|s| - 1])
  }

  predicate EndsWith(s: string, word: string) {
    |word| <= |s| && forall i | 0 <= i < |word| :: s[|s| - |word| + i] == word[i]
  }

  const COMMENT_OPENING: string := "<!--"

  lemma LastFourOfTail(s: string, t: string)
    ensures LastFour(LastFour(s) + t) == LastFour(s + t)
  {
  }

  lemma EndsWithSnoc(s: string, c: char, word: string, d: char)
    ensures EndsWith(s + [c], word + [d]) <==> c == d && EndsWith(s, word)
  {
    var t, v := s + [c], word + [d];
    if EndsWith(t, v) {
      assert t[|t| - |v| + |word|] == v[|word|];
      forall i | 0 <= i < |word| ensures s[|s| - |word| + i] == word[i] {
        assert t[|t| - |v| + i] == v[i];
      }
    }
  }

  /** Re-encoding text changes no ASCII ending of it. */
  lemma {:induction false} WidenedEnding(s: string, word: string)
    requires forall i | 0 <= i < |word| :: IsAscii(word[i])
    ensures EndsWith(WidenAll(s), word) <==> EndsWith(s, word)
  {
    if word != "" && s != "" {
      var n, m := |s| - 1, |word| - 1;
      var t, v, c, d := s[..n], word[..m], s[n], word[m];
      WidenedEnding(t, v);
      assert s == t + [c] && word == v + [d];
      EndsWithSnoc(t, c, v, d);
      if IsAscii(c) {
        EndsWithSnoc(WidenAll(t), c, v, d);
      } else {
        assert WidenAll(t) + [c, c] == (WidenAll(t) + [c]) + [c];
        EndsWithSnoc(WidenAll(t) + [c], c, v, d);
      }
    }
  }

  lemma LastFourEnds(s: string, word: string)
    requires |word| == 4
    ensures LastFour(s) == word <==> EndsWith(s, word)
  {
    if |s| >= 4 { assert forall i | 0 <= i < 4 :: LastFour(s)[i] == s[|s| - 4 + i]; }
  }

  lemma WindowShowsEnding(s: string)
    ensures LastFour(WidenAll(s)) == COMMENT_OPENING <==> EndsWith(s, COMMENT_OPENING)
  {
    WidenedEnding(s, COMMENT_OPENING);
    LastFourEnds(WidenAll(s), COMMENT_OPENING);
  }

  // ---- The static text of the script being read

  /** The static text since the opening tag of the script `a` is in, once `c` has been read after `seen`. */
  function SeenAfter(r: Rules, a: Automaton, seen: string, c: char): string {
    match Step(r, a, c)
    case Next(next) => if a.raw.tag == "script" && next.raw.tag == "script" then seen + [c] else ""
    case Stop(_) => seen
  }

  function SeenInText(r: Rules, a: Automaton, seen: string, s: string): string {
    if s == "" then seen
    else
      var t := s[..|s| - 1];
      var before := Run(r, a, t);
      if before.Rejected? then SeenInText(r, a, seen, t)
      else SeenAfter(r, before.auto, SeenInText(r, a, seen, t), s[|s| - 1])
  }

  /** The static text of the script that the analysis is in after `n` nodes: expressions and template comments
      add nothing to it. */
  function SeenBefore(r: Rules, nodes: seq<Node>, n: nat): string
    requires n <= |nodes|
  {
    if n == 0 then ""
    else
      var before := Before(r, nodes, n - 1);
      if before.Rejected? || !nodes[n - 1].kind.TextNode? then SeenBefore(r, nodes, n - 1)
      else SeenInText(r, before.auto, SeenBefore(r, nodes, n - 1), nodes[n - 1].text)
  }

  // ---- The window

  predicate WindowIs(a: Automaton, seen: string) {
    a.raw.tag == "script" ==> a.raw.tail == LastFour(WidenAll(seen))
  }

  lemma SlideIs(a: Automaton, seen: string, c: char)
    requires a.raw.tag == "script" && WindowIs(a, seen)
    ensures Watch(a, c).raw.tail == LastFour(WidenAll(seen + [c]))
  {
    LastFourOfTail(WidenAll(seen), Widen(c));
    assert (seen + [c])[..|seen|] == seen;
  }

  lemma RawStepTail(r: Rules, a: Automaton, c: char)
    requires InRaw(a.state) && StepRaw(r, a, c).Next?
    ensures StepRaw(r, a, c).auto.raw.tag in {"", a.raw.tag}
    ensures StepRaw(r, a, c).auto.raw.tag == a.raw.tag != "" ==> StepRaw(r, a, c).auto.raw.tail == a.raw.tail
  {
  }

  /** A step inside a script slides the window; a step into one empties it. */
  lemma StepTail(r: Rules, a: Automaton, c: char)
    requires RawMatches(a) && Step(r, a, c).Next? && Step(r, a, c).auto.raw.tag == "script"
    ensures Step(r, a, c).auto.raw.tail == if a.raw.tag == "script" then Watch(a, c).raw.tail else ""
  {
    if InRaw(a.state) { RawStepTail(r, Watch(a, c), c); }
  }

  lemma StepKeepsWindow(r: Rules, a: Automaton, seen: string, c: char)
    requires RawMatches(a) && WindowIs(a, seen) && Step(r, a, c).Next?
    ensures WindowIs(Step(r, a, c).auto, SeenAfter(r, a, seen, c))
  {
    var next := Step(r, a, c).auto;
    if next.raw.tag == "script" {
      StepTail(r, a, c);
      if a.raw.tag == "script" { SlideIs(a, seen, c); }
    }
  }

  lemma {:induction false} TextKeepsWindow(r: Rules, a: Automaton, seen: string, s: string)
    requires RawMatches(a) && WindowIs(a, seen) && Run(r, a, s).Reached?
    ensures RawMatches(Run(r, a, s).auto) && WindowIs(Run(r, a, s).auto, SeenInText(r, a, seen, s))
  {
    RunKeepsRawMatch(r, a, s);
    if s != "" {
      var t := s[..|s| - 1];
      TextKeepsWindow(r, a, seen, t);
      StepKeepsWindow(r, Run(r, a, t).auto, SeenInText(r, a, seen, t), s[|s| - 1]);
    }
  }

  lemma {:induction false} NodesKeepWindow(r: Rules, nodes: seq<Node>, n: nat)
    requires n <= |nodes| && Before(r, nodes, n).Reached?
    ensures WindowIs(Before(r, nodes, n).auto, SeenBefore(r, nodes, n))
  {
    if n > 0 {
      NodesKeepWindow(r, nodes, n - 1);
      BeforeMatches(r, nodes, n - 1);
      var a := Before(r, nodes, n - 1).auto;
      if nodes[n - 1].kind.TextNode? { TextKeepsWindow(r, a, SeenBefore(r, nodes, n - 1), nodes[n - 1].text); }
    }
  }

  lemma StopsForWindow(r: Rules, a: Automaton, c: char)
    requires r.scriptGuard
    ensures Step(r, a, c) == Stop(1357) <==> OpensComment(Watch(a, c))
  {
  }

  /** Inside a script the analyzer reports HIM1357 at a character exactly when the static text of the script up to it
      ends in a comment opening, however text nodes, template comments and expressions split that text. */
  lemma ScriptCommentIsFound(r: Rules, nodes: seq<Node>, n: nat, k: nat)
    requires r.scriptGuard && n < |nodes| && nodes[n].kind.TextNode? && k < |nodes[n].text|
    requires Before(r, nodes, n).Reached?
    requires var read := Run(r, Before(r, nodes, n).auto, nodes[n].text[..k]);
             read.Reached? && read.auto.raw.tag == "script"
    ensures var a := Before(r, nodes, n).auto;
            var before, c := nodes[n].text[..k], nodes[n].text[k];
            Step(r, Run(r, a, before).auto, c) == Stop(1357)
            <==> EndsWith(SeenInText(r, a, SeenBefore(r, nodes, n), before) + [c], COMMENT_OPENING)
  {
    var a, before, c := Before(r, nodes, n).auto, nodes[n].text[..k], nodes[n].text[k];
    BeforeMatches(r, nodes, n);
    NodesKeepWindow(r, nodes, n);
    TextKeepsWindow(r, a, SeenBefore(r, nodes, n), before);
    var b, seen := Run(r, a, before).auto, SeenInText(r, a, SeenBefore(r, nodes, n), before);
    StopsForWindow(r, b, c);
    SlideIs(b, seen, c);
    WindowShowsEnding(seen + [c]);
  }
}
