/** Two runs of the HTML automaton that differ only where it does not matter. */
module Agreement {
  import opened Html
  import opened HtmlAutomaton

  predicate SameEquiv(e: Element, f: Element) {
    && ("http-equiv" in e.attributes <==> "http-equiv" in f.attributes)
    && ("http-equiv" in e.attributes ==> e.attributes["http-equiv"] == f.attributes["http-equiv"])
  }

  /** What the rest of a tag still reads of its beginning. */
  predicate ElementAgrees(s: State, e: Element, f: Element) {
    && e.tag == f.tag && e.selfClosing == f.selfClosing && e.seen == f.seen
    && (e.tag == "meta" || s.TagName? ==> SameEquiv(e, f))
    && (NamesAttribute(s) || Quoted(s) ==> e.attr == f.attr)
  }

  /** `w` is the value `v` as rendered so far. */
  predicate ValueAgrees(e: Element, v: Value, w: Value) {
    w.nodes == [] && if v.nodes == [] then w.literal == v.literal else !(e.tag == "meta" && e.attr == "http-equiv")
  }

  /** `b` is where `a` is, in every field that `a`'s state will still read; when tags are balanced, `b`'s stack is
      `a`'s on top of `base`. */
  predicate Agree(a: Automaton, b: Automaton, balance: bool, base: seq<string>) {
    && a.state == b.state
    && (balance ==> b.stack == base + a.stack)
    && a.raw.tag == b.raw.tag && (a.raw.tag != "" <==> InRaw(a.state))
    && (InTag(a.state) ==> ElementAgrees(a.state, a.element, b.element))
    && (Quoted(a.state) ==> ValueAgrees(a.element, a.value, b.value))
    && (a.state.Comment? ==> a.commentDash == b.commentDash)
    && (InEndTag(a.state) ==> a.element.tag == b.element.tag)
    && (a.state.RawEndTagName? ==> a.raw.endName == b.raw.endName)
  }

  /** `ob` accepts what `oa` accepted, and they agree afterwards. */
  predicate Follows(oa: Outcome, ob: Outcome, balance: bool, base: seq<string>) {
    oa.Next? ==> ob.Next? && Agree(oa.auto, ob.auto, balance, base)
  }

  lemma SameTagProblem(t: Tables, e: Element, f: Element)
    requires e.tag == f.tag && e.selfClosing == f.selfClosing && (e.tag == "meta" ==> SameEquiv(e, f))
    ensures TagProblem(t, e) == TagProblem(t, f)
  {
  }

  lemma OpenTagFollows(r: Rules, a: Automaton, b: Automaton, balance: bool, base: seq<string>)
    requires !InRaw(a.state) && Agree(a, b, balance, base)
    requires var e, f := a.element, b.element;
             e.tag == f.tag && e.selfClosing == f.selfClosing && (e.tag == "meta" ==> SameEquiv(e, f))
    ensures Follows(FinishOpenTag(r, a), FinishOpenTag(Markup(r, balance), b), balance, base)
  {
    SameTagProblem(r.tables, a.element, b.element);
    assert balance ==> b.stack + [b.element.tag] == base + (a.stack + [a.element.tag]);
  }

  lemma PopAgrees(s: seq<string>, base: seq<string>, name: string)
    requires s != [] && s[|s| - 1] == name
    ensures (base + s)[|base + s| - 1] == name && Pop(base + s) == base + Pop(s)
  {
  }

  lemma CloseTagFollows(r: Rules, a: Automaton, b: Automaton, balance: bool, base: seq<string>)
    requires (balance ==> r.balance) && Agree(a, b, balance, base)
    requires !InRaw(a.state) && a.element.tag == b.element.tag
    ensures Follows(FinishCloseTag(r, a), FinishCloseTag(Markup(r, balance), b), balance, base)
  {
    if balance && Closes(r, a.stack, a.element.tag) { PopAgrees(a.stack, base, a.element.tag); }
  }

  lemma RawCloseFollows(r: Rules, a: Automaton, b: Automaton, balance: bool, base: seq<string>)
    requires (balance ==> r.balance) && Agree(a, b, balance, base) && InRaw(a.state)
    ensures Follows(FinishRawClose(r, a), FinishRawClose(Markup(r, balance), b), balance, base)
  {
    if balance && Closes(r, a.stack, a.raw.tag) { PopAgrees(a.stack, base, a.raw.tag); }
  }

  lemma ContentFollows(a: Automaton, b: Automaton, c: char, balance: bool, base: seq<string>)
    requires InContent(a.state) && Agree(a, b, balance, base)
    ensures Follows(StepContent(a, c), StepContent(b, c), balance, base)
  {
  }

  lemma TagFollows(r: Rules, a: Automaton, b: Automaton, c: char, balance: bool, base: seq<string>)
    requires BetweenAttributes(a.state) && Agree(a, b, balance, base)
    ensures Follows(StepTag(r, a, c), StepTag(Markup(r, balance), b, c), balance, base)
  {
    if c == '>' { OpenTagFollows(r, a, b, balance, base); }
  }

  lemma ValidationFollows(a: Automaton, b: Automaton, balance: bool, base: seq<string>)
    requires a.state.AttributeName? && Agree(a, b, balance, base)
    ensures ValidateAttributeName(a).Next? ==>
              ValidateAttributeName(b).Next?
              && Agree(ValidateAttributeName(a).auto, ValidateAttributeName(b).auto, balance, base)
  {
  }

  lemma NameGrows(a: Automaton, b: Automaton, c: char, balance: bool, base: seq<string>)
    requires a.state.AttributeName? && Agree(a, b, balance, base)
    ensures Agree(GrowAttr(a, c), GrowAttr(b, c), balance, base)
  {
  }

  lemma NameEnds(a: Automaton, b: Automaton, s: State, balance: bool, base: seq<string>)
    requires a.state.AttributeName? && Agree(a, b, balance, base) && (s.AfterAttributeName? || s.BeforeAttributeValue?)
    ensures Agree(a.(state := s), b.(state := s), balance, base)
  {
  }

  lemma AttributeNameFollows(r: Rules, a: Automaton, b: Automaton, c: char, balance: bool, base: seq<string>)
    requires a.state.AttributeName? && Agree(a, b, balance, base)
    ensures Follows(StepAttributeName(r, a, c), StepAttributeName(Markup(r, balance), b, c), balance, base)
  {
    var va, vb := ValidateAttributeName(a), ValidateAttributeName(b);
    ValidationFollows(a, b, balance, base);
    NameGrows(a, b, c, balance, base);
    if va.Next? {
      NameEnds(va.auto, vb.auto, AfterAttributeName, balance, base);
      NameEnds(va.auto, vb.auto, BeforeAttributeValue, balance, base);
      if c == '>' { OpenTagFollows(r, va.auto, vb.auto, balance, base); }
    }
  }

  lemma AfterNameFollows(r: Rules, a: Automaton, b: Automaton, c: char, balance: bool, base: seq<string>)
    requires a.state.AfterAttributeName? && Agree(a, b, balance, base)
    ensures Follows(StepAfterAttributeName(r, a, c), StepAfterAttributeName(Markup(r, balance), b, c), balance, base)
  {
    if c == '>' { OpenTagFollows(r, a, b, balance, base); }
  }

  lemma BeforeValueFollows(a: Automaton, b: Automaton, c: char, balance: bool, base: seq<string>)
    requires a.state.BeforeAttributeValue? && Agree(a, b, balance, base)
    ensures Follows(StepBeforeAttributeValue(a, c), StepBeforeAttributeValue(b, c), balance, base)
  {
  }

  lemma RecordAgrees(lib: Library, s: State, e: Element, f: Element, v: Value, w: Value)
    requires Quoted(s) && ElementAgrees(s, e, f) && ValueAgrees(e, v, w)
    ensures ElementAgrees(BeforeAttribute, Record(lib, e, v), Record(lib, f, w))
  {
  }

  lemma QuotedFollows(r: Rules, a: Automaton, b: Automaton, c: char, balance: bool, base: seq<string>)
    requires Quoted(a.state) && Agree(a, b, balance, base)
    ensures Follows(StepQuoted(r, a, c), StepQuoted(Markup(r, balance), b, c), balance, base)
  {
    RecordAgrees(r.lib, a.state, a.element, b.element, a.value, b.value);
  }

  lemma EndTagFollows(r: Rules, a: Automaton, b: Automaton, c: char, balance: bool, base: seq<string>)
    requires InEndTag(a.state) && (balance ==> r.balance) && Agree(a, b, balance, base)
    ensures Follows(StepEndTag(r, a, c), StepEndTag(Markup(r, balance), b, c), balance, base)
  {
    CloseTagFollows(r, a, b, balance, base);
  }

  lemma RawFollows(r: Rules, a: Automaton, b: Automaton, c: char, balance: bool, base: seq<string>)
    requires InRaw(a.state) && (balance ==> r.balance) && Agree(a, b, balance, base)
    ensures Follows(StepRaw(r, a, c), StepRaw(Markup(r, balance), b, c), balance, base)
  {
    RawCloseFollows(r, a, b, balance, base);
  }

  /** One character keeps two agreeing runs in agreement, and the markup reading never stops where the stricter
      reading goes on. */
  lemma StepFollows(r: Rules, a: Automaton, b: Automaton, c: char, balance: bool, base: seq<string>)
    requires (balance ==> r.balance) && Agree(a, b, balance, base)
    ensures Follows(Step(r, a, c), Step(Markup(r, balance), b, c), balance, base)
  {
    var wa, wb := Watch(a, c), Watch(b, c);
    assert Agree(wa, wb, balance, base);
    if InContent(a.state) { ContentFollows(wa, wb, c, balance, base); }
    else if BetweenAttributes(a.state) { TagFollows(r, wa, wb, c, balance, base); }
    else if a.state.AttributeName? { AttributeNameFollows(r, wa, wb, c, balance, base); }
    else if a.state.AfterAttributeName? { AfterNameFollows(r, wa, wb, c, balance, base); }
    else if a.state.BeforeAttributeValue? { BeforeValueFollows(wa, wb, c, balance, base); }
    else if Quoted(a.state) { QuotedFollows(r, wa, wb, c, balance, base); }
    else if InEndTag(a.state) { EndTagFollows(r, wa, wb, c, balance, base); }
    else { RawFollows(r, wa, wb, c, balance, base); }
  }
}
