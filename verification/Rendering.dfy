/** Rendering keeps the markup the analyzer saw: data stays data. */
module Rendering {
  import opened Text
  import opened Sequences
  import opened Html
  import opened UrlPolicy
  import opened HtmlAutomaton
  import opened Agreement
  import opened Analysis
  import opened Runtime

  // ---- URL attributes along a run

  predicate ClosesUrl(r: Rules, b: Automaton, c: char) {
    ClosesQuote(b.state, c) && b.element.attr in r.tables.urlAttributes
  }

  /** The closing quote of a URL attribute comes only after a harmless value. */
  predicate SafeAt(r: Rules, b: Automaton, c: char) {
    ClosesUrl(r, b, c) ==> HarmlessUrl(Unescape(r.lib, b.value.literal))
  }

  /** What the analyzer knows of a URL value with expressions in it holds of the value as rendered so far. */
  predicate UrlAgrees(r: Rules, a: Automaton, b: Automaton) {
    Quoted(a.state) ==>
      && (a.value.nodes == [] <==> a.value.first < 0)
      && (a.value.nodes != [] && a.element.attr in r.tables.urlAttributes ==>
            if a.value.prefix != "" then HasPrefix(b.value.literal, a.value.prefix)
            else |a.value.nodes| == 1 && a.value.literal == "" ==> HarmlessUrl(Unescape(r.lib, b.value.literal)))
  }

  lemma PrefixGrows(s: string, p: string, c: string)
    requires HasPrefix(s, p)
    ensures HasPrefix(s + c, p)
  {
  }

  /** Rendered `b` is where the analysis was at `a`. */
  predicate Tracks(r: Rules, a: Automaton, b: Automaton, balance: bool, base: seq<string>) {
    Agree(a, b, balance, base) && UrlAgrees(r, a, b)
  }

  lemma UrlValueIsHarmless(r: Rules, a: Automaton, b: Automaton, balance: bool, base: seq<string>)
    requires LowerSound(r.lib) && Quoted(a.state) && Tracks(r, a, b, balance, base)
    requires a.element.attr in r.tables.urlAttributes && UrlProblem(r, a.element, a.value).None?
    ensures HarmlessUrl(Unescape(r.lib, b.value.literal))
  {
    if a.value.nodes == [] {
      StaticUrlIsHarmless(r.lib, a.value.literal);
    } else if a.value.prefix != "" {
      var n := |a.value.prefix|;
      assert b.value.literal == a.value.prefix + b.value.literal[n..];
      SafePrefixIsHarmless(r.lib, a.value.prefix, b.value.literal[n..]);
    }
  }

  lemma EnteringQuotes(r: Rules, a: Automaton, c: char)
    requires !Quoted(a.state) && Step(r, a, c).Next? && Quoted(Step(r, a, c).auto.state)
    ensures Step(r, a, c).auto.value == NO_VALUE
  {
  }

  lemma InsideQuotes(r: Rules, a: Automaton, c: char)
    requires Quoted(a.state) && a.raw.tag == "" && Step(r, a, c).Next?
    ensures var next := Step(r, a, c).auto;
            if ClosesQuote(a.state, c) then !Quoted(next.state) && (r.urls ==> UrlProblem(r, a.element, a.value).None?)
            else next == WithLiteral(a, [c])
  {
  }

  function WithLiteral(b: Automaton, s: string): Automaton {
    b.(value := b.value.(literal := b.value.literal + s))
  }

  lemma LiteralTracks(r: Rules, a: Automaton, b: Automaton, c: char)
    requires UrlAgrees(r, a, b)
    ensures UrlAgrees(r, WithLiteral(a, [c]), WithLiteral(b, [c]))
  {
    if HasPrefix(b.value.literal, a.value.prefix) { PrefixGrows(b.value.literal, a.value.prefix, [c]); }
  }

  lemma UrlStep(r: Rules, a: Automaton, b: Automaton, c: char, a': Automaton, b': Automaton, balance: bool, base: seq<string>)
    requires Tracks(r, a, b, balance, base) && Agree(a', b', balance, base)
    requires Step(r, a, c) == Next(a') && Step(Markup(r, balance), b, c) == Next(b')
    ensures UrlAgrees(r, a', b')
  {
    if Quoted(a.state) {
      InsideQuotes(r, a, c);
      InsideQuotes(Markup(r, balance), b, c);
      LiteralTracks(r, a, b, c);
    } else if Quoted(a'.state) {
      EnteringQuotes(r, a, c);
    }
  }

  lemma UrlClose(r: Rules, a: Automaton, b: Automaton, c: char, balance: bool, base: seq<string>)
    requires LowerSound(r.lib) && r.urls && Tracks(r, a, b, balance, base) && Step(r, a, c).Next?
    requires ClosesUrl(r, b, c)
    ensures HarmlessUrl(Unescape(r.lib, b.value.literal))
  {
    InsideQuotes(r, a, c);
    UrlValueIsHarmless(r, a, b, balance, base);
  }

  /** One character of the template keeps the rendering on track. */
  lemma CharTracks(r: Rules, a: Automaton, b: Automaton, c: char, a': Automaton, balance: bool, base: seq<string>)
    returns (b': Automaton)
    requires LowerSound(r.lib) && r.urls && (balance ==> r.balance) && Tracks(r, a, b, balance, base)
    requires Step(r, a, c) == Next(a')
    ensures Step(Markup(r, balance), b, c) == Next(b')
    ensures Tracks(r, a', b', balance, base) && SafeAt(Markup(r, balance), b, c) && (balance ==> base <= b'.stack)
  {
    StepFollows(r, a, b, c, balance, base);
    b' := Step(Markup(r, balance), b, c).auto;
    UrlStep(r, a, b, c, a', b', balance, base);
    if ClosesUrl(r, b, c) { UrlClose(r, a, b, c, balance, base); }
  }

  // ---- What holds along a run over rendered text

  /** One more character meets no problem, closes no harmful URL attribute and does not pop below `base`. */
  predicate TrailGoesOn(r: Rules, before: Scan, c: char, base: seq<string>) {
    && before.Reached? && SafeAt(r, before.auto, c)
    && var after := Step(r, before.auto, c);
       after.Next? && (r.balance ==> base <= after.auto.stack)
  }

  /** Reading `s` from `b` meets no problem, closes no harmful URL attribute and never pops below `base`. */
  predicate Trail(r: Rules, b: Automaton, s: string, base: seq<string>) {
    if s == "" then r.balance ==> base <= b.stack
    else
      var n := |s| - 1;
      Trail(r, b, s[..n], base) && TrailGoesOn(r, Run(r, b, s[..n]), s[n], base)
  }

  lemma TrailOne(r: Rules, b: Automaton, s: string, c: char, base: seq<string>)
    ensures Trail(r, b, s + [c], base) <==> Trail(r, b, s, base) && TrailGoesOn(r, Run(r, b, s), c, base)
  {
    assert (s + [c])[..|s|] == s;
  }

  lemma {:induction false} TrailConcat(r: Rules, b: Automaton, s: string, c: Automaton, t: string, base: seq<string>)
    requires Trail(r, b, s, base) && Run(r, b, s) == Reached(c) && Trail(r, c, t, base)
    ensures Trail(r, b, s + t, base)
  {
    if t == "" {
      assert s + t == s;
    } else {
      var u, d := t[..|t| - 1], t[|t| - 1];
      LastApart(t);
      TrailOne(r, c, u, d, base);
      TrailConcat(r, b, s, c, u, base);
      RunConcat(r, b, s, u);
      TrailOne(r, b, s + u, d, base);
      Associate(s, u, [d]);
    }
  }

  lemma {:induction false} TrailPrefix(r: Rules, b: Automaton, s: string, base: seq<string>, k: nat)
    requires Trail(r, b, s, base) && k <= |s|
    ensures Trail(r, b, s[..k], base)
  {
    if k == |s| {
      assert s[..k] == s;
    } else {
      var t := s[..|s| - 1];
      TrailPrefix(r, b, t, base, k);
      assert t[..k] == s[..k];
    }
  }

  lemma TrailEnd(r: Rules, b: Automaton, s: string, base: seq<string>)
    requires Trail(r, b, s, base)
    ensures Run(r, b, s).Reached? && (r.balance ==> base <= Run(r, b, s).auto.stack)
  {
  }

  lemma TrailGoesOnAt(r: Rules, b: Automaton, s: string, base: seq<string>, k: nat)
    requires Trail(r, b, s, base) && k < |s|
    ensures TrailGoesOn(r, Run(r, b, s[..k]), s[k], base)
  {
    TrailPrefix(r, b, s, base, k + 1);
    TakeGrows(s, k);
    TrailOne(r, b, s[..k], s[k], base);
  }

  /** A trail, read off: at every point of it the run is on, above `base`, and what it closes is harmless. */
  lemma TrailHolds(r: Rules, b: Automaton, s: string, base: seq<string>, k: nat)
    requires Trail(r, b, s, base) && k <= |s|
    ensures var at := Run(r, b, s[..k]);
            at.Reached? && (r.balance ==> base <= at.auto.stack) && (k < |s| ==> SafeAt(r, at.auto, s[k]))
  {
    TrailPrefix(r, b, s, base, k);
    TrailEnd(r, b, s[..k], base);
    if k < |s| { TrailGoesOnAt(r, b, s, base, k); }
  }

  /** `b` reads `s` along a trail and ends in `c`. */
  predicate Reads(r: Rules, b: Automaton, s: string, base: seq<string>, c: Automaton) {
    Run(r, b, s) == Reached(c) && Trail(r, b, s, base)
  }

  lemma ReadsConcat(r: Rules, b: Automaton, s: string, c: Automaton, t: string, d: Automaton, base: seq<string>)
    requires Reads(r, b, s, base, c) && Reads(r, c, t, base, d)
    ensures Reads(r, b, s + t, base, d)
  {
    RunConcat(r, b, s, t);
    TrailConcat(r, b, s, c, t, base);
  }

  lemma {:induction false} TrailBase(r: Rules, b: Automaton, s: string, low: seq<string>, high: seq<string>)
    requires Trail(r, b, s, high) && low <= high
    ensures Trail(r, b, s, low)
  {
    if s != "" { TrailBase(r, b, s[..|s| - 1], low, high); }
  }

  /** Text that is safe to insert between tags, whoever wrote it: from any automaton in the data state it leads back
      to the data state without closing a harmful URL attribute, whatever was left in the automaton's other fields;
      and, when tags are balanced, with the same stack and without popping below it. */
  ghost predicate Benign(r: Rules, s: string, balance: bool) {
    forall b: Automaton {:trigger IsBenignFrom(Markup(r, balance), b, s)} |
      b.state.Data? && b.raw.tag == "" :: IsBenignFrom(Markup(r, balance), b, s)
  }

  predicate IsBenignFrom(r: Rules, b: Automaton, s: string) {
    var end := Run(r, b, s);
    && end.Reached? && end.auto.state.Data? && end.auto.raw.tag == "" && (r.balance ==> end.auto.stack == b.stack)
    && Trail(r, b, s, b.stack)
  }

  /** Script or style text that stays inside its element. */
  ghost predicate Inert(r: Rules, s: string, balance: bool) {
    forall b: Automaton {:trigger IsInertFrom(Markup(r, balance), b, s)} |
      b.state.RawText? && b.raw.tag != "" :: IsInertFrom(Markup(r, balance), b, s)
  }

  predicate IsInertFrom(r: Rules, b: Automaton, s: string) {
    var end := Run(r, b, s);
    && end.Reached? && end.auto.state.RawText? && end.auto.raw.tag == b.raw.tag && end.auto.stack == b.stack
    && Trail(r, b, s, b.stack)
  }

  /** The assumption on values the application has vouched for. */
  ghost predicate Trustworthy(r: Rules, fill: Fill, balance: bool) {
    match fill
    case Ordinary(_) => true
    case TrustedHtml(text) => Benign(r, text, balance)
    case TrustedJs(text) => Inert(r, text, balance)
    case TrustedCss(text) => Inert(r, text, balance)
    case Component(text) => Benign(r, text, balance)
  }

  // ---- Text that cannot move the automaton

  predicate NoAngle(s: string) { forall i | 0 <= i < |s| :: s[i] != '<' }

  predicate NoDelimiter(s: string) { forall i | 0 <= i < |s| :: !IsDelimiter(s[i]) }

  lemma EscapedHasNoDelimiter(s: string)
    ensures NoDelimiter(Escape(s)) && NoAngle(Escape(s))
  {
    EscapeHasNoDelimiter(s);
  }

  lemma {:induction false} DataStays(r: Rules, b: Automaton, s: string)
    requires b.state.Data? && b.raw.tag != "script" && NoAngle(s)
    ensures Reads(r, b, s, b.stack, b)
  {
    if s != "" {
      var n := |s| - 1;
      assert s[n] != '<';
      DataStays(r, b, s[..n]);
    }
  }

  lemma RawStep(r: Rules, b: Automaton, c: char)
    requires b.state.RawText? && c != '<' && !r.scriptGuard
    ensures Step(r, b, c) == Next(Watch(b, c)) && !ClosesQuote(b.state, c)
  {
  }

  /** The script tail after `s`. */
  function WatchAll(b: Automaton, s: string): (c: Automaton)
    ensures c == b.(raw := b.raw.(tail := c.raw.tail))
  {
    if s == "" then b else Watch(WatchAll(b, s[..|s| - 1]), s[|s| - 1])
  }

  /** Text without an angle bracket never leaves script, style or RCDATA text. */
  lemma {:induction false} RawTextStays(r: Rules, b: Automaton, s: string)
    requires b.state.RawText? && NoAngle(s) && !r.scriptGuard
    ensures Reads(r, b, s, b.stack, WatchAll(b, s))
  {
    if s != "" {
      var n := |s| - 1;
      assert s[n] != '<';
      RawTextStays(r, b, s[..n]);
      RawStep(r, WatchAll(b, s[..n]), s[n]);
    }
  }

  lemma QuotedStep(r: Rules, b: Automaton, c: char)
    requires Quoted(b.state) && b.raw.tag == "" && !IsDelimiter(c)
    ensures Step(r, b, c) == Next(b.(value := b.value.(literal := b.value.literal + [c])))
    ensures !ClosesQuote(b.state, c)
  {
  }

  lemma ReadsSnoc(r: Rules, b: Automaton, s: string, c: Automaton, last: char, d: Automaton, base: seq<string>)
    requires Reads(r, b, s, base, c) && SafeAt(r, c, last) && Step(r, c, last) == Next(d)
    requires r.balance ==> base <= d.stack
    ensures Reads(r, b, s + [last], base, d)
  {
    var t := s + [last];
    assert t[..|t| - 1] == s && t[|t| - 1] == last;
  }

  lemma QuotedSnoc(r: Rules, b: Automaton, s: string, last: char)
    requires Quoted(b.state) && b.raw.tag == "" && !IsDelimiter(last)
    requires Reads(r, b, s, b.stack, WithLiteral(b, s))
    ensures Reads(r, b, s + [last], b.stack, WithLiteral(b, s + [last]))
  {
    QuotedStep(r, WithLiteral(b, s), last);
    assert b.value.literal + (s + [last]) == (b.value.literal + s) + [last];
    ReadsSnoc(r, b, s, WithLiteral(b, s), last, WithLiteral(b, s + [last]), b.stack);
  }

  lemma {:induction false} QuotedGrows(r: Rules, b: Automaton, s: string)
    requires Quoted(b.state) && b.raw.tag == "" && NoDelimiter(s)
    ensures Reads(r, b, s, b.stack, WithLiteral(b, s))
  {
    if s == "" {
      assert b.value.literal + s == b.value.literal;
    } else {
      var n := |s| - 1;
      var t := s[..n];
      QuotedGrows(r, b, t);
      assert !IsDelimiter(s[n]);
      QuotedSnoc(r, b, t, s[n]);
      assert t + [s[n]] == s;
    }
  }

  // ---- One node

  lemma RunUnsnoc(r: Rules, a: Automaton, s: string, last: char)
    requires Run(r, a, s + [last]).Reached?
    ensures Run(r, a, s).Reached?
    ensures Step(r, Run(r, a, s).auto, last) == Next(Run(r, a, s + [last]).auto)
  {
    assert (s + [last])[..|s|] == s;
  }

  lemma {:induction false} TextTracks(r: Rules, a: Automaton, b: Automaton, s: string, a': Automaton, balance: bool, base: seq<string>)
    returns (b': Automaton)
    requires LowerSound(r.lib) && r.urls && (balance ==> r.balance) && Tracks(r, a, b, balance, base)
    requires Run(r, a, s) == Reached(a')
    ensures Reads(Markup(r, balance), b, s, base, b') && Tracks(r, a', b', balance, base)
  {
    if s == "" {
      b' := b;
    } else {
      var t, last := s[..|s| - 1], s[|s| - 1];
      assert t + [last] == s;
      RunUnsnoc(r, a, t, last);
      var mid := TextTracks(r, a, b, t, Run(r, a, t).auto, balance, base);
      b' := CharTracks(r, Run(r, a, t).auto, mid, last, a', balance, base);
      ReadsSnoc(Markup(r, balance), b, t, mid, last, b', base);
    }
  }

  lemma BaseIsBelow(r: Rules, a: Automaton, b: Automaton, balance: bool, base: seq<string>, s: string)
    requires Agree(a, b, balance, base) && Trail(Markup(r, balance), b, s, b.stack)
    ensures Trail(Markup(r, balance), b, s, base)
  {
    if balance {
      TrailBase(Markup(r, balance), b, s, base, b.stack);
    } else {
      TrailFree(Markup(r, balance), b, s, b.stack, base);
    }
  }

  /** Without tag balance the base does not matter. */
  lemma {:induction false} TrailFree(r: Rules, b: Automaton, s: string, base: seq<string>, other: seq<string>)
    requires Trail(r, b, s, base) && !r.balance
    ensures Trail(r, b, s, other)
  {
    if s != "" { TrailFree(r, b, s[..|s| - 1], base, other); }
  }

  lemma BenignTracks(r: Rules, a: Automaton, b: Automaton, s: string, balance: bool, base: seq<string>)
    returns (b': Automaton)
    requires a.state.Data? && Tracks(r, a, b, balance, base) && IsBenignFrom(Markup(r, balance), b, s)
    ensures Reads(Markup(r, balance), b, s, base, b') && Tracks(r, a, b', balance, base)
  {
    b' := Run(Markup(r, balance), b, s).auto;
    BaseIsBelow(r, a, b, balance, base, s);
  }

  lemma InertTracks(r: Rules, a: Automaton, b: Automaton, s: string, balance: bool, base: seq<string>)
    returns (b': Automaton)
    requires a.state.RawText? && Tracks(r, a, b, balance, base) && IsInertFrom(Markup(r, balance), b, s)
    ensures Reads(Markup(r, balance), b, s, base, b') && Tracks(r, a, b', balance, base)
  {
    b' := Run(Markup(r, balance), b, s).auto;
    BaseIsBelow(r, a, b, balance, base, s);
  }

  lemma TextHoleTracks(r: Rules, a: Automaton, b: Automaton, fill: Fill, balance: bool, base: seq<string>)
    returns (b': Automaton)
    requires a.state.Data? && Tracks(r, a, b, balance, base) && Trustworthy(r, fill, balance)
    ensures Reads(Markup(r, balance), b, WriteText(fill), base, b') && Tracks(r, a, b', balance, base)
  {
    if fill.TrustedHtml? {
      assert IsBenignFrom(Markup(r, balance), b, fill.text);
      b' := BenignTracks(r, a, b, fill.text, balance, base);
    } else {
      b' := b;
      EscapedHasNoDelimiter(NormalizeText(StringValue(fill)));
      DataStays(Markup(r, balance), b, WriteText(fill));
      BaseIsBelow(r, a, b, balance, base, WriteText(fill));
    }
  }

  lemma RawHoleTracks(r: Rules, a: Automaton, b: Automaton, s: string, balance: bool, base: seq<string>)
    returns (b': Automaton)
    requires a.state.RawText? && Tracks(r, a, b, balance, base) && NoAngle(s)
    ensures Reads(Markup(r, balance), b, s, base, b') && Tracks(r, a, b', balance, base)
  {
    RawTextStays(Markup(r, balance), b, s);
    b' := WatchAll(b, s);
    BaseIsBelow(r, a, b, balance, base, s);
  }

  /** In a URL attribute the value written is harmless on its own. */
  predicate WrittenFor(r: Rules, a: Automaton, s: string) {
    NoDelimiter(s) && (a.element.attr in r.tables.urlAttributes ==> HarmlessUrl(Unescape(r.lib, s)))
  }

  lemma NotedUrl(r: Rules, a: Automaton, b: Automaton, s: string, index: nat)
    requires Quoted(a.state) && UrlAgrees(r, a, b) && WrittenFor(r, a, s)
    requires a.value.nodes == [] ==> b.value.literal == a.value.literal
    ensures UrlAgrees(r, NoteExpression(a, index), WithLiteral(b, s))
  {
    if HasPrefix(b.value.literal, a.value.prefix) { PrefixGrows(b.value.literal, a.value.prefix, s); }
    assert b.value.literal == "" ==> b.value.literal + s == s;
  }

  lemma QuotedHoleTracks(r: Rules, a: Automaton, b: Automaton, s: string, index: nat, balance: bool, base: seq<string>)
    requires Quoted(a.state) && Tracks(r, a, b, balance, base) && WrittenFor(r, a, s)
    requires !(a.element.tag == "meta" && a.element.attr == "http-equiv")
    ensures Reads(Markup(r, balance), b, s, base, WithLiteral(b, s))
    ensures Tracks(r, NoteExpression(a, index), WithLiteral(b, s), balance, base)
  {
    QuotedGrows(Markup(r, balance), b, s);
    BaseIsBelow(r, a, b, balance, base, s);
    NotedUrl(r, a, b, s, index);
  }

  lemma UrlIsWritten(lib: Library, fill: Fill)
    requires Sound(lib) && WriteUrl(lib, fill).Bytes?
    ensures NoDelimiter(WriteUrl(lib, fill).text) && HarmlessUrl(Unescape(lib, WriteUrl(lib, fill).text))
  {
    var value := StringValue(fill);
    var url := CanonicalUrl(lib, value).url;
    EscapedHasNoDelimiter(url);
    UnescapeUndoesEscape(lib, url);
    CanonicalUrlIsHarmless(lib, value);
  }

  /** An expression, written for the context the analysis gave it, keeps the rendering on track. */
  lemma HoleTracks(r: Rules, a: Automaton, b: Automaton, fill: Fill, index: nat, balance: bool, base: seq<string>)
    returns (b': Automaton)
    requires Sound(r.lib) && Tracks(r, a, b, balance, base) && ExpressionProblem(r.tables, a).None?
    requires var context := DynamicContext(r.tables, a);
             && WriteIn(r.lib, context, fill).Bytes? && Trustworthy(r, fill, balance)
             && (context.Js? ==> fill.TrustedJs?) && (context.Css? ==> fill.TrustedCss?)
    ensures Reads(Markup(r, balance), b, WriteIn(r.lib, DynamicContext(r.tables, a), fill).text, base, b')
    ensures Tracks(r, NoteExpression(a, index), b', balance, base)
  {
    var s := WriteIn(r.lib, DynamicContext(r.tables, a), fill).text;
    if a.state.Data? {
      b' := TextHoleTracks(r, a, b, fill, balance, base);
    } else if Quoted(a.state) {
      if a.element.attr in r.tables.urlAttributes {
        UrlIsWritten(r.lib, fill);
      } else {
        EscapedHasNoDelimiter(NormalizeText(StringValue(fill)));
      }
      QuotedHoleTracks(r, a, b, s, index, balance, base);
      b' := WithLiteral(b, s);
    } else if DynamicContext(r.tables, a).Rcdata? {
      EscapedHasNoDelimiter(NormalizeText(StringValue(fill)));
      b' := RawHoleTracks(r, a, b, s, balance, base);
    } else {
      assert IsInertFrom(Markup(r, balance), b, s);
      b' := InertTracks(r, a, b, s, balance, base);
    }
  }

  lemma NodeTracks(r: Rules, a: Automaton, b: Automaton, node: Node, fill: Fill, index: nat, balance: bool, base: seq<string>)
    returns (b': Automaton)
    requires Sound(r.lib) && r.urls && (balance ==> r.balance) && Tracks(r, a, b, balance, base)
    requires NodeStep(r, a, node, index).Reached? && Trustworthy(r, fill, balance)
    requires var annotated := AssignContext(r.tables, a, node);
             Fits(annotated, fill) && WriteNode(r.lib, annotated, fill).Bytes?
    ensures Reads(Markup(r, balance), b, WriteNode(r.lib, AssignContext(r.tables, a, node), fill).text, base, b')
    ensures Tracks(r, NodeStep(r, a, node, index).auto, b', balance, base)
  {
    match node.kind
    case TextNode => b' := TextTracks(r, a, b, node.text, NodeStep(r, a, node, index).auto, balance, base);
    case CommentNode => b' := b;
    case StatementNode => b' := b;
    case ComponentNode =>
      assert IsBenignFrom(Markup(r, balance), b, fill.text);
      b' := BenignTracks(r, a, b, fill.text, balance, base);
    case ExpressionNode => b' := HoleTracks(r, a, b, fill, index, balance, base);
  }

  // ---- A stretch of nodes

  /** Every hole from `lo` up to `hi` is filled by something of its type that deserves the trust placed in it. */
  ghost predicate FilledOn(r: Rules, nodes: seq<Node>, fills: seq<Fill>, lo: nat, hi: nat, balance: bool)
    requires lo <= hi <= |nodes|
  {
    |fills| == |nodes| && forall i | lo <= i < hi :: FilledAt(r, nodes, fills, i, balance)
  }

  ghost predicate Filled(r: Rules, nodes: seq<Node>, fills: seq<Fill>, balance: bool) {
    FilledOn(r, nodes, fills, 0, |nodes|, balance)
  }

  ghost predicate FilledAt(r: Rules, nodes: seq<Node>, fills: seq<Fill>, i: nat, balance: bool)
    requires i < |nodes| == |fills|
  {
    Fits(AnnotatedNode(r, nodes, i), fills[i]) && Trustworthy(r, fills[i], balance)
  }

  /** What the nodes from `lo` up to `hi` write in the contexts the analysis gave them. */
  function Rendered(r: Rules, nodes: seq<Node>, fills: seq<Fill>, lo: nat, hi: nat): Emitted
    requires lo <= hi <= |nodes| == |fills|
  {
    Output(r.lib, Annotated(r, nodes), fills, lo, hi)
  }

  /** From any automaton on track at node `lo`, what is rendered keeps it on track up to node `hi`. */
  lemma {:induction false} SegmentTracks(r: Rules, nodes: seq<Node>, fills: seq<Fill>, lo: nat, hi: nat,
                                         b: Automaton, balance: bool, base: seq<string>)
    returns (b': Automaton)
    requires Sound(r.lib) && r.urls && (balance ==> r.balance)
    requires lo <= hi <= |nodes| && FilledOn(r, nodes, fills, lo, hi, balance)
    requires Before(r, nodes, lo).Reached? && Before(r, nodes, hi).Reached?
    requires Tracks(r, Before(r, nodes, lo).auto, b, balance, base)
    requires Rendered(r, nodes, fills, lo, hi).Bytes?
    ensures Reads(Markup(r, balance), b, Rendered(r, nodes, fills, lo, hi).text, base, b')
    ensures Tracks(r, Before(r, nodes, hi).auto, b', balance, base)
  {
    if lo == hi {
      b' := b;
    } else {
      var n := hi - 1;
      BeforeReached(r, nodes, n, hi);
      var mid := SegmentTracks(r, nodes, fills, lo, n, b, balance, base);
      assert FilledAt(r, nodes, fills, n, balance);
      var node := AnnotatedNode(r, nodes, n);
      b' := NodeTracks(r, Before(r, nodes, n).auto, mid, nodes[n], fills[n], n, balance, base);
      ReadsConcat(Markup(r, balance), b, Rendered(r, nodes, fills, lo, n).text, mid, WriteNode(r.lib, node, fills[n]).text, b', base);
    }
  }
}
