/** Printing template pieces as text and tags, which tokenizing undoes. */
module Printing {
  import opened Text
  import opened Bytes
  import opened Tokenizer

  function Opening(k: Kind): string
    requires k != Literal
  {
    match k
    case Statement => "<? "
    case Expression => "<?= "
    case Component => "<?~ "
    case Comment => "<?# "
  }

  function Print(p: Piece): string {
    if p.kind == Literal then p.text else Opening(p.kind) + p.text + " ?>"
  }

  /** Go's lexer, in mode `m`, is back in code at the end of `b`, having met no ?> in code before. */
  predicate Closes(b: string, j: nat, m: Mode)
    requires j <= |b|
    decreases |b| - j
  {
    if j == |b| then IsCode(m) else !(IsCode(m) && IsPair(b, j, '?', '>')) && Closes(b, j + 1, Next(m, b[j]))
  }

  /** What a piece must be for its printed form to say it. The space belongs to the printed form: a line comment
      that it does not end would swallow the ?>. */
  predicate IsPrintable(p: Piece, errors: map<string, seq<nat>>) {
    match p.kind
    case Literal => p.text != "" && forall j | 0 <= j < |p.text| :: !IsPair(p.text, j, '<', '?')
    case Comment => IsTrimmed(p.text) && forall j | 0 <= j < |p.text| :: !IsPair(p.text, j, '?', '>')
    case Statement => p.text != "" && IsTrimmed(p.text) && Closes(p.text + " ", 0, Code) && !StartsWithSando(p.text, 0, |p.text|)
    case _ => p.text != "" && IsTrimmed(p.text) && Closes(p.text + " ", 0, Code) && p.text !in errors
  }

  predicate ArePrintable(ps: seq<Piece>, errors: map<string, seq<nat>>) {
    && (forall k | 0 <= k < |ps| :: IsPrintable(ps[k], errors))
    && forall k | 0 < k < |ps| :: ps[k].kind != Literal || ps[k - 1].kind != Literal
  }

  function PrintFrom(ps: seq<Piece>, k: nat): string
    requires k <= |ps|
    decreases |ps| - k
  {
    if k == |ps| then "" else Print(ps[k]) + PrintFrom(ps, k + 1)
  }

  // ---- One tag

  /** A body that closes is read through to the ?> behind it. */
  lemma {:induction false} BodyReadsThrough(s: string, i: nat, b: string, j: nat, m: Mode)
    requires j <= |b| && b != "" && b[|b| - 1] == ' ' && Closes(b, j, m)
    requires Holds(s, i, b) && IsPair(s, i + |b|, '?', '>')
    ensures Delimiter(s, i + j, m) == Some(i + |b|)
    decreases |b| - j
  {
    if j < |b| {
      assert s[i + j] == b[j];
      assert j + 1 < |b| ==> s[i + (j + 1)] == b[j + 1];
      BodyReadsThrough(s, i, b, j + 1, Next(m, b[j]));
    }
  }

  /** Between two spaces, what is trimmed away is the spaces. */
  lemma TrimsToBody(s: string, c: nat, body: string)
    requires body != "" && IsTrimmed(body) && Holds(s, c + 1, body) && c + |body| + 2 <= |s|
    requires s[c] == ' ' && s[c + 1 + |body|] == ' '
    ensures TrimmedStart(s, c, c + |body| + 2) == c + 1
    ensures TrimmedEnd(s, c + 1, c + |body| + 2) == c + 1 + |body|
  {
    var n := c + |body| + 2;
    SpaceShifts(s, c + 1, body);
    assert TrimmedStart(s, c + 1, n) == c + 1;
    assert TrimmedEnd(s, c + 1, n - 1) == n - 1;
  }

  lemma SpaceShifts(s: string, i: nat, body: string)
    requires body != "" && IsTrimmed(body) && Holds(s, i, body) && i + |body| < |s| && s[i + |body|] == ' '
    ensures SpaceAt(s, i, i + |body| + 1) == 0 && SpaceBefore(s, i, i + |body|) == 0
  {
    var n := |body|;
    assert s[i] == body[0] && s[i + (n - 1)] == body[n - 1];
    assert n >= 2 ==> s[i + 1] == body[1] && s[i + (n - 2)] == body[n - 2];
    assert n >= 3 ==> s[i + 2] == body[2] && s[i + (n - 3)] == body[n - 3];
  }

  predicate HasSigil(s: string, i: nat, k: Kind) {
    && IsPair(s, i, '<', '?') && i + 2 < |s|
    && s[i + 2] == match k case Expression => '=' case Component => '~' case Comment => '#' case _ => ' '
  }

  /** Where the space that ends the opening of a printed tag stands. */
  function SpaceIn(i: nat, k: Kind): nat { if k == Statement then i + 2 else i + 3 }

  /** A tag with the body `text`, printed at `i`. */
  predicate IsPrintedTag(s: string, i: nat, k: Kind, text: string) {
    && k != Literal && HasSigil(s, i, k)
    && var c := SpaceIn(i, k);
       c + |text| + 4 <= |s| && s[c] == ' ' && Holds(s, c + 1, text) && s[c + 1 + |text|] == ' '
       && IsPair(s, c + |text| + 2, '?', '>')
  }

  lemma PrintedTag(s: string, i: nat, p: Piece)
    requires p.kind != Literal && Holds(s, i, Print(p))
    ensures IsPrintedTag(s, i, p.kind, p.text) && SpaceIn(i, p.kind) + |p.text| + 4 == i + |Print(p)|
  {
    var o := Opening(p.kind);
    HoldsParts(s, i, o + p.text, " ?>");
    HoldsParts(s, i, o, p.text);
    var e := i + |o + p.text|;
    assert s[i] == o[0] && s[i + 1] == o[1] && s[i + 2] == o[2] && s[i + (|o| - 1)] == o[|o| - 1];
    var tail := " ?>";
    assert s[e + 0] == tail[0] && s[e + 1] == tail[1] && s[e + 2] == tail[2];
  }

  lemma GoTagCloses(s: string, i: nat, k: Kind, text: string)
    requires IsPrintedTag(s, i, k, text) && k != Comment && Closes(text + " ", 0, Code)
    ensures Close(s, i) == Some(SpaceIn(i, k) + |text| + 2)
  {
    var c := SpaceIn(i, k);
    var b := text + " ";
    assert Holds(s, c + 1, b);
    BodyReadsThrough(s, c + 1, b, 0, Code);
    assert Delimiter(s, c, Code) == Delimiter(s, c + 1, Code);
    assert Delimiter(s, i + 2, Code) == Delimiter(s, c, Code);
  }

  lemma CommentCloses(s: string, i: nat, text: string)
    requires IsPrintedTag(s, i, Comment, text) && forall j | 0 <= j < |text| :: !IsPair(text, j, '?', '>')
    ensures Close(s, i) == Some(i + |text| + 5)
  {
    var close := i + |text| + 5;
    forall j | i + 2 <= j < close ensures !IsPair(s, j, '?', '>') {
      if i + 4 <= j < i + 4 + |text| {
        assert s[j] == text[j - (i + 4)] && !IsPair(text, j - (i + 4), '?', '>');
        assert j + 1 < i + 4 + |text| ==> s[j + 1] == text[j - (i + 4) + 1];
      }
    }
  }

  lemma SandoShifts(s: string, i: nat, text: string)
    requires Holds(s, i, text)
    ensures StartsWithSando(s, i, i + |text|) == StartsWithSando(text, 0, |text|)
  {
    assert |text| >= 5 ==> s[i + 0] == text[0] && s[i + 1] == text[1] && s[i + 2] == text[2];
    assert |text| >= 5 ==> s[i + 3] == text[3] && s[i + 4] == text[4];
  }

  lemma TagIsNotReserved(s: string, i: nat, p: Piece)
    requires IsPrintedTag(s, i, p.kind, p.text)
    requires p.kind == Statement ==> p.text != "" && IsTrimmed(p.text) && !StartsWithSando(p.text, 0, |p.text|)
    ensures !IsReserved(s, i + 2, SpaceIn(i, p.kind) + |p.text| + 2)
  {
    var close := SpaceIn(i, p.kind) + |p.text| + 2;
    if p.kind == Statement {
      TrimsToBody(s, i + 2, p.text);
      SandoShifts(s, i + 3, p.text);
    } else {
      assert TrimmedStart(s, i + 2, close) == i + 2;
    }
  }

  /** Trimming `s[c..n]` leaves `text`. */
  predicate LeavesText(s: string, c: nat, n: nat, text: string)
    requires c <= n <= |s|
  {
    var a := TrimmedStart(s, c, n);
    TrimmedEnd(s, a, n) == a + |text| && Holds(s, a, text)
  }

  lemma LeavesBody(s: string, i: nat, k: Kind, text: string)
    requires IsPrintedTag(s, i, k, text) && IsTrimmed(text)
    ensures LeavesText(s, SpaceIn(i, k), SpaceIn(i, k) + |text| + 2, text)
  {
    var c := SpaceIn(i, k);
    if text == "" {
      assert TrimmedStart(s, c + 1, c + 2) == c + 2;
    } else {
      TrimsToBody(s, c, text);
    }
  }

  lemma TagSpans(s: string, i: nat, p: Piece, errors: map<string, seq<nat>>)
    requires IsPrintedTag(s, i, p.kind, p.text) && IsPrintable(p, errors)
    ensures TokenAt(s, i) == Token(Tag(p.kind), i, SpaceIn(i, p.kind) + |p.text| + 4)
  {
    var close := SpaceIn(i, p.kind) + |p.text| + 2;
    if p.kind == Comment { CommentCloses(s, i, p.text); } else { GoTagCloses(s, i, p.kind, p.text); }
    assert KindAt(s, i + 2, close) == p.kind;
  }

  lemma PrintableIsTrimmed(p: Piece, errors: map<string, seq<nat>>)
    requires p.kind != Literal && IsPrintable(p, errors)
    ensures IsTrimmed(p.text) && (p.kind == Comment || p.text != "") && (IsGo(p.kind) ==> p.text !in errors)
    ensures p.kind == Statement ==> !StartsWithSando(p.text, 0, |p.text|)
  {
  }

  /** Where a printed tag is found to end, and what is found inside it. */
  lemma TagIsFound(s: string, i: nat, p: Piece, errors: map<string, seq<nat>>)
    requires p.kind != Literal && IsPrintable(p, errors) && Holds(s, i, Print(p))
    ensures i < |s| && TokenAt(s, i) == Token(Tag(p.kind), i, i + |Print(p)|)
    ensures !IsReserved(s, i + 2, i + |Print(p)| - 2)
    ensures LeavesText(s, SpaceIn(i, p.kind), i + |Print(p)| - 2, p.text)
  {
    PrintedTag(s, i, p);
    PrintableIsTrimmed(p, errors);
    TagSpans(s, i, p, errors);
    TagIsNotReserved(s, i, p);
    LeavesBody(s, i, p.kind, p.text);
  }

  /** The token is kept as the piece. */
  predicate IsKept(s: string, t: Token, p: Piece, base: nat, errors: map<string, seq<nat>>)
    requires t.lo <= t.hi <= |s| && (t.shape.Tag? ==> ContentStart(t) <= t.hi - 2)
  {
    var o := ReadToken(s, t, base, errors); o.Kept? && o.node.piece == p
  }

  lemma KeepsPiece(s: string, t: Token, p: Piece, base: nat, errors: map<string, seq<nat>>)
    requires t.shape == Tag(p.kind) && ContentStart(t) <= t.hi - 2 && t.hi <= |s|
    requires !IsReserved(s, t.lo + 2, t.hi - 2) && LeavesText(s, ContentStart(t), t.hi - 2, p.text)
    requires p.kind == Comment || p.text != ""
    requires IsGo(p.kind) ==> p.text !in errors
    ensures IsKept(s, t, p, base, errors)
  {
    assert Body(s, t) == p.text;
  }

  /** What reading the piece printed at `i` comes to. */
  predicate Reads(s: string, i: nat, p: Piece, base: nat, errors: map<string, seq<nat>>) {
    && i < |s| && TokenAt(s, i).hi == i + |Print(p)|
    && IsKept(s, TokenAt(s, i), p, base, errors)
  }

  /** A printed tag is read as the token that spans it, and kept as the piece it was. */
  lemma TagIsRead(s: string, i: nat, p: Piece, base: nat, errors: map<string, seq<nat>>)
    requires p.kind != Literal && IsPrintable(p, errors) && Holds(s, i, Print(p))
    ensures Reads(s, i, p, base, errors)
  {
    PrintableIsTrimmed(p, errors);
    TagIsFound(s, i, p, errors);
    KeepsPiece(s, TokenAt(s, i), p, base, errors);
  }

  /** Text is read up to the tag behind it. */
  lemma TextIsRead(s: string, i: nat, p: Piece, base: nat, errors: map<string, seq<nat>>)
    requires p.kind == Literal && IsPrintable(p, errors) && Holds(s, i, p.text)
    requires i + |p.text| == |s| || IsPair(s, i + |p.text|, '<', '?')
    ensures i < |s| && TokenAt(s, i).hi == i + |p.text|
    ensures ReadToken(s, TokenAt(s, i), base, errors) == Kept(Node(p, base + i))
  {
    var n := i + |p.text|;
    forall j | i <= j < n ensures !IsPair(s, j, '<', '?') {
      assert s[i + (j - i)] == p.text[j - i] && !IsPair(p.text, j - i, '<', '?');
      assert j + 1 < n ==> s[i + (j + 1 - i)] == p.text[j + 1 - i];
    }
    assert TokenAt(s, i) == Token(Plain, i, n);
    assert s[i..n] == p.text;
  }

  // ---- All of them

  /** `s` from `i` on is the printing of the pieces from `k` on. */
  predicate Prints(s: string, i: nat, ps: seq<Piece>, k: nat)
    requires k <= |ps|
    decreases |ps| - k
  {
    if k == |ps| then i == |s| else Holds(s, i, Print(ps[k])) && Prints(s, i + |Print(ps[k])|, ps, k + 1)
  }

  lemma {:induction false} PrintFromPrints(pre: string, ps: seq<Piece>, k: nat)
    requires k <= |ps|
    ensures Prints(pre + PrintFrom(ps, k), |pre|, ps, k)
    decreases |ps| - k
  {
    if k < |ps| {
      var w := Print(ps[k]);
      MiddleHolds(pre, w, PrintFrom(ps, k + 1));
      PrintFromPrints(pre + w, ps, k + 1);
    }
  }

  lemma NextOpens(s: string, i: nat, ps: seq<Piece>, k: nat)
    requires k < |ps| && Prints(s, i, ps, k) && ps[k].kind != Literal
    ensures IsPair(s, i, '<', '?') && i < |s|
  {
    PrintedTag(s, i, ps[k]);
  }

  lemma TextPieceIsRead(s: string, i: nat, ps: seq<Piece>, k: nat, base: nat, errors: map<string, seq<nat>>)
    requires k < |ps| && Prints(s, i, ps, k) && ArePrintable(ps, errors) && ps[k].kind == Literal
    ensures Reads(s, i, ps[k], base, errors)
  {
    if k + 1 < |ps| { NextOpens(s, i + |Print(ps[k])|, ps, k + 1); }
    TextIsRead(s, i, ps[k], base, errors);
  }

  lemma PieceIsRead(s: string, i: nat, ps: seq<Piece>, k: nat, base: nat, errors: map<string, seq<nat>>)
    requires k < |ps| && Prints(s, i, ps, k) && ArePrintable(ps, errors)
    ensures Reads(s, i, ps[k], base, errors)
  {
    if ps[k].kind == Literal {
      TextPieceIsRead(s, i, ps, k, base, errors);
    } else {
      TagIsRead(s, i, ps[k], base, errors);
    }
  }

  /** The outcomes are the pieces from the `k`th on. */
  predicate Keeps(os: seq<Outcome>, ps: seq<Piece>, k: nat) {
    k + |os| == |ps| && forall j | 0 <= j < |os| :: os[j].Kept? && os[j].node.piece == ps[k + j]
  }

  lemma KeepsOne(o: Outcome, os: seq<Outcome>, ps: seq<Piece>, k: nat)
    requires k < |ps| && o.Kept? && o.node.piece == ps[k] && Keeps(os, ps, k + 1)
    ensures Keeps([o] + os, ps, k)
  {
    forall j | 1 <= j < |os| + 1 ensures ([o] + os)[j].Kept? && ([o] + os)[j].node.piece == ps[k + j] {
      assert ([o] + os)[j] == os[j - 1] && ps[k + 1 + (j - 1)] == ps[k + j];
    }
  }

  lemma {:induction false} PiecesAreRead(s: string, i: nat, ps: seq<Piece>, k: nat, base: nat, errors: map<string, seq<nat>>)
    requires k <= |ps| && i <= |s| && Prints(s, i, ps, k) && ArePrintable(ps, errors)
    ensures Keeps(Outcomes(s, i, base, errors), ps, k)
    decreases |ps| - k
  {
    if k < |ps| {
      var next := i + |Print(ps[k])|;
      PieceIsRead(s, i, ps, k, base, errors);
      PiecesAreRead(s, next, ps, k + 1, base, errors);
      ConsOutcome(s, i, next, base, errors);
      KeepsOne(ReadToken(s, TokenAt(s, i), base, errors), Outcomes(s, next, base, errors), ps, k);
    }
  }

  lemma ConsOutcome(s: string, i: nat, next: nat, base: nat, errors: map<string, seq<nat>>)
    requires i < |s| && TokenAt(s, i).hi == next
    ensures Outcomes(s, i, base, errors)
         == [ReadToken(s, TokenAt(s, i), base, errors)] + Outcomes(s, next, base, errors)
  {
  }

  lemma {:induction false} AllKept(os: seq<Outcome>)
    requires forall j | 0 <= j < |os| :: os[j].Kept?
    ensures |NodesOf(os)| == |os| && ReportsOf(os) == []
    ensures forall j | 0 <= j < |os| :: NodesOf(os)[j] == os[j].node
  {
    if os != [] { AllKept(os[..|os| - 1]); }
  }

  /** Tokenizing undoes printing: any list of printable pieces comes back, in order, with no diagnostic. */
  lemma TokenizingUndoesPrinting(ps: seq<Piece>, base: nat, errors: map<string, seq<nat>>)
    requires ArePrintable(ps, errors)
    ensures var os := Outcomes(PrintFrom(ps, 0), 0, base, errors);
            && ReportsOf(os) == [] && |NodesOf(os)| == |ps|
            && forall k | 0 <= k < |ps| :: NodesOf(os)[k].piece == ps[k]
  {
    var s := PrintFrom(ps, 0);
    PrintFromPrints("", ps, 0);
    assert "" + s == s;
    PiecesAreRead(s, 0, ps, 0, base, errors);
    AllKept(Outcomes(s, 0, base, errors));
  }
}
