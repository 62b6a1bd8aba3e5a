/** The frames of the language server's base protocol: a header that gives a length, and a payload of that many bytes.
    Input and output are read byte by byte, one character for each byte. */
module Framing {
  import opened Text
  import opened Sequences
  import opened Bytes
  import Tokenizer

  const MAX_MESSAGE_BYTES: nat := 0x100_0000
  const MAX_HEADER_BYTES: nat := 0x1_0000
  const MAX_HEADER_LINES: nat := 64
  const MAX_LINE_BYTES: nat := 0x2000

  // ---- Numbers

  function Digit(n: nat): char
    requires n < 10
  {
    '0' + n as char
  }

  /** %d */
  function Decimal(n: nat): (s: string)
    ensures s != ""
  {
    if n < 10 then [Digit(n)] else Decimal(n / 10) + [Digit(n % 10)]
  }

  predicate AreDigits(s: string) { s == "" || (IsDigit(s[|s| - 1]) && AreDigits(s[..|s| - 1])) }

  function Value(s: string): nat
    requires AreDigits(s)
  {
    if s == "" then 0 else 10 * Value(s[..|s| - 1]) + (s[|s| - 1] as int - '0' as int)
  }

  /** strconv.Atoi. What it refuses for being out of range is refused by the reader anyway. */
  function Atoi(s: string): Option<int> {
    var digits := if s != "" && (s[0] == '+' || s[0] == '-') then s[1..] else s;
    if digits == "" || !AreDigits(digits) then None
    else
      var value: int := Value(digits);
      Some(if s[0] == '-' then -value else value)
  }

  lemma {:induction false} ValueOfDecimal(n: nat)
    ensures AreDigits(Decimal(n)) && Value(Decimal(n)) == n
  {
    if n >= 10 {
      ValueOfDecimal(n / 10);
      var s := Decimal(n / 10);
      assert (s + [Digit(n % 10)])[..|s|] == s;
    } else {
      assert [Digit(n)][..0] == "";
    }
  }

  lemma {:induction false} DigitAt(s: string, i: nat)
    requires AreDigits(s) && i < |s|
    ensures IsDigit(s[i])
  {
    if i < |s| - 1 { DigitAt(s[..|s| - 1], i); }
  }

  /** Reading a number back. */
  lemma AtoiOfDecimal(n: nat)
    ensures Atoi(Decimal(n)) == Some(n)
  {
    ValueOfDecimal(n);
    DigitAt(Decimal(n), 0);
  }

  function Pow10(k: nat): nat { if k == 0 then 1 else 10 * Pow10(k - 1) }

  lemma {:induction false} DecimalIsShort(n: nat, k: nat)
    requires k > 0 && n < Pow10(k)
    ensures |Decimal(n)| <= k
  {
    if n >= 10 {
      DecimalIsShort(n / 10, k - 1);
    }
  }

  // ---- Headers

  datatype Error = EndOfInput | HeadersTooLong | LineTooLong | MalformedHeader | DuplicateLength | BadLength | MissingLength

  datatype Header = Malformed | Other | Length(value: Option<int>)

  const CONTENT_LENGTH := "content-length"

  /** The first colon from `i`, or the length of the line. */
  function FindColon(line: string, i: nat): (r: nat)
    requires i <= |line|
    ensures i <= r <= |line|
    decreases |line| - i
  {
    if i == |line| || line[i] == ':' then i else FindColon(line, i + 1)
  }

  /** The first `n` characters from `i` are those of the header's name, in either case. */
  predicate SpellsLength(line: string, i: nat, n: nat)
    requires i + n <= |line| && n <= 14
  {
    n == 0 || (Fold(line[i + n - 1]) == CONTENT_LENGTH[n - 1] && SpellsLength(line, i, n - 1))
  }

  /** strings.EqualFold of the trimmed bytes before the colon. */
  predicate NamesLength(line: string, colon: nat)
    requires colon <= |line|
  {
    var start := Tokenizer.TrimmedStart(line, 0, colon);
    Tokenizer.TrimmedEnd(line, start, colon) == start + 14 && SpellsLength(line, start, 14)
  }

  /** A header line without its ending. */
  function ParseHeader(line: string): Header {
    var colon := FindColon(line, 0);
    if colon == |line| then Malformed
    else if NamesLength(line, colon) then Length(Atoi(Tokenizer.Trimmed(line, colon + 1, |line|)))
    else Other
  }

  datatype Line = Line(text: string, end: nat) | NoLine(error: Error)

  /** The first newline from `at`, or the length of the input. */
  function FindNewline(input: string, at: nat): (r: nat)
    requires at <= |input|
    ensures at <= r <= |input|
    decreases |input| - at
  {
    if at == |input| || input[at] == '\n' then at else FindNewline(input, at + 1)
  }

  /** Where a line ends before its newline and, at most, one carriage return before that. */
  function TextEnd(input: string, at: nat, newline: nat): (r: nat)
    requires at <= newline <= |input|
    ensures at <= r <= newline
  {
    if newline > at && input[newline - 1] == '\r' then newline - 1 else newline
  }

  /** The header line at `at`, within the limits that the lines before it have left. */
  function NextLine(input: string, at: nat, bytes: nat, lines: nat): (l: Line)
    requires at <= |input|
    ensures l.Line? ==> at < l.end <= |input|
  {
    var newline := FindNewline(input, at);
    if newline == |input| then NoLine(EndOfInput)
    else if bytes + (newline + 1 - at) > MAX_HEADER_BYTES || lines + 1 > MAX_HEADER_LINES then NoLine(HeadersTooLong)
    else if newline + 1 - at > MAX_LINE_BYTES then NoLine(LineTooLong)
    else Line(input[at..TextEnd(input, at, newline)], newline + 1)
  }

  datatype Noted = Noted(length: Option<nat>) | Refused(error: Error)

  /** What a header line says of the length, when `length` is what was known before it. */
  function Note(line: string, length: Option<nat>): Noted {
    match ParseHeader(line)
    case Malformed => Refused(MalformedHeader)
    case Other => Noted(length)
    case Length(v) =>
      if length.Some? then Refused(DuplicateLength)
      else if v.None? || v.value < 0 || v.value > MAX_MESSAGE_BYTES then Refused(BadLength)
      else Noted(Some(v.value))
  }

  datatype Headers = Complete(length: Option<nat>, end: nat) | Bad(error: Error)

  /** The header lines from `at`, after lines of so many bytes in all. */
  function ReadHeaders(input: string, at: nat, length: Option<nat>, bytes: nat, lines: nat): (h: Headers)
    requires at <= |input|
    ensures h.Complete? ==> at < h.end <= |input|
    decreases |input| - at
  {
    match NextLine(input, at, bytes, lines)
    case NoLine(error) => Bad(error)
    case Line(text, end) =>
      if text == "" then Complete(length, end)
      else match Note(text, length)
        case Refused(error) => Bad(error)
        case Noted(known) => ReadHeaders(input, end, known, bytes + (end - at), lines + 1)
  }

  lemma HeadersStep(input: string, at: nat, length: Option<nat>, bytes: nat, lines: nat, line: Line)
    requires at <= |input| && line == NextLine(input, at, bytes, lines)
    ensures var h := ReadHeaders(input, at, length, bytes, lines);
            && (line.NoLine? ==> h == Bad(line.error))
            && (line.Line? && line.text == "" ==> h == Complete(length, line.end))
            && (line.Line? && line.text != "" ==>
                  var noted := Note(line.text, length);
                  h == if noted.Refused? then Bad(noted.error)
                       else ReadHeaders(input, line.end, noted.length, bytes + (line.end - at), lines + 1))
  {
  }

  datatype Outcome = Frame(payload: string, end: nat) | Failed(error: Error)

  function ReadFrame(input: string, at: nat): (o: Outcome)
    requires at <= |input|
    ensures o.Frame? ==> at < o.end <= |input|
  {
    match ReadHeaders(input, at, None, 0, 0)
    case Bad(error) => Failed(error)
    case Complete(length, end) =>
      if length.None? then Failed(MissingLength)
      else if end + length.value > |input| then Failed(EndOfInput)
      else Frame(input[end..end + length.value], end + length.value)
  }

  /** frameReader, over everything that will ever arrive. */
  class FrameReader {
    const input: string
    var at: nat

    constructor (input: string)
      ensures this.input == input && at == 0
    {
      this.input, at := input, 0;
    }

    predicate Valid()
      reads this
    {
      at <= |input|
    }

    /** One header line, which leaves its bytes read. */
    method ReadLine(headerBytes: nat, headerLines: nat) returns (l: Line)
      requires Valid()
      modifies `at
      ensures l == NextLine(input, old(at), headerBytes, headerLines)
      ensures Valid() && at == if l.Line? then l.end else old(at)
    {
      var newline := FindNewline(input, at);
      if newline == |input| {
        return NoLine(EndOfInput);
      }
      var size := newline + 1 - at;
      if headerBytes + size > MAX_HEADER_BYTES || headerLines + 1 > MAX_HEADER_LINES {
        return NoLine(HeadersTooLong);
      }
      if size > MAX_LINE_BYTES {
        return NoLine(LineTooLong);
      }
      l := Line(input[at..TextEnd(input, at, newline)], newline + 1);
      at := newline + 1;
    }

    /** The body of the header loop: what the headers come to, if this line decides it, or else the length so far. */
    method ReadHeader(contentLength: Option<nat>, headerBytes: nat, headerLines: nat)
        returns (h: Option<Headers>, length: Option<nat>)
      requires Valid()
      modifies `at
      ensures Valid() && at >= old(at) && (h.None? ==> at > old(at))
      ensures ReadHeaders(input, old(at), contentLength, headerBytes, headerLines) ==
        if h.Some? then h.value else ReadHeaders(input, at, length, headerBytes + (at - old(at)), headerLines + 1)
      ensures h.Some? && h.value.Complete? ==> at == h.value.end
    {
      var line := ReadLine(headerBytes, headerLines);
      HeadersStep(input, old(at), contentLength, headerBytes, headerLines, line);
      if line.NoLine? {
        return Some(Bad(line.error)), None;
      }
      if line.text == "" {
        return Some(Complete(contentLength, at)), None;
      }
      var noted := Note(line.text, contentLength);
      if noted.Refused? {
        return Some(Bad(noted.error)), None;
      }
      return None, noted.length;
    }

    /** The header loop of read. */
    method ReadLength() returns (h: Headers)
      requires Valid()
      modifies `at
      ensures Valid() && h == ReadHeaders(input, old(at), None, 0, 0)
      ensures h.Complete? ==> at == h.end
    {
      ghost var all := ReadHeaders(input, at, None, 0, 0);
      var contentLength: Option<nat>, headerBytes: nat, headerLines: nat := None, 0, 0;
      while true
        invariant Valid() && all == ReadHeaders(input, at, contentLength, headerBytes, headerLines)
        decreases |input| - at
      {
        var start := at;
        var decided, length := ReadHeader(contentLength, headerBytes, headerLines);
        if decided.Some? {
          return decided.value;
        }
        contentLength, headerBytes, headerLines := length, headerBytes + (at - start), headerLines + 1;
      }
    }

    /** read */
    method Read() returns (o: Outcome)
      requires Valid()
      modifies this
      ensures Valid() && o == ReadFrame(input, old(at))
      ensures o.Frame? ==> at == o.end
    {
      var headers := ReadLength();
      if headers.Bad? {
        return Failed(headers.error);
      }
      if headers.length.None? {
        return Failed(MissingLength);
      }
      if at + headers.length.value > |input| {
        return Failed(EndOfInput);
      }
      o := Frame(input[at..at + headers.length.value], at + headers.length.value);
      at := at + headers.length.value;
    }
  }

  // ---- The writer

  const LABEL := "Content-Length: "

  function Heading(size: nat): string { LABEL + Decimal(size) + "\r\n\r\n" }

  /** frameWriter.write */
  function Written(payload: string): string { Heading(|payload|) + payload }

  /** frameWriter: `taken` is how many bytes of a frame the output takes. */
  class FrameWriter {
    var output: string

    constructor ()
      ensures output == ""
    {
      output := "";
    }

    method Write(payload: string, taken: nat) returns (ok: bool)
      modifies this
      ensures ok <==> taken >= |Written(payload)|
      ensures ok ==> output == old(output) + Written(payload)
      ensures !ok ==> output == old(output) + Written(payload)[..taken]
    {
      var frame := Heading(|payload|);
      frame := frame + payload;
      ok := taken >= |frame|;
      output := output + if ok then frame else frame[..taken];
    }
  }

  lemma LabelAt(i: nat)
    requires i < 14
    ensures LABEL[i] != ':' && !IsSpaceOrHigh(LABEL[i]) && Fold(LABEL[i]) == CONTENT_LENGTH[i]
  {
    match i
    case 0 | 1 | 2 | 3 | 4 | 5 | 6 =>
    case _ => assert i == 7 || i == 8 || i == 9 || i == 10 || i == 11 || i == 12 || i == 13;
  }

  predicate IsSpaceOrHigh(b: char) { Tokenizer.IsAsciiSpace(b) || !IsAscii(b) }

  lemma {:induction false} ColonIsFound(line: string, i: nat, r: nat)
    requires i <= r < |line| && line[r] == ':' && forall j | i <= j < r :: line[j] != ':'
    ensures FindColon(line, i) == r
    decreases |line| - i
  {
    if i < r { ColonIsFound(line, i + 1, r); }
  }

  lemma LabelledName(line: string)
    requires |line| > 16 && HasPrefix(line, LABEL)
    ensures FindColon(line, 0) == 14 && NamesLength(line, 14)
  {
    forall i: nat | i < 14 ensures line[i] != ':' && !IsSpaceOrHigh(line[i]) && Fold(line[i]) == CONTENT_LENGTH[i] {
      LabelAt(i);
    }
    assert line[14] == LABEL[14];
    ColonIsFound(line, 0, 14);
    assert Tokenizer.TrimmedStart(line, 0, 14) == 0 && Tokenizer.TrimmedEnd(line, 0, 14) == 14;
    SpelledLength(line, 14);
  }

  lemma {:induction false} SpelledLength(line: string, n: nat)
    requires n <= 14 <= |line| && forall i | 0 <= i < n :: Fold(line[i]) == CONTENT_LENGTH[i]
    ensures SpellsLength(line, 0, n)
  {
    if n > 0 { SpelledLength(line, n - 1); }
  }

  lemma LabelledValue(line: string)
    requires |line| > 16 && line[15] == ' ' && IsDigit(line[16]) && IsDigit(line[|line| - 1])
    ensures Tokenizer.Trimmed(line, 15, |line|) == line[16..]
  {
    assert Tokenizer.TrimmedStart(line, 16, |line|) == 16 && Tokenizer.TrimmedEnd(line, 16, |line|) == |line|;
  }

  lemma HeadingParses(n: nat)
    ensures ParseHeader(LABEL + Decimal(n)) == Length(Some(n))
  {
    var line := LABEL + Decimal(n);
    assert line[16..] == Decimal(n) && line[16] == Decimal(n)[0] && line[|line| - 1] == Decimal(n)[|Decimal(n)| - 1];
    assert line[15] == LABEL[15];
    ValueOfDecimal(n);
    DigitAt(Decimal(n), 0);
    DigitAt(Decimal(n), |Decimal(n)| - 1);
    LabelledName(line);
    LabelledValue(line);
    AtoiOfDecimal(n);
  }

  // ---- Reading undoes writing

  lemma {:induction false} NewlineIsFound(input: string, at: nat, r: nat)
    requires at <= r < |input| && input[r] == '\n' && forall j | at <= j < r :: input[j] != '\n'
    ensures FindNewline(input, at) == r
    decreases |input| - at
  {
    if at < r { NewlineIsFound(input, at + 1, r); }
  }

  lemma SizeIsShort(n: nat)
    requires n <= MAX_MESSAGE_BYTES
    ensures |Decimal(n)| <= 8
  {
    assert Pow10(8) == 100_000_000;
    DecimalIsShort(n, 8);
  }

  lemma HeadingAt(input: string, at: nat, n: nat)
    requires Holds(input, at, Heading(n))
    ensures var l := NextLine(input, at, 0, 0); l.NoLine? || l == Line(LABEL + Decimal(n), at + |Heading(n)| - 2)
    ensures n <= MAX_MESSAGE_BYTES ==> NextLine(input, at, 0, 0).Line? && |Heading(n)| <= 28
    ensures input[at + |Heading(n)| - 2] == '\r' && input[at + |Heading(n)| - 1] == '\n'
  {
    var line, tail := LABEL + Decimal(n), "\r\n\r\n";
    HoldsParts(input, at, line, tail);
    if n <= MAX_MESSAGE_BYTES { SizeIsShort(n); }
    var r := at + |line|;
    assert input[r + 0] == tail[0] && input[r + 1] == tail[1] && input[r + 2] == tail[2] && input[r + 3] == tail[3];
    forall j | at <= j <= r ensures input[j] != '\n' {
      if j < r {
        assert input[at + (j - at)] == line[j - at];
        LineHasNoBreak(n, j - at);
      }
    }
    NewlineIsFound(input, at, r + 1);
    assert input[at..r] == line;
  }

  lemma LineHasNoBreak(n: nat, i: nat)
    requires i < |LABEL + Decimal(n)|
    ensures (LABEL + Decimal(n))[i] != '\n' && (LABEL + Decimal(n))[i] != '\r'
  {
    if i < 14 {
      LabelAt(i);
    } else if i >= 16 {
      ValueOfDecimal(n);
      DigitAt(Decimal(n), i - 16);
    }
  }

  lemma BlankLine(input: string, at: nat, bytes: nat)
    requires at + 2 <= |input| && input[at] == '\r' && input[at + 1] == '\n' && bytes < 100
    ensures NextLine(input, at, bytes, 1) == Line("", at + 2)
  {
    NewlineIsFound(input, at, at + 1);
  }

  lemma SizeIsNoted(n: nat)
    ensures Note(LABEL + Decimal(n), None) == if n <= MAX_MESSAGE_BYTES then Noted(Some(n)) else Refused(BadLength)
  {
    HeadingParses(n);
  }

  lemma TwoLines(input: string, at: nat, text: string, n: nat, mid: nat, end: nat)
    requires at <= |input| && NextLine(input, at, 0, 0) == Line(text, mid) && text != ""
    requires Note(text, None) == Noted(Some(n)) && NextLine(input, mid, mid - at, 1) == Line("", end)
    ensures ReadHeaders(input, at, None, 0, 0) == Complete(Some(n), end)
  {
    var first := NextLine(input, at, 0, 0);
    assert ReadHeaders(input, mid, Some(n), mid - at, 1) == Complete(Some(n), end);
  }

  lemma BadFirstLine(input: string, at: nat, text: string, mid: nat)
    requires at <= |input|
    requires var l := NextLine(input, at, 0, 0); l.NoLine? || l == Line(text, mid)
    requires text != "" && Note(text, None).Refused?
    ensures ReadHeaders(input, at, None, 0, 0).Bad?
  {
  }

  /** The header that the writer writes is read as the length it gives, exactly when the limit allows it. */
  lemma HeadingIsRead(input: string, at: nat, n: nat)
    requires Holds(input, at, Heading(n))
    ensures var h := ReadHeaders(input, at, None, 0, 0);
            if n <= MAX_MESSAGE_BYTES then h == Complete(Some(n), at + |Heading(n)|) else h.Bad?
  {
    var text, end := LABEL + Decimal(n), at + |Heading(n)| - 2;
    HeadingAt(input, at, n);
    SizeIsNoted(n);
    if n <= MAX_MESSAGE_BYTES {
      BlankLine(input, end, end - at);
      TwoLines(input, at, text, n, end, end + 2);
    } else {
      BadFirstLine(input, at, text, end);
    }
  }

  /** A written frame is read back as its payload, to its last byte and no further, exactly when the payload is within
      the limit. */
  lemma FrameIsRead(input: string, at: nat, payload: string)
    requires Holds(input, at, Written(payload))
    ensures |payload| <= MAX_MESSAGE_BYTES ==> ReadFrame(input, at) == Frame(payload, at + |Written(payload)|)
    ensures |payload| > MAX_MESSAGE_BYTES ==> ReadFrame(input, at).Failed?
  {
    HoldsParts(input, at, Heading(|payload|), payload);
    HeadingIsRead(input, at, |payload|);
    var end := at + |Heading(|payload|)|;
    SliceOfHolds(input, end, payload);
    FrameAfter(input, at, |payload|, end, payload);
  }

  lemma FrameAfter(input: string, at: nat, n: nat, end: nat, payload: string)
    requires at <= |input| && end + n <= |input| && input[end..end + n] == payload
    requires n == |payload|
    ensures ReadHeaders(input, at, None, 0, 0) == Complete(Some(n), end) ==> ReadFrame(input, at) == Frame(payload, end + n)
    ensures ReadHeaders(input, at, None, 0, 0).Bad? ==> ReadFrame(input, at).Failed?
  {
  }

  // ---- Streams

  /** The payloads from the `k`th on, written one after another. */
  function WrittenFrom(payloads: seq<string>, k: nat): string
    requires k <= |payloads|
    decreases |payloads| - k
  {
    if k == |payloads| then "" else Written(payloads[k]) + WrittenFrom(payloads, k + 1)
  }

  datatype Stream = Stream(payloads: seq<string>, end: nat, error: Error)

  /** Reading until an error: what was read, and where the last frame ended. */
  function ReadAll(input: string, at: nat): Stream
    requires at <= |input|
    decreases |input| - at
  {
    match ReadFrame(input, at)
    case Failed(error) => Stream([], at, error)
    case Frame(payload, end) =>
      var rest := ReadAll(input, end);
      rest.(payloads := [payload] + rest.payloads)
  }

  predicate AllFit(payloads: seq<string>) { forall k | 0 <= k < |payloads| :: |payloads[k]| <= MAX_MESSAGE_BYTES }

  lemma StreamStep(input: string, at: nat, payload: string, end: nat)
    requires at <= |input| && ReadFrame(input, at) == Frame(payload, end)
    ensures var rest := ReadAll(input, end); ReadAll(input, at) == rest.(payloads := [payload] + rest.payloads)
  {
  }

  /** `input` from `at` on is the payloads from the `k`th on, written. */
  ghost predicate IsWritten(input: string, at: nat, payloads: seq<string>, k: nat)
    requires k <= |payloads|
    decreases |payloads| - k
  {
    if k == |payloads| then at == |input|
    else Holds(input, at, Written(payloads[k])) && IsWritten(input, at + |Written(payloads[k])|, payloads, k + 1)
  }

  lemma {:induction false} WritingIsWritten(before: string, payloads: seq<string>, k: nat)
    requires k <= |payloads|
    ensures IsWritten(before + WrittenFrom(payloads, k), |before|, payloads, k)
    decreases |payloads| - k
  {
    if k < |payloads| {
      var w := Written(payloads[k]);
      var rest := WrittenFrom(payloads, k + 1);
      assert WrittenFrom(payloads, k) == w + rest;
      MiddleHolds(before, w, rest);
      WritingIsWritten(before + w, payloads, k + 1);
    }
  }

  lemma StreamEnds(input: string)
    ensures ReadAll(input, |input|) == Stream([], |input|, EndOfInput)
  {
  }

  lemma {:induction false} StreamIsRead(input: string, at: nat, payloads: seq<string>, k: nat)
    requires k <= |payloads| && at <= |input| && IsWritten(input, at, payloads, k) && AllFit(payloads)
    ensures ReadAll(input, at) == Stream(payloads[k..], |input|, EndOfInput)
    decreases |payloads| - k
  {
    if k == |payloads| {
      StreamEnds(input);
    } else {
      var end := at + |Written(payloads[k])|;
      FrameIsRead(input, at, payloads[k]);
      StreamIsRead(input, end, payloads, k + 1);
      StreamStep(input, at, payloads[k], end);
      FirstApart(payloads, k);
    }
  }

  /** Reading undoes writing: any list of payloads within the limit is read back whole, from exactly the bytes that were
      written, and then the input is found to be at its end. */
  lemma ReadingUndoesWriting(payloads: seq<string>)
    requires AllFit(payloads)
    ensures var written := WrittenFrom(payloads, 0); ReadAll(written, 0) == Stream(payloads, |written|, EndOfInput)
  {
    var written := WrittenFrom(payloads, 0);
    WritingIsWritten("", payloads, 0);
    assert "" + written == written;
    StreamIsRead(written, 0, payloads, 0);
    assert payloads[0..] == payloads;
  }
}
