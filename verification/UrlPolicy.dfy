/** The URL rules: the compile-time checks of the context analyzer and the render-time check of WriteURL. */
module UrlPolicy {
  import opened Text
  import opened Html

  /** One step of a Go range loop over a value: a scalar value or one byte of invalid UTF-8. */
  datatype Rune = Valid(c: char) | Malformed

  datatype UrlResult = Canonical(url: string) | Unsafe(reason: string, scheme: string)

  const REPLACEMENT: char := '\U{FFFD}'

  predicate IsSafeScheme(s: string) {
    Spells(s, "http") || Spells(s, "https") || Spells(s, "mailto") || Spells(s, "tel")
  }

  function Lift(s: string): (r: seq<Rune>)
    ensures |r| == |s| && forall i | 0 <= i < |s| :: r[i] == Valid(s[i])
  {
    seq(|s|, i requires 0 <= i < |s| => Valid(s[i]))
  }

  /** normalizeText; `inRun` says the preceding rune was malformed, so a run of them becomes one replacement. */
  function NormalizeFrom(value: seq<Rune>, inRun: bool): string {
    if value == [] then ""
    else match value[0]
      case Malformed => (if inRun then "" else [REPLACEMENT]) + NormalizeFrom(value[1..], true)
      case Valid(c) => [if c == '\U{0}' then REPLACEMENT else c] + NormalizeFrom(value[1..], false)
  }

  function NormalizeText(value: seq<Rune>): string { NormalizeFrom(value, false) }

  predicate ValidScheme(s: string) {
    && s != "" && IsLetter(s[0])
    && forall i | 1 <= i < |s| :: IsLetter(s[i]) || IsDigit(s[i]) || s[i] == '+' || s[i] == '-' || s[i] == '.'
  }

  /** canonicalURL after normalizing and trimming. */
  function CheckUrl(lib: Library, text: string): UrlResult {
    if HasControl(text) then Unsafe("control characters are not allowed", "")
    else
      var colon := IndexOf(text, Colon);
      if colon == |text| || IndexOf(text, Mark) < colon then Canonical(text)
      else if !ValidScheme(text[..colon]) then Unsafe("ambiguous scheme syntax", "")
      else
        var scheme := ToLower(lib, text[..colon]);
        if IsSafeScheme(scheme) then Canonical(text) else Unsafe("", scheme)
  }

  /** canonicalURL */
  function CanonicalUrl(lib: Library, value: seq<Rune>): UrlResult {
    CheckUrl(lib, Trim(NormalizeText(value), UrlSpace))
  }

  predicate StartsRelative(s: string) {
    && s != ""
    && (In(s[0], Mark) || (s[0] == '.' && |s| > 1 && (s[1] == '/' || (s[1] == '.' && |s| > 2 && s[2] == '/'))))
  }

  /** safeStaticURL */
  predicate SafeStaticUrl(lib: Library, value: string) { SafeTrimmed(lib, TrimSpace(Unescape(lib, value))) }

  predicate SafeTrimmed(lib: Library, text: string) {
    text == "" || (!HasControl(text) && SafeDecoded(ToLower(lib, text)))
  }

  predicate SafeDecoded(lower: string) {
    var colon := IndexOf(lower, Colon);
    StartsRelative(lower) || colon == |lower| || IndexOf(lower, Mark) < colon || IsSafeScheme(lower[..colon])
  }

  /** The length of the allowed scheme and colon that `s` starts with, or 0. */
  function SchemeLength(s: string): (n: nat)
    ensures n > 0 ==> n <= |s| && IsSafeScheme(s[..n - 1]) && s[n - 1] == ':'
  {
    if HasPrefix(s, "http:") then 5 else if HasPrefix(s, "https:") then 6
    else if HasPrefix(s, "mailto:") then 7 else if HasPrefix(s, "tel:") then 4 else 0
  }

  /** safeURLPrefix */
  predicate SafeUrlPrefix(lib: Library, prefix: string) {
    var trimmed := TrimSpace(ToLower(lib, prefix));
    trimmed != "" && (StartsRelative(trimmed) || SchemeLength(trimmed) > 0)
  }

  // ---- How a browser reads the decoded attribute

  /** `s` without its characters in the class. */
  function Drop(s: string, gone: Class): string {
    if s == "" then "" else (if In(s[0], gone) then "" else [s[0]]) + Drop(s[1..], gone)
  }

  /** The scheme of a URL: leading C0 controls and spaces are stripped, tabs and newlines dropped everywhere, and
      what precedes the first colon is the scheme if it has the syntax of section 3.1 of RFC 3986. */
  function Scheme(url: string): Option<string> {
    var text := Drop(TrimLeft(url, Stripped), LineBreak);
    var colon := IndexOf(text, Colon);
    if colon < |text| && ValidScheme(text[..colon]) then Some(text[..colon]) else None
  }

  /** `s` is `word` up to the case of ASCII letters. */
  predicate IsNamed(s: string, word: string) {
    |s| == |word| && forall i | 0 <= i < |word| :: Text.Lower(s[i]) == word[i]
  }

  predicate AllowedScheme(s: string) {
    IsNamed(s, "http") || IsNamed(s, "https") || IsNamed(s, "mailto") || IsNamed(s, "tel")
  }

  /** The URL has no scheme, or one of http, https, mailto and tel. */
  predicate HarmlessUrl(url: string) { Scheme(url).Some? ==> AllowedScheme(Scheme(url).value) }

  // ---- Facts about the reading

  lemma {:induction false} DropKeeps(s: string, t: string, gone: Class)
    requires forall c | c in s :: !In(c, gone)
    ensures Drop(s + t, gone) == s + Drop(t, gone)
  {
    if s == "" {
      assert s + t == t;
    } else {
      assert (s + t)[1..] == s[1..] + t;
      DropKeeps(s[1..], t, gone);
    }
  }

  lemma {:induction false} IndexOfAppend(s: string, t: string, stop: Class)
    ensures IndexOf(s, stop) < |s| ==> IndexOf(s + t, stop) == IndexOf(s, stop)
    ensures IndexOf(s, stop) == |s| ==> IndexOf(s + t, stop) == |s| + IndexOf(t, stop)
  {
    if s == "" {
      assert s + t == t;
    } else {
      assert (s + t)[1..] == s[1..] + t;
      IndexOfAppend(s[1..], t, stop);
    }
  }

  /** Stripping stops at the first character above a space. */
  lemma {:induction false} StripLeft(space: string, rest: string)
    requires forall c | c in space :: IsSpace(c)
    requires rest != "" ==> rest[0] > ' '
    ensures var r := TrimLeft(space + rest, Stripped);
            r == rest || (r != "" && !IsAscii(r[0]) && !In(r[0], LineBreak))
  {
    if space == "" {
      assert space + rest == rest;
    } else {
      assert space[0] in space;
      if space[0] <= ' ' {
        assert (space + rest)[1..] == space[1..] + rest;
        StripLeft(space[1..], rest);
      } else {
        assert TrimLeft(space + rest, Stripped) == space + rest;
      }
    }
  }

  /** A URL that starts, after space, with a character that cannot begin a scheme has none. */
  lemma NoScheme(text: string)
    requires text != "" && !IsLetter(text[0]) && !In(text[0], LineBreak)
    requires TrimLeft(text, Stripped) == text
    ensures Scheme(text).None?
  {
    assert text == [text[0]] + text[1..];
    DropKeeps([text[0]], text[1..], LineBreak);
  }

  /** Leading space never gives a URL a scheme it would not have without it. */
  lemma SchemeAfterSpace(space: string, rest: string)
    requires forall c | c in space :: IsSpace(c)
    requires rest != "" ==> rest[0] > ' '
    ensures Scheme(space + rest).None? || Scheme(space + rest) == Scheme(rest)
  {
    StripLeft(space, rest);
    var r := TrimLeft(space + rest, Stripped);
    if r != rest {
      assert TrimLeft(r, Stripped) == r;
      NoScheme(r);
    }
  }

  /** When a control-free head holds the first colon, or starts like a relative reference, it decides. */
  lemma HeadDecides(head: string, tail: string)
    requires head != "" && head[0] > ' ' && forall c | c in head :: !In(c, LineBreak)
    requires !IsLetter(head[0]) || IndexOf(head, Colon) < |head|
    ensures Scheme(head + tail).Some? ==>
              IndexOf(head, Colon) < |head| && ValidScheme(head[..IndexOf(head, Colon)])
              && Scheme(head + tail) == Some(head[..IndexOf(head, Colon)])
  {
    var s := head + tail;
    assert TrimLeft(s, Stripped) == s;
    if !IsLetter(head[0]) {
      NoScheme(s);
    } else {
      DropKeeps(head, tail, LineBreak);
      IndexOfAppend(head, Drop(tail, LineBreak), Colon);
      var colon := IndexOf(head, Colon);
      assert (head + Drop(tail, LineBreak))[..colon] == head[..colon];
    }
  }

  lemma SafeAsciiIsAllowed(lib: Library, s: string)
    requires IsSafeScheme(ToLower(lib, s)) && forall i | 0 <= i < |s| :: IsAscii(s[i])
    ensures AllowedScheme(s)
  {
    forall i | 0 <= i < |s| ensures ToLower(lib, s)[i] == Text.Lower(s[i]) { }
  }

  lemma SameClassSameIndex(s: string, t: string, stop: Class)
    requires |s| == |t| && forall i | 0 <= i < |s| :: In(t[i], stop) <==> In(s[i], stop)
    ensures IndexOf(t, stop) == IndexOf(s, stop)
  {
  }

  lemma LowerKeepsClass(lib: Library, s: string, stop: Class)
    requires LowerSound(lib) && (stop == Colon || stop == Mark)
    ensures forall i | 0 <= i < |s| :: In(ToLower(lib, s)[i], stop) <==> In(s[i], stop)
  {
    forall i | 0 <= i < |s| ensures In(LowerRune(lib, s[i]), stop) <==> In(s[i], stop) { }
  }

  /** Lower-casing moves no delimiter. */
  lemma LowerKeepsIndex(lib: Library, s: string, stop: Class)
    requires LowerSound(lib) && (stop == Colon || stop == Mark)
    ensures IndexOf(ToLower(lib, s), stop) == IndexOf(s, stop)
  {
    LowerKeepsClass(lib, s, stop);
    SameClassSameIndex(s, ToLower(lib, s), stop);
  }

  // ---- Normalization

  lemma {:induction false} NormalizeHasNoNul(value: seq<Rune>, inRun: bool)
    ensures '\U{0}' !in NormalizeFrom(value, inRun)
  {
    if value != [] {
      NormalizeHasNoNul(value[1..], value[0].Malformed?);
    }
  }

  lemma {:induction false} NormalizeLift(s: string, inRun: bool)
    requires '\U{0}' !in s
    ensures NormalizeFrom(Lift(s), inRun) == s
  {
    if s != "" {
      assert Lift(s)[1..] == Lift(s[1..]);
      assert s[0] in s;
      NormalizeLift(s[1..], false);
      assert s == [s[0]] + s[1..];
    }
  }

  // ---- The compile-time checks

  /** A relative start is a delimiter before any colon. */
  lemma RelativeStartsEarly(lower: string)
    requires StartsRelative(lower)
    ensures IndexOf(lower, Mark) < |lower| && IndexOf(lower, Mark) < 3
    ensures IndexOf(lower, Colon) < |lower| ==> IndexOf(lower, Mark) < IndexOf(lower, Colon)
  {
    var i := if lower[0] != '.' then 0 else if lower[1] == '/' then 1 else 2;
    assert In(lower[i], Mark);
    assert forall j | 0 <= j <= i :: !In(lower[j], Colon);
  }

  lemma SpaceHasNoColon(tail: string)
    requires forall c | c in tail :: IsSpace(c)
    ensures ':' !in Drop(tail, LineBreak)
  {
    if tail != "" {
      assert tail[0] in tail;
      SpaceHasNoColon(tail[1..]);
    }
  }

  lemma NoColonNoScheme(core: string, tail: string)
    requires core != "" && core[0] > ' ' && IndexOf(core, Colon) == |core|
    requires forall c | c in core :: !In(c, LineBreak)
    requires forall c | c in tail :: IsSpace(c)
    ensures Scheme(core + tail).None?
  {
    assert TrimLeft(core + tail, Stripped) == core + tail;
    DropKeeps(core, tail, LineBreak);
    SpaceHasNoColon(tail);
    IndexOfAppend(core, Drop(tail, LineBreak), Colon);
  }

  /** The trimmed form the static check looks at decides, whatever space follows it. */
  lemma SafeTrimmedIsHarmless(lib: Library, core: string, tail: string)
    requires LowerSound(lib) && SafeTrimmed(lib, core) && core != "" && !IsSpace(core[0])
    requires forall c | c in tail :: IsSpace(c)
    ensures HarmlessUrl(core + tail)
  {
    assert !IsControl(core[0]);
    var colon, lower := IndexOf(core, Colon), ToLower(lib, core);
    if colon == |core| {
      NoColonNoScheme(core, tail);
    } else {
      HeadDecides(core, tail);
      if Scheme(core + tail).Some? {
        LowerKeepsIndex(lib, core, Colon);
        LowerKeepsIndex(lib, core, Mark);
        if StartsRelative(lower) { RelativeStartsEarly(lower); }
        MarkSpoilsScheme(core);
        SafeAsciiIsAllowed(lib, core[..colon]);
        assert lower[..colon] == ToLower(lib, core[..colon]);
      }
    }
  }

  lemma MarkSpoilsScheme(url: string)
    requires IndexOf(url, Colon) < |url| && ValidScheme(url[..IndexOf(url, Colon)])
    ensures IndexOf(url, Colon) < IndexOf(url, Mark) || IndexOf(url, Mark) == |url|
  {
    var scheme, mark := url[..IndexOf(url, Colon)], IndexOf(url, Mark);
    assert forall i | 0 <= i < |scheme| :: scheme[i] == url[i];
  }

  lemma TrimmedDecides(lib: Library, url: string)
    requires LowerSound(lib) && SafeTrimmed(lib, TrimSpace(url))
    ensures HarmlessUrl(url)
  {
    var left, right := TrimSplits(url, Space);
    SpacedIsHarmless(lib, left, TrimSpace(url), right);
  }

  lemma SpacedIsHarmless(lib: Library, left: string, core: string, right: string)
    requires LowerSound(lib) && SafeTrimmed(lib, core)
    requires (forall c | c in left :: IsSpace(c)) && (forall c | c in right :: IsSpace(c))
    requires if core == "" then right == "" else !IsSpace(core[0])
    ensures HarmlessUrl(left + (core + right))
  {
    if core == "" {
      assert core + right == "";
      SchemeAfterSpace(left, "");
    } else {
      assert !IsControl(core[0]);
      SafeTrimmedIsHarmless(lib, core, right);
      SchemeAfterSpace(left, core + right);
    }
  }

  /** A literal URL the analyzer lets through has no scheme outside the four once decoded. */
  lemma StaticUrlIsHarmless(lib: Library, value: string)
    requires LowerSound(lib) && SafeStaticUrl(lib, value)
    ensures HarmlessUrl(Unescape(lib, value))
  {
    TrimmedDecides(lib, Unescape(lib, value));
  }

  /** How much of a safe prefix, once trimmed and lower-cased, makes it safe. */
  function HeadLength(trimmed: string): (n: nat)
    requires StartsRelative(trimmed) || SchemeLength(trimmed) > 0
    ensures 1 <= n <= |trimmed| && SafeHead(trimmed[..n])
  {
    if StartsRelative(trimmed) then 1 else SchemeLength(trimmed)
  }

  predicate SafeHead(head: string) {
    && head != ""
    && (if |head| == 1 then head[0] == '.' || In(head[0], Mark)
        else head[|head| - 1] == ':' && IsSafeScheme(head[..|head| - 1]))
  }

  lemma SafeHeadIsHarmless(lib: Library, head: string, tail: string)
    requires LowerSound(lib) && SafeHead(ToLower(lib, head))
    ensures HarmlessUrl(head + tail) && head[0] > ' '
  {
    var lower, n := ToLower(lib, head), |head| - 1;
    if n == 0 {
      NoScheme(head + tail);
    } else {
      SafeSchemeLetters(lower[..n]);
      assert lower[0] == lower[..n][0];
      forall i | 0 <= i < |head| ensures head[i] > ' ' && (i < n ==> head[i] != ':') {
        assert i < n ==> lower[i] == lower[..n][i];
      }
      HeadDecides(head, tail);
      if Scheme(head + tail).Some? {
        assert IndexOf(head, Colon) == n;
        assert lower[..n] == ToLower(lib, head[..n]);
        SafeAsciiIsAllowed(lib, head[..n]);
      }
    }
  }
  // ---- The runtime check

  predicate EndsOutside(text: string, k: Class) { text != "" ==> !In(text[0], k) && !In(text[|text| - 1], k) }

  lemma CheckedIsSafeTrimmed(lib: Library, url: string)
    requires LowerSound(lib) && CheckUrl(lib, url).Canonical?
    ensures SafeTrimmed(lib, url)
  {
    LowerKeepsIndex(lib, url, Colon);
    LowerKeepsIndex(lib, url, Mark);
    var colon := IndexOf(url, Colon);
    assert colon < |url| ==> ToLower(lib, url)[..colon] == ToLower(lib, url[..colon]);
  }

  lemma CheckedUrlIsHarmless(lib: Library, url: string)
    requires LowerSound(lib) && CheckUrl(lib, url).Canonical? && EndsOutside(url, UrlSpace)
    ensures HarmlessUrl(url) && !HasControl(url) && CheckUrl(lib, url).url == url
  {
    CheckedIsSafeTrimmed(lib, url);
    assert url + "" == url;
    if url != "" { SafeTrimmedIsHarmless(lib, url, ""); }
  }

  /** What an accepted ordinary URL is: trimmed, free of controls, and without a scheme outside the four. */
  lemma CanonicalUrlIsHarmless(lib: Library, value: seq<Rune>)
    requires LowerSound(lib) && CanonicalUrl(lib, value).Canonical?
    ensures var url := CanonicalUrl(lib, value).url;
            HarmlessUrl(url) && !HasControl(url) && EndsOutside(url, UrlSpace)
  {
    CheckedUrlIsHarmless(lib, Trim(NormalizeText(value), UrlSpace));
  }

  lemma NormalizedTrimmed(url: string)
    requires !HasControl(url) && EndsOutside(url, UrlSpace)
    ensures Trim(NormalizeText(Lift(url)), UrlSpace) == url
  {
    forall i | 0 <= i < |url| ensures url[i] != '\U{0}' { assert !IsControl(url[i]); }
    NormalizeLift(url, false);
    TrimIdentity(url, UrlSpace);
  }

  /** Canonicalizing an accepted URL again changes nothing. */
  lemma CanonicalUrlIsIdempotent(lib: Library, value: seq<Rune>)
    requires CanonicalUrl(lib, value).Canonical?
    ensures CanonicalUrl(lib, Lift(CanonicalUrl(lib, value).url)) == CanonicalUrl(lib, value)
  {
    NormalizedTrimmed(Trim(NormalizeText(value), UrlSpace));
  }

  // ---- The two policies against each other

  lemma EscapedIsDecoded(lib: Library, url: string)
    requires Sound(lib) && EndsOutside(url, UrlSpace)
    ensures TrimSpace(Unescape(lib, Escape(url))) == url
  {
    UnescapeUndoesEscape(lib, url);
    TrimIdentity(url, Space);
  }

  /** The compile-time policy accepts, written as a literal, every URL the run-time policy accepts. */
  lemma StaticAcceptsCanonical(lib: Library, value: seq<Rune>)
    requires Sound(lib) && CanonicalUrl(lib, value).Canonical?
    ensures SafeStaticUrl(lib, Escape(CanonicalUrl(lib, value).url))
  {
    var url := CanonicalUrl(lib, value).url;
    EscapedIsDecoded(lib, url);
    CheckedIsSafeTrimmed(lib, url);
  }

  lemma SafeSchemeLetters(s: string)
    requires IsSafeScheme(s)
    ensures s != "" && forall i | 0 <= i < |s| :: 'a' <= s[i] <= 'z'
  {
  }

  lemma SafeSchemeIsValid(lib: Library, scheme: string)
    requires LowerSound(lib) && IsSafeScheme(ToLower(lib, scheme))
    requires forall i | 0 <= i < |scheme| :: IsAscii(scheme[i])
    ensures ValidScheme(scheme)
  {
    var lower := ToLower(lib, scheme);
    SafeSchemeLetters(lower);
    forall i | 0 <= i < |scheme| ensures IsLetter(scheme[i]) {
      assert 'a' <= lower[i] <= 'z';
    }
  }

  predicate AsciiScheme(url: string) { forall i | 0 <= i < IndexOf(url, Colon) < |url| :: IsAscii(url[i]) }

  lemma SafeTrimmedIsChecked(lib: Library, url: string)
    requires LowerSound(lib) && AsciiScheme(url) && SafeTrimmed(lib, url)
    ensures CheckUrl(lib, url) == Canonical(url)
  {
    var lower, colon := ToLower(lib, url), IndexOf(url, Colon);
    LowerKeepsIndex(lib, url, Colon);
    LowerKeepsIndex(lib, url, Mark);
    if colon < |url| && colon <= IndexOf(url, Mark) {
      if StartsRelative(lower) { RelativeStartsEarly(lower); }
      assert lower[..colon] == ToLower(lib, url[..colon]);
      SafeSchemeIsValid(lib, url[..colon]);
    }
  }

  /** And it accepts no more than those, as long as nothing before the colon is outside ASCII. */
  lemma PoliciesAgree(lib: Library, url: string)
    requires Sound(lib) && EndsOutside(url, UrlSpace) && AsciiScheme(url)
    ensures SafeStaticUrl(lib, Escape(url)) <==> CanonicalUrl(lib, Lift(url)) == Canonical(url)
  {
    EscapedIsDecoded(lib, url);
    if SafeStaticUrl(lib, Escape(url)) {
      SafeTrimmedIsChecked(lib, url);
      NormalizedTrimmed(url);
    } else if CanonicalUrl(lib, Lift(url)) == Canonical(url) {
      StaticAcceptsCanonical(lib, Lift(url));
    }
  }

  /** A scheme that only becomes an allowed one when it is lower-cased, having a letter outside ASCII. */
  predicate IsDisguised(lib: Library, url: string) {
    var colon := IndexOf(url, Colon);
    && !HasControl(url) && colon < |url| && colon <= IndexOf(url, Mark)
    && !AsciiScheme(url) && IsSafeScheme(ToLower(lib, url[..colon]))
  }

  lemma DisguisedIsSafe(lib: Library, url: string)
    requires LowerSound(lib) && IsDisguised(lib, url)
    ensures SafeTrimmed(lib, url)
  {
    LowerKeepsIndex(lib, url, Colon);
    assert ToLower(lib, url)[..IndexOf(url, Colon)] == ToLower(lib, url[..IndexOf(url, Colon)]);
  }

  lemma DisguisedIsAmbiguous(lib: Library, url: string)
    requires IsDisguised(lib, url)
    ensures CheckUrl(lib, url).Unsafe?
  {
    var scheme := url[..IndexOf(url, Colon)];
    var i :| 0 <= i < |scheme| && !IsAscii(url[i]);
    assert !IsAscii(scheme[i]);
  }

  lemma DisguisedDiffer(lib: Library, url: string)
    requires Sound(lib) && EndsOutside(url, UrlSpace) && IsDisguised(lib, url)
    ensures SafeStaticUrl(lib, Escape(url)) && CanonicalUrl(lib, Lift(url)).Unsafe?
  {
    EscapedIsDecoded(lib, url);
    NormalizedTrimmed(url);
    DisguisedIsSafe(lib, url);
    DisguisedIsAmbiguous(lib, url);
  }

  lemma SafeTrimmedIsDisguised(lib: Library, url: string)
    requires LowerSound(lib) && SafeTrimmed(lib, url) && CheckUrl(lib, url).Unsafe?
    ensures IsDisguised(lib, url)
  {
    var lower, colon := ToLower(lib, url), IndexOf(url, Colon);
    LowerKeepsIndex(lib, url, Colon);
    LowerKeepsIndex(lib, url, Mark);
    if StartsRelative(lower) { RelativeStartsEarly(lower); }
    assert lower[..colon] == ToLower(lib, url[..colon]);
    if AsciiScheme(url) { SafeTrimmedIsChecked(lib, url); }
  }

  /** The two policies agree on every URL but those whose scheme is disguised. */
  lemma PoliciesAgreeExactly(lib: Library, url: string)
    requires Sound(lib) && EndsOutside(url, UrlSpace)
    ensures (SafeStaticUrl(lib, Escape(url)) <==> CanonicalUrl(lib, Lift(url)) == Canonical(url)) <==> !IsDisguised(lib, url)
  {
    EscapedIsDecoded(lib, url);
    if IsDisguised(lib, url) {
      DisguisedDiffer(lib, url);
    } else if CanonicalUrl(lib, Lift(url)) == Canonical(url) {
      StaticAcceptsCanonical(lib, Lift(url));
    } else if SafeStaticUrl(lib, Escape(url)) {
      NormalizedTrimmed(url);
      SafeTrimmedIsDisguised(lib, url);
    }
  }

  const DOTTED: string := "ma\U{130}lto:"

  lemma DottedShape(lib: Library)
    ensures IndexOf(DOTTED, Colon) == 6 && IndexOf(DOTTED, Mark) == 7 && !HasControl(DOTTED)
    ensures EndsOutside(DOTTED, UrlSpace) && !ValidScheme(DOTTED[..6])
  {
    assert forall j | 0 <= j < 6 :: !In(DOTTED[j], Colon);
    assert forall j | 0 <= j < 7 :: !In(DOTTED[j], Mark) && !IsControl(DOTTED[j]);
    assert In(DOTTED[6], Colon);
    assert DOTTED[..6][2] == '\U{130}';
  }

  lemma DottedLower(lib: Library)
    requires LowerSound(lib) && '\U{130}' in lib.lowercase && lib.lowercase['\U{130}'] == 'i'
    ensures SafeTrimmed(lib, DOTTED)
  {
    DottedShape(lib);
    var lower := ToLower(lib, DOTTED);
    LowerKeepsIndex(lib, DOTTED, Colon);
    assert Spells(lower[..6], "mailto");
  }

  /** Outside ASCII the two differ: a letter that only lower-cases to an ASCII one is taken by the static check
      for part of a safe scheme and by the runtime check for an ambiguous one. */
  lemma StaticAcceptsMoreOutsideAscii(lib: Library)
    requires Sound(lib) && '\U{130}' in lib.lowercase && lib.lowercase['\U{130}'] == 'i'
    ensures SafeStaticUrl(lib, Escape(DOTTED))
    ensures CanonicalUrl(lib, Lift(DOTTED)) == Unsafe("ambiguous scheme syntax", "")
  {
    DottedShape(lib);
    EscapedIsDecoded(lib, DOTTED);
    NormalizedTrimmed(DOTTED);
    DottedLower(lib);
  }

  // ---- The static prefix of a mixed attribute

  lemma LowerSlice(lib: Library, s: string, i: nat, j: nat)
    requires i <= j <= |s|
    ensures ToLower(lib, s)[i..j] == ToLower(lib, s[i..j])
  {
  }

  lemma SpaceLowers(lib: Library, s: string)
    requires LowerSound(lib) && forall c | c in ToLower(lib, s) :: IsSpace(c)
    ensures forall c | c in s :: IsSpace(c)
  {
    forall i | 0 <= i < |s| ensures IsSpace(s[i]) { assert ToLower(lib, s)[i] in ToLower(lib, s); }
  }

  lemma SafeHeadIsPlain(lib: Library, head: string)
    requires LowerSound(lib) && SafeHead(ToLower(lib, head))
    ensures IsPlain(head)
  {
    var lower, n := ToLower(lib, head), |head| - 1;
    if n > 0 { SafeSchemeLetters(lower[..n]); }
    forall i | 0 <= i < |head| ensures head[i] != '&' {
      assert lower[i] == LowerRune(lib, head[i]);
      assert i < n ==> lower[i] == lower[..n][i];
    }
  }

  lemma HeadAt(lib: Library, prefix: string, before: string, trimmed: string, after: string) returns (k: nat, n: nat)
    requires LowerSound(lib) && ToLower(lib, prefix) == before + (trimmed + after)
    requires forall c | c in before :: IsSpace(c)
    requires StartsRelative(trimmed) || SchemeLength(trimmed) > 0
    ensures k + n <= |prefix| && SafeHead(ToLower(lib, prefix[k..k + n]))
    ensures forall c | c in prefix[..k] :: IsSpace(c)
  {
    var lower := ToLower(lib, prefix);
    k, n := |before|, HeadLength(trimmed);
    LowerSlice(lib, prefix, 0, k);
    LowerSlice(lib, prefix, k, k + n);
    assert lower[0..k] == before && lower[k..k + n] == trimmed[..n];
    SpaceLowers(lib, prefix[0..k]);
  }

  lemma HeadKeepsHarmless(lib: Library, left: string, head: string, rest: string)
    requires LowerSound(lib) && SafeHead(ToLower(lib, head)) && forall c | c in left :: IsSpace(c)
    ensures HarmlessUrl(Unescape(lib, left + (head + rest)))
  {
    forall i | 0 <= i < |left| ensures left[i] != '&' { assert left[i] in left; }
    SafeHeadIsPlain(lib, head);
    UnescapeKeepsPlainPrefix(lib, head, rest);
    UnescapeKeepsPlainPrefix(lib, left, head + rest);
    var after := Unescape(lib, rest);
    SafeHeadIsHarmless(lib, head, after);
    SchemeAfterSpace(left, head + after);
  }

  lemma HeadInPrefix(lib: Library, prefix: string, k: nat, n: nat, rest: string)
    requires LowerSound(lib) && k + n <= |prefix|
    requires SafeHead(ToLower(lib, prefix[k..k + n])) && forall c | c in prefix[..k] :: IsSpace(c)
    ensures HarmlessUrl(Unescape(lib, prefix + rest))
  {
    var left, head, tail := prefix[..k], prefix[k..k + n], prefix[k + n..];
    HeadKeepsHarmless(lib, left, head, tail + rest);
    assert left + (head + (tail + rest)) == prefix + rest;
  }

  /** Where the part of a safe prefix that makes it safe begins, after space, and how long it is. */
  lemma SafePrefixHead(lib: Library, prefix: string) returns (k: nat, n: nat)
    requires LowerSound(lib) && SafeUrlPrefix(lib, prefix)
    ensures k + n <= |prefix| && SafeHead(ToLower(lib, prefix[k..k + n]))
    ensures forall c | c in prefix[..k] :: IsSpace(c)
  {
    var before, after := TrimSplits(ToLower(lib, prefix), Space);
    k, n := HeadAt(lib, prefix, before, TrimSpace(ToLower(lib, prefix)), after);
  }

  /** A safe static prefix keeps the decoded attribute harmless whatever is rendered after it. */
  lemma SafePrefixIsHarmless(lib: Library, prefix: string, rest: string)
    requires LowerSound(lib) && SafeUrlPrefix(lib, prefix)
    ensures HarmlessUrl(Unescape(lib, prefix + rest))
  {
    var k, n := SafePrefixHead(lib, prefix);
    HeadInPrefix(lib, prefix, k, n, rest);
  }
}
