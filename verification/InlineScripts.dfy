/** Which inline scripts a policy lets in, before the edit and after it. */
module InlineScripts {
  import opened Text
  import opened Csp
  import opened CspStandard

  // ---- Hashes and nonces (section 2.3.1 of Content Security Policy Level 3)

  predicate IsBase64Digit(c: char) { IsLetter(c) || IsDigit(c) || c == '+' || c == '/' || c == '-' || c == '_' }

  function WithoutPad(s: string): string { if s != "" && s[|s| - 1] == '=' then s[..|s| - 1] else s }

  /** base64-value: some digits, and then at most two equals signs. */
  predicate IsBase64(s: string) {
    var digits := WithoutPad(WithoutPad(s));
    digits != "" && forall i | 0 <= i < |digits| :: IsBase64Digit(digits[i])
  }

  /** A base64-value behind a prefix and before an apostrophe; the prefix is spelled in any ASCII case. */
  predicate IsQuoted(w: string, prefix: string) {
    && |w| > |prefix| && Means(w[..|prefix|], prefix, Standard)
    && w[|w| - 1] == '\'' && IsBase64(w[|prefix|..|w| - 1])
  }

  const NONCE := "'nonce-"
  const SHA256 := "'sha256-"
  const SHA384 := "'sha384-"
  const SHA512 := "'sha512-"

  /** A word that stands for single scripts, by what they contain or by a number that the page carries. */
  predicate IsToken(w: string) { IsQuoted(w, NONCE) || IsQuoted(w, SHA256) || IsQuoted(w, SHA384) || IsQuoted(w, SHA512) }

  const UNSAFE_INLINE := "'unsafe-inline'"
  const STRICT_DYNAMIC := "'strict-dynamic'"

  // ---- What lets a script in

  /** A list lets in every inline script (section 6.7.3.2): it says so, and no word in it is more particular. */
  predicate AllowsAllInline(list: seq<string>) {
    && (exists w :: w in list && Means(w, UNSAFE_INLINE, Standard))
    && (forall w :: w in list ==> !IsToken(w) && !Means(w, STRICT_DYNAMIC, Standard))
  }

  predicate Holds(list: seq<string>, own: set<string>) { exists w :: w in own && w in list }

  /** The sources let in an inline script, which is given by the tokens that stand for it: nothing is restricted, or
      every script is let in, or one of its own tokens is listed (section 6.7.3.3). */
  predicate LetsIn(sources: Option<seq<string>>, own: set<string>) {
    sources.None? || AllowsAllInline(sources.value) || Holds(sources.value, own)
  }

  predicate AreTokens(own: set<string>) { forall w :: w in own ==> IsToken(w) }

  // ---- The adjustment

  /** One of the two edits that grant the hash is read where it governs inline scripts. */
  predicate ScriptsAreEdited(policy: string, hash: string) {
    || EditIsRead(ScriptsAdjusted(policy, hash), SCRIPT_ELEM, hash, SCRIPT)
    || (EditIsRead(policy, SCRIPT, hash, DEFAULT) && Says(policy, SCRIPT_ELEM, Standard).None?)
  }

  /** What governs inline scripts then holds the hash, and else is what did before. */
  lemma ScriptsAfter(policy: string, hash: string)
    requires IsWord(hash) && AllAscii(hash)
    ensures var after := ScriptSources(Adjusted(policy, hash), Standard);
            if ScriptsAreEdited(policy, hash) then after.Some? && hash in after.value
            else after == ScriptSources(policy, Standard)
  {
    ConstantsAreNames();
    SaysForStandard(policy, hash, SCRIPT);
    SaysForStandard(policy, hash, SCRIPT_ELEM);
    SaysForStandard(policy, hash, DEFAULT);
    var scripts := ScriptsAdjusted(policy, hash);
    if EditIsRead(scripts, SCRIPT_ELEM, hash, SCRIPT) { ReadEditGrants(scripts, SCRIPT_ELEM, hash, SCRIPT); }
    if EditIsRead(policy, SCRIPT, hash, DEFAULT) { ReadEditGrants(policy, SCRIPT, hash, DEFAULT); }
  }

  /** For every policy: the client, of whose tokens the hash is one, is let in exactly when such an edit is read, or it
      was before. */
  lemma ReloadMayRun(policy: string, hash: string, client: set<string>)
    requires IsWord(hash) && AllAscii(hash) && hash in client
    ensures LetsIn(ScriptSources(Adjusted(policy, hash), Standard), client)
            <==> ScriptsAreEdited(policy, hash) || LetsIn(ScriptSources(policy, Standard), client)
  {
    ScriptsAfter(policy, hash);
  }

  /** And any other script, as it was before when no such edit is read, and by its own tokens alone when one is: beside a
      hash 'unsafe-inline' says nothing. */
  lemma OthersMayRun(policy: string, hash: string, own: set<string>)
    requires IsWord(hash) && AllAscii(hash) && IsToken(hash)
    ensures var before, after := ScriptSources(policy, Standard), ScriptSources(Adjusted(policy, hash), Standard);
            LetsIn(after, own)
            <==> if ScriptsAreEdited(policy, hash) then after.Some? && Holds(after.value, own) else LetsIn(before, own)
  {
    ScriptsAfter(policy, hash);
  }

  /** No token is the word 'none'. */
  lemma TokenIsNotNone(w: string)
    requires IsToken(w)
    ensures !EqualFold(w, NONE)
  {
    assert |NONE| == 6 && |NONCE| == 7 && |SHA256| == 8 && |SHA384| == 8 && |SHA512| == 8;
  }

  /** For a plain policy: a script of the page is let in after the adjustment exactly when nothing was restricted or the
      list had one of its tokens. What 'unsafe-inline' alone let in, it no longer does. */
  lemma PlainOthersMayRun(policy: string, hash: string, own: set<string>)
    requires IsPlain(policy) && IsWord(hash) && AllAscii(hash) && IsToken(hash) && AreTokens(own) && hash !in own
    ensures var before := ScriptSources(policy, Standard);
            LetsIn(ScriptSources(Adjusted(policy, hash), Standard), own) <==> before.None? || Holds(before.value, own)
  {
    PlainAdjustedEffect(policy, hash);
    var before, after := ScriptSources(policy, Standard), ScriptSources(Adjusted(policy, hash), Standard);
    if before.Some? && Holds(before.value, own) {
      var w :| w in own && w in before.value;
      TokenIsNotNone(w);
    }
  }

  /** So a script of the page is shut out by the adjustment exactly when it was let in as one of all. */
  lemma ShutsOutExactly(policy: string, hash: string, own: set<string>)
    requires IsPlain(policy) && IsWord(hash) && AllAscii(hash) && IsToken(hash) && AreTokens(own) && hash !in own
    ensures var before := ScriptSources(policy, Standard);
            LetsIn(before, own) && !LetsIn(ScriptSources(Adjusted(policy, hash), Standard), own)
            <==> before.Some? && AllowsAllInline(before.value)
  {
    PlainOthersMayRun(policy, hash, own);
    var before := ScriptSources(policy, Standard);
    if before.Some? && Holds(before.value, own) {
      var w :| w in own && w in before.value;
      assert IsToken(w);
    }
  }

  /** script-src 'unsafe-inline' */
  function InlinePolicy(): string { Words(SCRIPT, [UNSAFE_INLINE]) }

  lemma OneDirectiveSays(name: string, w: string, n: string)
    requires IsName(name) && IsName(n) && IsWord(w) && AllAscii(w)
    ensures IsPlain(Words(name, [w]))
    ensures Says(Words(name, [w]), n, Standard) == if n == name then Some([w]) else None
  {
    var policy := Words(name, [w]);
    PlainDirective(name, w, n);
    NameIsItself(name);
    NameIsAscii(name);
    DirectiveReads(name, w);
    SplitOfJoin([policy]);
    if n == name { FindIs([policy], 0, n, Standard); }
  }

  lemma UnsafeInlineIsWord()
    ensures IsWord(UNSAFE_INLINE) && AllAscii(UNSAFE_INLINE) && Means(UNSAFE_INLINE, UNSAFE_INLINE, Standard)
    ensures AllowsAllInline([UNSAFE_INLINE])
  {
    assert UNSAFE_INLINE[1] == 'u' && NONCE[1] == 'n' && SHA256[1] == 's' && SHA384[1] == 's' && SHA512[1] == 's';
    assert |UNSAFE_INLINE| == 15 && |STRICT_DYNAMIC| == 16;
    assert [UNSAFE_INLINE][0] == UNSAFE_INLINE;
  }

  /** The input: every script of the page runs before the adjustment and none after it, though all that was granted is
      the hash. */
  lemma UnsafeInlineIsShutOut(hash: string, own: set<string>)
    requires IsWord(hash) && AllAscii(hash) && IsToken(hash) && AreTokens(own) && hash !in own
    ensures LetsIn(ScriptSources(InlinePolicy(), Standard), own)
    ensures !LetsIn(ScriptSources(Adjusted(InlinePolicy(), hash), Standard), own)
    ensures Grants(ScriptSources(InlinePolicy(), Standard), ScriptSources(Adjusted(InlinePolicy(), hash), Standard), hash)
  {
    var policy := InlinePolicy();
    ConstantsAreNames();
    UnsafeInlineIsWord();
    OneDirectiveSays(SCRIPT, UNSAFE_INLINE, SCRIPT);
    OneDirectiveSays(SCRIPT, UNSAFE_INLINE, SCRIPT_ELEM);
    OneDirectiveSays(SCRIPT, UNSAFE_INLINE, DEFAULT);
    PlainAdjustedEffect(policy, hash);
    ShutsOutExactly(policy, hash, own);
  }
}
