# Hime-san, modelled and proved

Hime-san compiles `.sando` files, HTML templates with Go between tags, into Go. This project models its hardest parts
in Dafny and proves what they promise. `dafny verify dfyconfig.toml` checks all of it.

**Data stays data.** The context analyzer reads a template with a 20-state automaton and gives each expression an output
context; the generated code writes each value with the writer for that context. `HtmlAutomaton` is the transition,
`Analysis` the fold of it over the nodes, and `ContextAnalyzer` the class whose fields are updated character by
character, proved to follow that fold. `Runtime` and `Renderer` are the writers and the generated code. `Agreement`,
`Rendering` and `Components` then show that reading the rendered page leads where analysing the template led, for every
template and all values, and `Programs` for every tree of components, each of them going through its template in any
order of the Go control flow, up to the end or to a refused value. `UrlPolicy` and `Html` are the URL rules and the
escaping that this rests on, and `ScriptWindow` the check for comments in scripts.

**Templates and positions.** `Tokenizer` finds tags and the ends of their Go, `Printing` shows that tokenizing undoes
printing, and `Positions` and `Utf16` are the line table and the language server's positions, with their ways back.
`ProtocolPositions` sets these against the positions of the Language Server Protocol 3.17.

**Whole projects.** `ComponentGraph` is the detection of component cycles, with `CallGraph` the graphs and `CycleSearch`
the search as a function and exactly what it finds. `Generator` is the generation of all outputs and the check that
agrees with it, over an abstract disk, and `Sorting` the sort they use. `Identifiers` are the names that generated code
adds, and `SourceNames` the scan that they depend on.

**The development server.** `Supervision` keeps the last healthy application serving, `Debounce` says when it rebuilds,
`HubProtocol` is the event hub as a transition system whose steps readers interleave with and `Events` its methods, and
`Csp` is the edit of a Content Security Policy, whose effect on a browser is in `CspStandard`, and on inline scripts in
`InlineScripts`. `Framing` is the base protocol of the language server.

A Go string is modelled as the sequence of its characters in the analyzer, the writers, the URL rules and the policy
edit, and byte by byte, one character for each byte, in the tokenizer, the position tables and the framing.
`HtmlAutomaton.NonAsciiMovesAlike` is why the analyzer, which reads bytes, may be read by characters. Ordinary values
may hold malformed UTF-8 (`UrlPolicy.Rune`). Tables that Go's library supplies (named entities, the replacements of the
numeric references 128 to 159, lower case outside ASCII) are a parameter, `Html.Library`, about which only the facts in
`Html.Sound` are used. The theorems hold for any HTML tables; `Programs.EveryPageIsWellFormed` is theirs for the
analyzer's own, `HtmlAutomaton.HTML`.

What the code does not do, though one might expect it:

- The compile-time and the runtime URL checks differ on schemes that lower-casing turns into an allowed one from outside
  ASCII (`UrlPolicy.PoliciesAgreeExactly`); a browser takes such a URL to have no scheme, so both are safe.
- A tag's recorded offset skips fewer kinds of white space than its body is trimmed of (`Tokenizer.OffsetIsTrue`).
- Not every component on some cycle is reported, as the search leaves finished components alone
  (`CycleSearch.MemberStaysUnreported`). Every cycle has two that are, one calling the other, and which ones are, and so
  when all are, is exact (`CycleSearch.ReportedExactly`, `AllReportedExactly`).
- Go's scanner reads the HTML of a template too, where an apostrophe hides the rest of its line, and a name that
  generated code adds can meet an identifier that was hidden (`SourceNames.ApostropheCollides`). It does so exactly as
  `SourceNames.MeetsExactly` says, and never in a tag at which the scan reads Go (`SourceNames.TagIsApart`).
- `Content-Length` is written for payloads of any size but read only up to 16 MiB (`Framing.FrameIsRead`).
- A position whose character is beyond its line is refused, where the protocol takes the end of the line, and a lone
  carriage return ends no line (`ProtocolPositions.BeyondIsRefused`, `LoneReturnShifts`, `ReturnIsCounted`). The server
  is right exactly where `ProtocolPositions.FoundExactly` says.
- Directive names of a policy are compared with Unicode case folding and words split at Unicode white space, where
  browsers know only ASCII. So the reload connection can stay blocked (`CspStandard.LongSBlocksReload`), and a directive
  that browsers ignore can come to life (`CspStandard.NoBreakSpaceLetsAllIn`). On policies in ASCII without a vertical
  tab the lists become what was promised (`CspStandard.PlainAdjustedEffect`); for all others the effect is exact
  (`CspStandard.StandardEffect`, `ReloadMayConnect`, `InlineScripts.ReloadMayRun`), and so is when nothing else is let in
  (`CspStandard.NothingElseExactly`).
- A hash beside 'unsafe-inline' switches that off, so the edit shuts out the page's own inline scripts exactly where they
  were let in that way (`InlineScripts.ShutsOutExactly`, `UnsafeInlineIsShutOut`).

## Model

| member | source | states |
|---|---|---|
| `UrlPolicy.CanonicalUrlIsHarmless` | sando/write.go:137-180 | Every ordinary value that the runtime URL check accepts has, as a browser reads it, no scheme or one of http, https, mailto and tel; it is trimmed and free of controls. |
| `UrlPolicy.CanonicalUrlIsIdempotent` | sando/write.go:137-167 | Checking an accepted URL again accepts it unchanged. |
| `UrlPolicy.StaticAcceptsCanonical` | internal/compiler/context.go:464-490 | Whatever the runtime accepts, the compile-time check accepts when it is written into the template as an escaped literal. |
| `UrlPolicy.PoliciesAgree` | internal/compiler/context.go:464-490 | With nothing outside ASCII before the colon, the compile-time check of an escaped URL and the runtime check of the URL accept exactly the same URLs. |
| `UrlPolicy.PoliciesAgreeExactly` | sando/write.go:137-180 | Over all trimmed URLs the two checks agree exactly when the scheme is not disguised: one that becomes an allowed scheme only by lower-casing a letter outside ASCII. |
| `UrlPolicy.StaticAcceptsMoreOutsideAscii` | internal/compiler/context.go:464-490 | A URL on which they differ: with U+0130 in place of the i of mailto the compile-time check accepts and the runtime check refuses. |
| `UrlPolicy.StaticUrlIsHarmless` | internal/compiler/context.go:464-490 | A literal URL attribute that the analyzer accepts has, once decoded, no scheme outside the four. |
| `UrlPolicy.SafePrefixIsHarmless` | internal/compiler/context.go:492-506 | A URL attribute that begins with an accepted static prefix decodes to a harmless URL whatever is rendered after the prefix. |
| `Html.UnescapeUndoesEscape` | sando/write.go:49-83 | Unescaping undoes escaping on every string. |
| `Html.EscapeHasNoDelimiter` | sando/write.go:49-71 | Escaped text holds no angle bracket and no quote. |
| `Html.UnescapeKeepsPlainPrefix` | internal/compiler/context.go:464-490 | What precedes the first ampersand decodes to itself, whatever follows. |
| `HtmlAutomaton.RunConcat` | internal/compiler/context.go:155-414 | The automaton over a concatenation is the automaton over the first part and then, from where that ends, over the second. |
| `HtmlAutomaton.NonAsciiMovesAlike` | internal/compiler/context.go:155-170 | All characters outside ASCII move the automaton alike and two of them as one does, so the analyzer's bytes may be read as characters. |
| `Agreement.StepFollows` | internal/compiler/context.go:155-414 | Two automata that agree in every field their state will still read stay in agreement over any character, and the reading of rendered output stops nowhere that the analysis goes on. |
| `Rendering.CharTracks` | internal/compiler/context.go:155-414 | One template character keeps the reading of the rendered page on the analyzer's track, and a URL attribute closes only on a harmless value. |
| `Rendering.TextTracks` | internal/compiler/context.go:155-414 | So does any run of static text. |
| `Rendering.UrlIsWritten` | sando/write.go:73-83 | What the URL writer writes holds no delimiter and decodes to a harmless URL. |
| `Rendering.HoleTracks` | internal/compiler/backend.go:118-134 | A value, written by the writer chosen for the context of its expression, keeps the rendered page on track: data stays data. |
| `Rendering.SegmentTracks` | internal/compiler/context.go:82-153 | From any automaton on track at one node, what the nodes up to another write keeps it on track there. |
| `Rendering.TrailHolds` | internal/compiler/context.go:145-151 | Along a trail every prefix is accepted, the stack never falls below its base, and every URL attribute that closes is harmless. |
| `Components.RenderingPreservesMarkup` | internal/compiler/context.go:82-153 | For every accepted template and all values, reading what the first nodes wrote leads, in state, names, raw text and stack, to where the analysis was; the whole of it ends between tags with nothing open. |
| `Components.RenderingIsBenign` | sando/component.go:44-56 | The rendered bytes of an accepted component can stand between any two tags: they lead back to the data state with exactly the stack found there, never pop below it, and depend on no left-over field. |
| `Programs.ProgramIsBenign` | internal/compiler/context.go:100-142 | Nesting and control flow together: what any finite tree of accepted components wrote that was not stopped, each of them going through its stretches in any order and any number of times, can stand between any two tags; each of them straight through, it leaves the stack as it found it. |
| `Programs.PageIsWellFormed` | internal/compiler/context.go:145-151 | A page from such a tree, whether it ends, is stopped by a refused value inside some component, or is cut anywhere by a failing writer, is accepted at each of its characters and has closed no harmful URL attribute; one that ends does so between tags, and balanced when every component ran straight through. |
| `Programs.EveryPageIsWellFormed` | internal/compiler/context.go:58-80 | With the analyzer's own tables, then, every page is accepted at each of its characters, whenever it stops, with no harmful URL attribute closed, and every expression come to has its context. |
| `Programs.PassesRead` | internal/compiler/context.go:100-111 | What any number of stretches wrote, in any order, is read along a trail; and when none was stopped it ends between tags. |
| `Programs.EveryExpressionMeetsItsContext` | internal/compiler/context.go:112-142 | Wherever in such a tree an expression is come to, in a page that ends or in one that is stopped later, inside that component or elsewhere, what the page holds before it leads to the context that the analysis of its own component assigned. |
| `Programs.NodeIsInPage` | internal/compiler/backend.go:104-136 | What a component had written when it came to a node, with what that node then writes, begins all that it writes. |
| `Programs.StraightRun` | internal/compiler/backend.go:104-136 | With values alone, one pass over the whole template writes what the generated code writes, up to the same refusal. |
| `ScriptWindow.ScriptCommentIsFound` | internal/compiler/context.go:159-167 | Inside a script the four-byte window reports HIM1357 at a character exactly when the static text since the opening tag ends there in a comment opening, however nodes split that text. |
| `Analysis.AcceptedMeansNoDiagnostics` | internal/compiler/context.go:145-153 | A template is accepted (data state and empty stack at its end) exactly when nothing is reported. |
| `Analysis.StepKeepsRawMatch` | internal/compiler/context.go:508-566 | Every transition keeps: a raw-text element is remembered exactly while its text is being read. |
| `ContextAnalyzer.AnalyzeContexts` | internal/compiler/context.go:82-153 | The node contexts written in place and the diagnostics are those of the fold of the transition over the nodes; nodes from a rejected one on are left as they were. |
| `ContextAnalyzer.ContextAnalyzer.Consume` | internal/compiler/context.go:155-170 | The fields after one character are where the transition leads, or the diagnostic is the one it stops with. |
| `ContextAnalyzer.ContextAnalyzer.ConsumeText` | internal/compiler/context.go:155-414 | A text node takes the fields where the automaton leads, or is reported at the offset of the first refused character. |
| `ContextAnalyzer.ContextAnalyzer.FinishOpen` | internal/compiler/context.go:508-536 | The end of an opening tag: its checks, the push, and the entry into raw text. |
| `ContextAnalyzer.ContextAnalyzer.FinishClose` | internal/compiler/context.go:538-553 | The end of a closing tag: void and unbalanced tags are reported, otherwise exactly the top of the stack goes. |
| `ContextAnalyzer.ContextAnalyzer.FinishRaw` | internal/compiler/context.go:555-566 | The end of a raw-text element, with every raw-text field cleared. |
| `ContextAnalyzer.ContextAnalyzer.FinishValue` | internal/compiler/context.go:439-462 | The end of an attribute value: recording it and the URL rules for literal, whole-dynamic and prefixed values. |
| `ContextAnalyzer.ContextAnalyzer.Validate` | internal/compiler/context.go:428-437 | A repeated attribute and an event handler attribute are reported; any other name is remembered. |
| `ContextAnalyzer.ContextAnalyzer.AnalyzeNode` | internal/compiler/context.go:95-143 | One node: the new fields, its annotated form, or the diagnostic that leaves it as it was. |
| `Renderer.Writer.WriteString` | sando/write.go:100-113 | Either all of a string is written, or a failure is reported after a part of it. |
| `Renderer.Render` | internal/compiler/backend.go:104-136 | The generated code writes the nodes in order; a refused URL ends it before any of that value is written, and a failing writer leaves a prefix of what would have come. |
| `ComponentGraph.DetectCycles` | internal/compiler/operation.go:284-355 | Every report names a real cycle, a member of it and a call on it, and no component is reported twice. Every cycle has a call whose two ends are both reported, so there is a report exactly when some component reaches itself. And a component is reported exactly when a component calls back into the first path to it, in the order of keys and calls, and the cycle so closed goes through that component. |
| `ComponentGraph.DetectComponentCycles` | internal/compiler/operation.go:246-355 | All that for the graph built from the compiled files, searched by its keys in their order: its calls are those component nodes that name an existing component, each component's sorted by name, and every file that declares a component again stands beside the first that did. |
| `ComponentGraph.CycleDetector.Visit` | internal/compiler/operation.go:294-334 | The depth-first search keeps its colors, stack and reports in step with the search as a function: order, reported components and the path to each become what that gives. |
| `ComponentGraph.CycleDetector.ReportCycle` | internal/compiler/operation.go:306-330 | A call back into the stack closes a cycle; its members, the stack from there on, are reported, and nothing else is. |
| `CallGraph.MemberIsOnCycle` | internal/compiler/operation.go:306-330 | Every member of a cycle lies on a cycle of its own. |
| `CallGraph.CyclesAreMarked` | internal/compiler/operation.go:284-355 | In a graph with a rank that falls along every call but those between two reported components, every cycle has such a call. |
| `CallGraph.OrderRanks` | internal/compiler/operation.go:294-334 | An order in which all components finish after those they call, but for calls between reported ones, ranks all other calls. |
| `CycleSearch.ReportedExactly` | internal/compiler/operation.go:294-334 | Exactly what the search reports, without the search: a component is reported when and only when some component calls back into the lexicographically first path to it, and the part of that path from there on goes through the reported one. |
| `CycleSearch.AllReportedExactly` | internal/compiler/operation.go:294-334 | So every component on a cycle is reported exactly when there is such a call for each of them. |
| `CycleSearch.FirstIsUnique` | internal/compiler/operation.go:284-304 | There is at most one first path to a component, by the order of the keys and of the calls. |
| `CycleSearch.StackIsFirst` | internal/compiler/operation.go:294-334 | The stack with which the search comes to a component is the first path to it. |
| `CycleSearch.SearchIsWhole` | internal/compiler/operation.go:294-355 | The whole search comes to every component, by its first path, and finishes it. |
| `CycleSearch.SearchRanks` | internal/compiler/operation.go:294-355 | A rank falls along all calls but those between two reported components. |
| `CycleSearch.CyclesAreReported` | internal/compiler/operation.go:294-355 | Every cycle has a call whose two ends are both reported. |
| `CycleSearch.MemberStaysUnreported` | internal/compiler/operation.go:294-334 | Three components of which one lies on a cycle and is not reported: A calls B and C, B calls A, C calls B, searched from A. |
| `ComponentGraph.ReportedOnce` | internal/compiler/operation.go:306-330 | As many reported members as reports means that no component is reported twice. |
| `ComponentGraph.BuildGraph` | internal/compiler/operation.go:260-283 | A component calls another in the graph exactly when one of its nodes names it and it exists in the same package, and its calls are those nodes sorted by that name, stably. |
| `ComponentGraph.IndexSources` | internal/compiler/operation.go:247-258 | The first declaration of each component is indexed; every later one is named, in order, beside that first one. |
| `ComponentGraph.NoDuplicates` | internal/compiler/operation.go:247-258 | There are duplicates exactly when two files declare one component. |
| `Generator.CodeEqualIsEquivalence` | internal/compiler/backend.go:323-330 | Freshness is an equivalence of generated files. |
| `Generator.EqualUpToVersion` | internal/compiler/backend.go:323-343 | Two different files are equal exactly when they differ in the compiler version alone. |
| `Generator.OtherPathsStay` | internal/compiler/operation.go:19-83 | A path that is no output never changes. |
| `Generator.UnownedFilesStay` | internal/compiler/operation.go:32-58 | A file without the owner line never changes, even where an output would go. |
| `Generator.OutputsAreOldOrNew` | internal/compiler/operation.go:59-81 | At every moment of the write loop each output holds what it held before or its own compiled code. |
| `Generator.GenerateThenCheck` | internal/compiler/operation.go:85-129 | After a successful Generate every output is fresh, exactly the stale ones were written, and Check is clean. |
| `Generator.CheckIsDryGenerate` | internal/compiler/operation.go:85-129 | Check is clean exactly when Generate would succeed and write nothing. |
| `Generator.SecondGenerateWritesNothing` | internal/compiler/operation.go:19-83 | A second Generate succeeds and writes nothing. |
| `Generator.Disk.Generate` | internal/compiler/operation.go:19-83 | The disk, the result and its counters are those of the validate-then-write function; any error before the first write leaves every file as it was. |
| `Generator.Disk.Check` | internal/compiler/operation.go:85-129 | Check changes nothing and has no error exactly when every output is fresh and nobody canceled; up to a cancellation the result flags exactly the missing and the stale outputs, counts them and the fresh ones, and has one diagnostic for each output that is not fresh. |
| `Generator.SortedApart` | internal/compiler/operation.go:160-166 | Sorted apart by the same keys, compiled files and their results still stand side by side. |
| `Generator.CompileOperation` | internal/compiler/operation.go:131-167 | All files that the sources reached before a cancellation compile to come back, and no others, in order of their source with their results beside them, and with them all diagnostics: of discovery, of each source reached, of the cancellation, and of the cycle detection. |
| `Generator.FoundErrors` | internal/compiler/operation.go:131-167 | These hold an error exactly when one of those does or the operation was canceled. |
| `Sorting.SortKeepsItems` | internal/compiler/operation.go:163-164 | Sorting files by their path loses none and adds none. |
| `Sorting.SortKeepsPairs` | internal/compiler/operation.go:163-164 | Two lists with the same keys are permuted alike by a stable sort. |
| `Sorting.SortKeepsMembers` | internal/compiler/operation.go:163-164 | Sorting only reorders. |
| `Sorting.SortSorts` | internal/compiler/operation.go:163-164 | And the result is in order. |
| `Identifiers.UniqueIdentifier` | internal/compiler/backend.go:233-240 | The first candidate that is not used is returned and marked used, and the search for it ends for every set of used names. |
| `Identifiers.FirstFreeIsUnique` | internal/compiler/backend.go:233-240 | There is one first free candidate, and it is the base itself exactly when that is not used. |
| `Identifiers.CandidatesDiffer` | internal/compiler/backend.go:233-240 | No two candidates of a base are the same, the decimal suffixes being injective. |
| `Identifiers.Ensure` | internal/compiler/backend.go:184-201 | A dependency that the source imports keeps the name of its first import, a side-effect import of it is refused, and otherwise it is imported under the first free name. |
| `Identifiers.PrepareImports` | internal/compiler/backend.go:172-213 | The imports are those of the source and exactly the dependencies that it lacks, sorted by path and alias; each dependency is resolved as if it were the only one, its new alias being the first that nothing in scope is called. |
| `Identifiers.GeneratedNames` | internal/compiler/backend.go:68-76 | A side-effect import of a dependency is refused; otherwise each of the names introduced is the first free one of its base, among the names in scope for an alias and among the identifiers found for a variable. |
| `Identifiers.NamesAreApart` | internal/compiler/backend.go:68-76 | So none of them is among the identifiers found, and no two of them are the same. |
| `SourceNames.TagIsApart` | internal/compiler/backend.go:215-231 | Where the scan of the template reads Go when a tag's own Go begins, none of the names is an identifier of that tag. |
| `SourceNames.MeetsExactly` | internal/compiler/backend.go:215-240 | Wherever a tag stands, the name for a base meets one of its identifiers exactly when the first candidate that the scan did not find is among them. |
| `SourceNames.ScannedWithin` | internal/compiler/backend.go:215-231 | What the scan finds in a part, begun in the mode it reaches there, it finds in the whole. |
| `SourceNames.ApostropheHides` | internal/compiler/backend.go:215-231 | An apostrophe in what is read as Go hides the rest of its line from the scan, up to another one. |
| `SourceNames.ApostropheCollides` | internal/compiler/backend.go:215-240 | In the template <p>don't <?= __himesan_writer ?></p> the identifier is not found, and the writer of the generated code gets that very name. |
| `Tokenizer.FindGoDelimiter` | internal/compiler/parse.go:470-536 | The one-byte look-ahead loop finds the least ?> that lies outside strings, runes, raw strings and comments, and nothing exactly when there is none. |
| `Tokenizer.DelimiterIsFirst` | internal/compiler/parse.go:466-469 | The search reading one byte at a time is the least position whose lexical mode, folded from the start, is code. |
| `Tokenizer.TokenizeTemplate` | internal/compiler/parse.go:399-464 | The loop's nodes and diagnostics are, in order, what becomes of the template's tokens; a refused expression gives one diagnostic for each error of the parser, at its place. |
| `Tokenizer.TakeTag` | internal/compiler/parse.go:426-460 | One tag: its kind by sigil, its trimmed body and offset, and the checks in their order (reserved word, empty, parser). |
| `Tokenizer.TokensTile` | internal/compiler/parse.go:399-464 | Text and tags lie end to end over the whole template, spell it back, and are what their shapes say: text holds no tag opening and reaches up to one, a tag ends at the first delimiter that closes it, a broken one has none. |
| `Tokenizer.OneOutcomeEach` | internal/compiler/parse.go:399-464 | Each token becomes one node or is refused with its diagnostics, and no two text nodes are adjacent. |
| `Tokenizer.OffsetIsTrue` | internal/compiler/parse.go:441-444 | The recorded offset of a tag is that of its body exactly when the white space before the body is of the four kinds the offset skips. |
| `Tokenizer.NodesAreFound` | internal/compiler/parse.go:399-464 | Every node of such a tag, and every text node, is found in the source at its recorded offset. |
| `Tokenizer.FormFeedShiftsTheOffset` | internal/compiler/parse.go:441-444 | A form feed before the body makes the recorded offset point before it. |
| `Printing.TokenizingUndoesPrinting` | internal/compiler/parse.go:399-464 | Any list of non-adjacent texts and lexically closed tag bodies, printed and tokenized, comes back node by node with no diagnostic. |
| `Printing.BodyReadsThrough` | internal/compiler/parse.go:470-536 | A body that leaves Go's lexer in code is read through to the ?> that follows it. |
| `Printing.TagIsRead` | internal/compiler/parse.go:414-461 | A printed tag is read as the token that spans it and kept as the piece it was. |
| `Printing.TextIsRead` | internal/compiler/parse.go:403-413 | A text is read up to the tag that follows it. |
| `Positions.NewPositionTable` | internal/compiler/parse.go:27-35 | The table holds 0 and the offset after every newline, in order, and nothing else. |
| `Positions.At` | internal/compiler/parse.go:37-55 | The binary search finds the last line that starts at or before the clamped offset, and the column counts from there. |
| `Positions.CompilerPositionOffset` | internal/lsp/workspace.go:426-446 | The offset of a line and column, both clamped from below, found by walking newlines and clamped to the text. |
| `Positions.PositionLeadsBack` | internal/lsp/workspace.go:426-446 | For every offset from 0 to the length of the text, the offset found for the position that the table gives is that offset. |
| `Utf16.OffsetToPosition` | internal/lsp/workspace.go:357-382 | The position is what walking the runes of the bytes up to the clamped offset comes to. |
| `Utf16.PositionToOffset` | internal/lsp/workspace.go:384-424 | The offset is found by seeking the line and then the units in it. |
| `Utf16.OffsetLeadsBack` | internal/lsp/workspace.go:357-424 | Whenever a position has an offset, that is a rune boundary and its position is the one given, over arbitrary bytes. |
| `Utf16.PositionLeadsBack` | internal/lsp/workspace.go:357-424 | At every rune boundary the position of the offset has that offset. |
| `Utf16.LineCountsNewlines` | internal/lsp/workspace.go:357-382 | The line of any offset is the number of newlines before it. |
| `Utf16.BoundaryOffsetsAreFixed` | internal/lsp/workspace.go:357-424 | The round trip from an offset gives it back exactly at rune boundaries. |
| `ProtocolPositions.RefusedExactly` | internal/lsp/workspace.go:384-424 | On a line that exists, a position is refused exactly when its character is negative, beyond the units of the line, or inside a surrogate pair; otherwise its offset is the rune boundary of that line with that many units before it. |
| `ProtocolPositions.LineExists` | internal/lsp/workspace.go:388-398 | A line exists exactly when there are that many newlines. |
| `ProtocolPositions.FoundExactly` | internal/lsp/workspace.go:384-424 | Wherever the protocol gives a position an offset, the server finds that offset exactly when no line before the position ends in a lone carriage return and the character is not beyond its line. |
| `ProtocolPositions.BeyondIsRefused` | internal/lsp/workspace.go:417-423 | A character beyond its line, which the protocol takes for the end of the line, is refused. |
| `ProtocolPositions.LoneReturnShifts` | internal/lsp/workspace.go:388-398 | After a lone carriage return, which ends a line for the protocol only, the server finds another line. |
| `ProtocolPositions.ReturnIsCounted` | internal/lsp/workspace.go:399-416 | Before a newline the carriage return counts as a character of its line. |
| `HubProtocol.EveryRunIsSound` | internal/devserver/events.go:48-120 | Under every interleaving of publishing steps, subscriptions, closing and receives: queues hold at most eight events, what a subscriber has received and has queued is in order a part of what was meant for it, no send hits a closed channel, and no channel is closed twice. |
| `HubProtocol.NewestIsDelivered` | internal/devserver/events.go:62-79 | Between publications a subscriber has, in order, a part of its replay and of everything published since, ending with the newest event. |
| `HubProtocol.NewcomerFindsTheLatest` | internal/devserver/events.go:82-95 | A new subscriber is given exactly the last diagnostic that no later reload has cleared, or nothing when there is none. |
| `HubProtocol.PublisherIsNeverHeldUp` | internal/devserver/events.go:62-79 | Whatever readers do, the publisher has a step to take and each of its steps brings it nearer to its end. |
| `HubProtocol.StepKeeps` | internal/devserver/events.go:48-120 | Every step from a sound hub leads to a sound hub. |
| `HubProtocol.OfferKeeps` | internal/devserver/events.go:62-64 | The first send keeps the hub sound. |
| `HubProtocol.DropKeeps` | internal/devserver/events.go:65-72 | Dropping the oldest queued event keeps it sound. |
| `HubProtocol.RetryKeeps` | internal/devserver/events.go:73-76 | The second send always finds room and keeps it sound. |
| `Events.EventHub.Publish` | internal/devserver/events.go:48-80 | With any receives falling between its channel operations, publishing leaves every registered subscriber with the new event last, unless the hub is closed. |
| `Events.EventHub.Subscribe` | internal/devserver/events.go:82-95 | The new channel, registered and replayed, or closed when the hub is. |
| `Events.EventHub.Unsubscribe` | internal/devserver/events.go:97-106 | The channel is closed once and forgotten. |
| `Events.EventHub.Close` | internal/devserver/events.go:109-120 | Every registered channel is closed once, and nothing is published after. |
| `Events.EventHub.Receive` | internal/devserver/events.go:147-155 | A receive takes the oldest queued event and touches nothing else. |
| `Supervision.Supervisor.Run` | internal/devserver/supervisor.go:174-301 | Over all inputs: at every wait the proxy points at the current application, or nowhere when there is none, and nothing else runs; from one wait to the next an exit leaves no application, a debounced build that comes up healthy and is accepted brings a new one at its address, and anything else, a failed build among it, keeps application and target; builds start at exactly the debounced ticks; the proxy is only ever pointed at what had passed its health check, and requests never go to a process that was stopped; on return nothing runs and no binary is left. |
| `Supervision.OneMoreAct` | internal/devserver/supervisor.go:432-447 | An act after which requests go to no stopped process keeps it true that they never did. |
| `Supervision.StopsOne` | internal/devserver/supervisor.go:432-447 | Stopping a process that requests do not go to keeps the history sound. |
| `Supervision.Supervisor.Rebuild` | internal/devserver/supervisor.go:288-298 | A generate, build, startup or proxy failure changes neither the application nor the target and reports one diagnostic; a healthy accepted one takes over. |
| `Supervision.Supervisor.BuildHealthyCandidate` | internal/devserver/supervisor.go:303-320 | A candidate comes back exactly when everything succeeded; otherwise all is as before but for one diagnostic naming the phase. |
| `Supervision.Supervisor.StartAndCheck` | internal/devserver/supervisor.go:357-380 | A process that does not come up healthy is stopped. |
| `Supervision.Supervisor.ActivateCandidate` | internal/devserver/supervisor.go:432-447 | The proxy is pointed at the new application first, and then the old one is stopped; a refused one is stopped and the old one stays. |
| `Supervision.Supervisor.HandleExit` | internal/devserver/supervisor.go:249-267 | When the application exits the target is forgotten and its binary removed. |
| `Supervision.Supervisor.HandleTick` | internal/devserver/supervisor.go:273-299 | One tick: what is remembered of the watch, whether a build starts, and what may change through it. |
| `Supervision.Supervisor.SetTarget` | internal/devserver/proxy.go:95-105 | The target changes only to an accepted address. |
| `Supervision.Supervisor.ClearTarget` | internal/devserver/proxy.go:111-121 | The target is forgotten only while it is still the given address. |
| `Debounce.BuildIsDebounced` | internal/devserver/supervisor.go:273-299 | A build starts at a tick exactly when the last difference between consecutive snapshots is owed one and is at least the delay old. |
| `Debounce.BuildsAreSeparated` | internal/devserver/supervisor.go:283-290 | Between two builds a difference has been observed. |
| `Debounce.NoChangeIsLost` | internal/devserver/supervisor.go:283-290 | A change that has been left alone for the delay has been built. |
| `Debounce.RemembersTheLastChange` | internal/devserver/supervisor.go:240-299 | The loop's variables are the last snapshot and the time of the last difference, which is pending exactly while it is owed a build. |
| `Csp.AddCspSource` | internal/devserver/proxy.go:361-411 | The in-place loop over the directives returns the specified edit of the policy. |
| `Csp.AddedSourceEffect` | internal/devserver/proxy.go:361-411 | As the code reads policies, the named directive gains the source and loses 'none' unless it has the source already, begins as its fallback when it is missing, and stays missing when both are; every other directive is unchanged. |
| `Csp.AddedSourceIsIdempotent` | internal/devserver/proxy.go:361-411 | Editing twice gives the same string as editing once. |
| `Csp.AdjustedEffect` | internal/devserver/proxy.go:343-359 | As the code reads policies, after the adjustment the sources governing an inline script and a connection contain the hash and 'self' wherever they were restricted, nothing else was added or lost but 'none', unrestricted ones stay so, and all other directives are as before. |
| `Csp.AdjustCsp` | internal/devserver/proxy.go:343-359 | Every value of the header is adjusted, in place and in order. |
| `Csp.WithoutNone` | internal/devserver/proxy.go:413-421 | The sources other than 'none', in order. |
| `Csp.JoinOfSplit` | internal/devserver/proxy.go:362-384 | Joining the split parts gives the policy back. |
| `Csp.SplitOfJoin` | internal/devserver/proxy.go:362-391 | Splitting joined parts gives the parts back. |
| `Csp.FieldsOfWords` | internal/devserver/proxy.go:385-391 | The words of a written directive are its name and its sources. |
| `CspStandard.ReadingsAgree` | internal/devserver/proxy.go:365-377 | A browser, by section 2.2.1 of Content Security Policy Level 3, reads a directive as the code does exactly when it is ASCII without a vertical tab, or blank to the code and not ASCII. |
| `CspStandard.StandardNamesAreCode` | internal/devserver/proxy.go:374-378 | What a browser takes for a directive of some name, the code does too. |
| `CspStandard.StandardEffect` | internal/devserver/proxy.go:361-411 | The exact effect of an edit on what a browser reads, for every policy: the named directive comes to say what the code made of it when the words written are ASCII and no unread white space is left before an appended one, and otherwise says what it said; no other directive changes. |
| `CspStandard.NothingElseExactly` | internal/devserver/proxy.go:368-391 | After an edit nothing is let in, to a browser, but the source and what was let in before, exactly when the directive was unrestricted, or the edit is not read, or every source that the code carries over the browser had read there too. |
| `CspStandard.PlainPartLetsNothingElseIn` | internal/devserver/proxy.go:368-391 | That is so in particular when the part from which the code takes the sources is ASCII without a vertical tab. |
| `CspStandard.ReloadMayConnect` | internal/devserver/proxy.go:343-359 | To a browser the adjusted policy lets the reload connection in exactly when the last edit is read, or the policy did before. |
| `InlineScripts.ReloadMayRun` | internal/devserver/proxy.go:343-359 | And by section 6.7.3 of Content Security Policy Level 3 the reload client is let in exactly when the edit of script-src-elem is read, or that of script-src is and no script-src-elem overrides it, or it was before: by its hash, or because 'unsafe-inline' let all scripts in. |
| `InlineScripts.OthersMayRun` | internal/devserver/proxy.go:343-359 | Any other inline script is let in by its own hash or nonce alone when such an edit is read, for beside a hash 'unsafe-inline' says nothing, and otherwise as before. |
| `InlineScripts.ShutsOutExactly` | internal/devserver/proxy.go:343-359 | For every policy in ASCII without a vertical tab the adjustment shuts a script of the page out exactly when the policy let it in as one of all, by 'unsafe-inline'. |
| `InlineScripts.UnsafeInlineIsShutOut` | internal/devserver/proxy.go:343-359 | On script-src 'unsafe-inline' every script of the page is let in before the adjustment and none after it, though all that the list gained is the hash. |
| `CspStandard.PlainAdjustedEffect` | internal/devserver/proxy.go:343-359 | For every policy in ASCII without a vertical tab the adjustment does to the lists that a browser reads all it does to those the code reads: those governing inline scripts and connections gain the hash and 'self' wherever there was a restriction, and lose nothing but 'none'. What the hash does to 'unsafe-inline' is in InlineScripts. |
| `CspStandard.OthersStay` | internal/devserver/proxy.go:343-359 | For every policy, no directive but the three changes for a browser. |
| `CspStandard.LongSBlocksReload` | internal/devserver/proxy.go:374-378 | With default-src 'none' and connect-src 'self' spelled with a long s, the reload connection stays blocked. |
| `CspStandard.NoBreakSpaceLetsAllIn` | internal/devserver/proxy.go:365-391 | With connect-src * after a no-break space, which browsers ignore, before connect-src 'none', the edit brings the first one to life. |
| `CspStandard.VerticalTabParts` | internal/devserver/proxy.go:365-367 | A vertical tab parts two words for the code and none for a browser. |
| `Framing.FrameReader.Read` | internal/lsp/protocol.go:71-115 | One frame or one error from the stream, the reader standing behind the frame it returned. |
| `Framing.FrameWriter.Write` | internal/lsp/protocol.go:122-137 | A frame is appended whole, or a short write is reported after a part of it. |
| `Framing.FrameIsRead` | internal/lsp/protocol.go:71-137 | A written frame is read back as its payload, to its last byte and no further, exactly when the payload is within 16 MiB. |
| `Framing.ReadingUndoesWriting` | internal/lsp/protocol.go:71-137 | Any list of payloads within the limit, written one after another, is read back as that list from exactly those bytes. |
| `Framing.AtoiOfDecimal` | internal/lsp/protocol.go:100-104 | Reading a written length gives the length. |
| `Framing.HeadingIsRead` | internal/lsp/protocol.go:75-106 | The written header is read as the length it gives, exactly when the limit allows it. |

## Left out

- Programs.RunPasses: stops at a pass whose slots and nodes differ in number, which generated code cannot meet.
- Runtime.WriteIn: gives the empty text for an ordinary value in script or style, which the types of generated code rule out.
- Runtime.Fits: takes the types of generated code as given; the Go type checker is not modelled.
- Rendering.Trustworthy: assumes that trusted HTML and handwritten components can stand between tags and that trusted script and style stay inside their element, as the project documents of them; trusted URLs are not modelled.
- Html.CodePoint: reads a numeric reference as an unbounded number, where the library's wraps at 32 bits.
- Tokenizer.TokenizeTemplate: takes what the Go parser finds in each expression as a parameter, by the offsets of its errors.
- Tokenizer.TokenIsFound: positions are offsets here; `Positions.At` gives their line and column.
- ContextAnalyzer.AnalyzeContexts: diagnostics carry code and offset, not text, and offsets count characters.
- ComponentGraph.DetectCycles: reports come in the order in which they are found; the sorting of diagnostics is not modelled, here or elsewhere.
- Identifiers.GeneratedNames: takes the identifiers that the scan finds; `SourceNames.Scanned` says which those are.
- SourceNames.Scanned: counts Go's keywords as identifiers, and passes over a run of letters and digits that begins with a digit, the end of which the scanner may take for one.
- Generator.Disk.Generate: file modes, temporary files, fsync and rename are one atomic replacement that may fail.
- Generator.CompileOperation: what each source compiles to is given; discovery, reading and the digest are not modelled, and the order of diagnostics is that in which they are found.
- Supervision.Supervisor.Run: builds, processes, health checks and addresses are inputs; stopping a process is taken to succeed, and listening and shutting down the server are left out.
- Supervision.Supervisor.SetTarget: whether an address is a loopback address is an input.
- Csp.AdjustCsp: takes each header value for one policy, as the code does; that a value may list several with commas (section 2.2.2 of Content Security Policy Level 3) is not modelled, nor are bytes that are not UTF-8.
- Framing.Atoi: has no overflow, since a number out of range is refused for its size anyway.
- Framing.FrameReader.Read: reads from everything that will ever arrive; buffering and the writer's mutex are not modelled.
- HubProtocol.StepReceive: a channel hands events over through its queue alone, which a receiver already waiting cannot tell apart.
- Parsing and formatting Go, the header of a template, and the audit of trust calls.
- The WHATWG tokenizer: the analyzer is its own reference.
- HTTP, the injection of the reload client, SSE, processes, signals, discovery, the file watcher, the CLI and releases.
- The language server's requests, completion and indexing.
