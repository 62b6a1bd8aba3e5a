/** The names that generated code adds to a template's own: none of them captures another, nor a name of the source. */
module Identifiers {
  import opened Text
  import opened Sorting
  import Framing

  function Suffixed(base: string, n: nat): string { base + "_" + Framing.Decimal(n) }

  /** The names tried for a base: itself, and then with the suffixes from 2 on. */
  function Candidate(base: string, k: nat): string { if k == 0 then base else Suffixed(base, k + 1) }

  lemma CandidatesDiffer(base: string, j: nat, k: nat)
    requires j != k
    ensures Candidate(base, j) != Candidate(base, k)
  {
    if j > 0 && k > 0 && Candidate(base, j) == Candidate(base, k) {
      var n := |base| + 1;
      assert Candidate(base, j)[n..] == Framing.Decimal(j + 1) && Candidate(base, k)[n..] == Framing.Decimal(k + 1);
      Framing.ValueOfDecimal(j + 1);
      Framing.ValueOfDecimal(k + 1);
      assert false;
    }
    if j == 0 || k == 0 {
      assert |Candidate(base, if j == 0 then k else j)| > |base|;
    }
  }

  /** The first candidate that nobody uses. */
  ghost predicate IsFirstFree(name: string, base: string, used: set<string>) {
    exists k: nat :: IsFree(name, base, k, used)
  }

  predicate IsFree(name: string, base: string, k: nat, used: set<string>) {
    && name == Candidate(base, k) && name !in used
    && forall j | 0 <= j < k :: Candidate(base, j) in used
  }

  /** There is one such name, and it is the base itself unless that is used. */
  lemma FirstFreeIsUnique(a: string, b: string, base: string, used: set<string>)
    requires IsFirstFree(a, base, used) && IsFirstFree(b, base, used)
    ensures a == b && (a == base <==> base !in used)
  {
    var j, k: nat :| IsFree(a, base, j, used) && IsFree(b, base, k, used);
    assert Candidate(base, 0) == base;
    if j > 0 { CandidatesDiffer(base, j, 0); }
  }

  lemma SubsetIsSmaller<T>(a: set<T>, b: set<T>)
    requires a <= b
    ensures |a| <= |b|
  {
    if a != {} {
      var x :| x in a;
      SubsetIsSmaller(a - {x}, b - {x});
    }
  }

  /** uniqueIdentifier: the first candidate that is not used, which there is, as each of them can be used only once. */
  method UniqueIdentifier(base: string, used: set<string>) returns (name: string, now: set<string>)
    ensures IsFirstFree(name, base, used) && now == used + {name}
  {
    name := base;
    var suffix := 2;
    ghost var k: nat := 0;
    ghost var tried: set<string> := {};
    while name in used
      invariant suffix == k + 2 && name == Candidate(base, k)
      invariant forall j | 0 <= j < k :: Candidate(base, j) in used
      invariant tried <= used && |tried| == k && forall x | x in tried :: exists j: nat :: j < k && x == Candidate(base, j)
      decreases |used| - |tried|
    {
      if name in tried {
        var j: nat :| j < k && name == Candidate(base, j);
        CandidatesDiffer(base, j, k);
      }
      SubsetIsSmaller(tried + {name}, used);
      tried := tried + {name};
      name, suffix, k := Suffixed(base, suffix), suffix + 1, k + 1;
    }
    assert IsFree(name, base, k, used);
    now := used + {name};
  }

  // ---- Imports

  datatype Import = Import(alias: string, path: string)

  /** The last element of a path: filepath.Base, except of the empty path, whose dot is cut off again. */
  function LastElement(path: string): string {
    if path == "" then ""
    else if path[|path| - 1] == '/' then
      if |path| == 1 then "/" else LastElement(path[..|path| - 1])
    else AfterSlash(path)
  }

  function AfterSlash(path: string): (r: string)
    ensures '/' !in r && |r| <= |path| && r == path[|path| - |r|..]
    ensures |r| == |path| || path[|path| - |r| - 1] == '/'
  {
    if path == "" || path[|path| - 1] == '/' then "" else AfterSlash(path[..|path| - 1]) + [path[|path| - 1]]
  }

  /** Up to the first dot, with underscores for hyphens. */
  function Plainly(name: string): (r: string)
    ensures '.' !in r && '-' !in r
  {
    if name == "" || name[0] == '.' then ""
    else [if name[0] == '-' then '_' else name[0]] + Plainly(name[1..])
  }

  /** defaultImportName */
  function DefaultName(path: string): string { Plainly(LastElement(path)) }

  function NameOf(i: Import): string { if i.alias != "" then i.alias else DefaultName(i.path) }

  /** The first import of a path. */
  function Find(imports: seq<Import>, path: string): (i: Option<Import>)
    ensures i.Some? ==> i.value in imports && i.value.path == path
    ensures i.None? ==> forall j | j in imports :: j.path != path
  {
    if imports == [] then None
    else
      var n := |imports| - 1;
      var before := Find(imports[..n], path);
      if before.Some? then before else if imports[n].path == path then Some(imports[n]) else None
  }

  /** The names in scope: the identifiers of the source, and what its imports bring in. */
  function InScope(identifiers: set<string>, imports: seq<Import>): (names: set<string>)
    ensures forall x :: x in names <==> x in identifiers || exists i :: i in imports && i.alias != "_" && NameOf(i) == x
  {
    if imports == [] then identifiers
    else
      var last := imports[|imports| - 1];
      assert imports == imports[..|imports| - 1] + [last];
      InScope(identifiers, imports[..|imports| - 1]) + if last.alias == "_" then {} else {NameOf(last)}
  }

  predicate IsForSideEffects(imports: seq<Import>, path: string) {
    Find(imports, path).Some? && Find(imports, path).value.alias == "_"
  }

  datatype Dependency = Known(name: string) | Added(name: string) | SideEffect

  /** A dependency that the source imports is known by the name of its first import, unless that is for side effects, and
      another one has the first free name of its base. */
  ghost predicate IsResolved(d: Dependency, path: string, base: string, imports: seq<Import>, used: set<string>) {
    match Find(imports, path)
    case Some(i) => d == if i.alias == "_" then SideEffect else Known(NameOf(i))
    case None => d.Added? && IsFirstFree(d.name, base, used)
  }

  /** The import that such a dependency needs, and the name that it takes. */
  function Needed(d: Dependency, path: string): seq<Import> { if d.Added? then [Import(d.name, path)] else [] }

  function Taken(d: Dependency): set<string> { if d.Added? then {d.name} else {} }

  /** The closure `ensure` */
  method Ensure(path: string, base: string, imports: seq<Import>, used: set<string>)
      returns (d: Dependency, all: seq<Import>, now: set<string>)
    ensures IsResolved(d, path, base, imports, used)
    ensures all == imports + Needed(d, path) && now == used + Taken(d)
  {
    all, now := imports, used;
    for n := 0 to |imports|
      invariant Find(imports[..n], path).None?
    {
      assert imports[..n + 1][..n] == imports[..n];
      if imports[n].path == path {
        FirstIsFound(imports, path, n);
        return if imports[n].alias == "_" then SideEffect else Known(NameOf(imports[n])), imports, used;
      }
    }
    assert imports[..|imports|] == imports;
    var alias;
    alias, now := UniqueIdentifier(base, used);
    d, all := Added(alias), imports + [Import(alias, path)];
  }

  lemma {:induction false} FirstIsFound(imports: seq<Import>, path: string, n: nat)
    requires n < |imports| && Find(imports[..n], path).None? && imports[n].path == path
    ensures Find(imports, path) == Some(imports[n])
  {
    if n < |imports| - 1 {
      var shorter := imports[..|imports| - 1];
      assert shorter[..n] == imports[..n];
      FirstIsFound(shorter, path, n);
    }
  }

  /** Imports of other paths behind it do not matter. */
  lemma {:induction false} FindBefore(imports: seq<Import>, more: seq<Import>, path: string)
    requires forall i | i in more :: i.path != path
    ensures Find(imports + more, path) == Find(imports, path)
  {
    if more == [] {
      assert imports + more == imports;
    } else {
      var n := |more| - 1;
      FindBefore(imports, more[..n], path);
      assert (imports + more)[..|imports| + n] == imports + more[..n];
    }
  }

  // ---- Their order

  /** The comparison of prepareImports: by path, and then by alias. */
  predicate Before(a: Import, b: Import) { Less(a.path, b.path) || (a.path == b.path && Less(a.alias, b.alias)) }

  predicate InOrder(s: seq<Import>) { forall i | 0 < i < |s| :: !Before(s[i], s[i - 1]) }

  /** `x` after every import that it is not to stand before. */
  function Placed(s: seq<Import>, x: Import): (r: seq<Import>)
    ensures |r| == |s| + 1 && r[|s|] in {x, if s == [] then x else s[|s| - 1]}
    ensures multiset(r) == multiset(s) + multiset{x}
  {
    if s == [] || !Before(x, s[|s| - 1]) then s + [x]
    else
      assert s == s[..|s| - 1] + [s[|s| - 1]];
      Placed(s[..|s| - 1], x) + [s[|s| - 1]]
  }

  function Arranged(s: seq<Import>): (r: seq<Import>)
    ensures multiset(r) == multiset(s)
  {
    if s == [] then []
    else
      assert s == s[..|s| - 1] + [s[|s| - 1]];
      Placed(Arranged(s[..|s| - 1]), s[|s| - 1])
  }

  lemma BeforeIsAsymmetric(a: Import, b: Import)
    requires Before(a, b)
    ensures !Before(b, a)
  {
    if Less(a.path, b.path) { LessIsAsymmetric(a.path, b.path); }
    if Less(b.path, a.path) { LessIsAsymmetric(b.path, a.path); }
    if Less(a.alias, b.alias) { LessIsAsymmetric(a.alias, b.alias); }
  }

  lemma {:induction false} PlacedInOrder(s: seq<Import>, x: Import)
    requires InOrder(s)
    ensures InOrder(Placed(s, x))
  {
    if s != [] && Before(x, s[|s| - 1]) {
      var n := |s| - 1;
      PlacedInOrder(s[..n], x);
      BeforeIsAsymmetric(x, s[n]);
    }
  }

  lemma {:induction false} ArrangedInOrder(s: seq<Import>)
    ensures InOrder(Arranged(s))
  {
    if s != [] {
      ArrangedInOrder(s[..|s| - 1]);
      PlacedInOrder(Arranged(s[..|s| - 1]), s[|s| - 1]);
    }
  }

  // ---- All the names of one file

  const CONTEXT := "__himesan_context"
  const IO := "__himesan_io"
  const SANDO := "__himesan_sando"
  const RENDER_CONTEXT := "__himesan_render_context"
  const WRITER := "__himesan_writer"
  const ERROR := "__himesan_error"

  const CONTEXT_PATH := "context"
  const IO_PATH := "io"
  const RUNTIME_PATH := "gamertan.com/sandwich-hime/sando"

  /** The letter in which the bases differ, the one after their common beginning. */
  predicate HasLetter(name: string, c: char) { |name| > 10 && name[10] == c }

  lemma BaseLetters()
    ensures HasLetter(CONTEXT, 'c') && HasLetter(IO, 'i') && HasLetter(SANDO, 's')
    ensures HasLetter(RENDER_CONTEXT, 'r') && HasLetter(WRITER, 'w') && HasLetter(ERROR, 'e')
  {
  }

  /** Every candidate of a base has its letter. */
  lemma CandidateLetter(base: string, k: nat, c: char)
    requires HasLetter(base, c)
    ensures HasLetter(Candidate(base, k), c)
  {
  }

  lemma FirstFreeLetter(name: string, base: string, c: char, used: set<string>)
    requires HasLetter(base, c) && IsFirstFree(name, base, used)
    ensures HasLetter(name, c) && name !in used
  {
    var k: nat :| IsFree(name, base, k, used);
    CandidateLetter(base, k, c);
  }

  /** So names of other bases make no difference to which is free. */
  lemma FreeAmongOthers(name: string, base: string, c: char, used: set<string>, others: set<string>)
    requires HasLetter(base, c) && forall x :: x in others ==> !HasLetter(x, c)
    requires IsFirstFree(name, base, used + others)
    ensures IsFirstFree(name, base, used)
  {
    var k: nat :| IsFree(name, base, k, used + others);
    forall j | 0 <= j < k ensures Candidate(base, j) in used {
      CandidateLetter(base, j, c);
    }
    assert IsFree(name, base, k, used);
  }

  lemma TakenHasLetter(d: Dependency, path: string, base: string, c: char, imports: seq<Import>, used: set<string>)
    requires HasLetter(base, c) && IsResolved(d, path, base, imports, used)
    ensures forall x :: x in Taken(d) ==> HasLetter(x, c) && x !in used
  {
    if d.Added? { FirstFreeLetter(d.name, base, c, used); }
  }

  /** A dependency that is resolved behind others, of other paths and letters, is resolved as if they were not there. */
  lemma ResolvedAmongOthers(d: Dependency, path: string, base: string, c: char, imports: seq<Import>, used: set<string>,
                            more: seq<Import>, others: set<string>)
    requires HasLetter(base, c) && forall x :: x in others ==> !HasLetter(x, c)
    requires forall i | i in more :: i.path != path
    requires IsResolved(d, path, base, imports + more, used + others)
    ensures IsResolved(d, path, base, imports, used)
  {
    FindBefore(imports, more, path);
    if d.Added? { FreeAmongOthers(d.name, base, c, used, others); }
  }

  lemma PathsDiffer()
    ensures CONTEXT_PATH != IO_PATH && CONTEXT_PATH != RUNTIME_PATH && IO_PATH != RUNTIME_PATH
  {
    assert |CONTEXT_PATH| == 7 && |IO_PATH| == 2 && |RUNTIME_PATH| == 32;
  }

  /** What generated code calls its dependencies. */
  datatype Dependencies = Dependencies(context: Dependency, io: Dependency, sando: Dependency)

  /** Each is resolved by itself, whatever the others are. */
  ghost predicate AreResolved(d: Dependencies, imports: seq<Import>, used: set<string>) {
    && IsResolved(d.context, CONTEXT_PATH, CONTEXT, imports, used)
    && IsResolved(d.io, IO_PATH, IO, imports, used)
    && IsResolved(d.sando, RUNTIME_PATH, SANDO, imports, used)
  }

  function AllNeeded(d: Dependencies): seq<Import> {
    Needed(d.context, CONTEXT_PATH) + (Needed(d.io, IO_PATH) + Needed(d.sando, RUNTIME_PATH))
  }

  /** prepareImports: the imports of the source and those that are needed besides, in order. */
  method PrepareImports(identifiers: set<string>, imports: seq<Import>) returns (d: Dependencies, all: seq<Import>)
    ensures AreResolved(d, imports, InScope(identifiers, imports))
    ensures multiset(all) == multiset(imports) + multiset(AllNeeded(d)) && InOrder(all)
  {
    var scope := InScope(identifiers, imports);
    var context, io, sando, used;
    context, all, used := Ensure(CONTEXT_PATH, CONTEXT, imports, scope);
    io, all, used := Ensure(IO_PATH, IO, all, used);
    sando, all, used := Ensure(RUNTIME_PATH, SANDO, all, used);
    d := Dependencies(context, io, sando);
    ResolvedInTurn(d, imports, scope);
    NeededInTurn(d, imports);
    ArrangedInOrder(all);
    all := Arranged(all);
  }

  lemma NeededInTurn(d: Dependencies, imports: seq<Import>)
    ensures var all := imports + Needed(d.context, CONTEXT_PATH) + Needed(d.io, IO_PATH) + Needed(d.sando, RUNTIME_PATH);
            multiset(Arranged(all)) == multiset(imports) + multiset(AllNeeded(d))
  {
    var all := imports + Needed(d.context, CONTEXT_PATH) + Needed(d.io, IO_PATH) + Needed(d.sando, RUNTIME_PATH);
    assert all == imports + AllNeeded(d);
  }

  /** The three of them one after another. */
  lemma ResolvedInTurn(d: Dependencies, imports: seq<Import>, used: set<string>)
    requires IsResolved(d.context, CONTEXT_PATH, CONTEXT, imports, used)
    requires IsResolved(d.io, IO_PATH, IO, imports + Needed(d.context, CONTEXT_PATH), used + Taken(d.context))
    requires IsResolved(d.sando, RUNTIME_PATH, SANDO,
                        imports + Needed(d.context, CONTEXT_PATH) + Needed(d.io, IO_PATH),
                        used + Taken(d.context) + Taken(d.io))
    ensures AreResolved(d, imports, used)
  {
    BaseLetters();
    PathsDiffer();
    TakenHasLetter(d.context, CONTEXT_PATH, CONTEXT, 'c', imports, used);
    ResolvedAmongOthers(d.io, IO_PATH, IO, 'i', imports, used, Needed(d.context, CONTEXT_PATH), Taken(d.context));
    TakenHasLetter(d.io, IO_PATH, IO, 'i', imports, used);
    var more := Needed(d.context, CONTEXT_PATH) + Needed(d.io, IO_PATH);
    assert imports + Needed(d.context, CONTEXT_PATH) + Needed(d.io, IO_PATH) == imports + more;
    assert used + Taken(d.context) + Taken(d.io) == used + (Taken(d.context) + Taken(d.io));
    ResolvedAmongOthers(d.sando, RUNTIME_PATH, SANDO, 's', imports, used, more, Taken(d.context) + Taken(d.io));
  }

  /** All that generated code calls its own. */
  datatype Names = Names(dependencies: Dependencies, render: string, writer: string, error: string)

  /** Each is the first free name of its base: among all names in scope for a dependency, and among the identifiers for a
      variable. */
  ghost predicate AreFirstFree(n: Names, identifiers: set<string>, imports: seq<Import>) {
    && AreResolved(n.dependencies, imports, InScope(identifiers, imports))
    && IsFirstFree(n.render, RENDER_CONTEXT, identifiers)
    && IsFirstFree(n.writer, WRITER, identifiers)
    && IsFirstFree(n.error, ERROR, identifiers)
  }

  /** The names of generateGo, unless a dependency is imported for its side effects, which is refused. */
  method GeneratedNames(identifiers: set<string>, imports: seq<Import>) returns (names: Option<Names>, all: seq<Import>)
    ensures names.None? <==> || IsForSideEffects(imports, CONTEXT_PATH) || IsForSideEffects(imports, IO_PATH)
                             || IsForSideEffects(imports, RUNTIME_PATH)
    ensures names.Some? ==> AreFirstFree(names.value, identifiers, imports)
    ensures names.Some? ==> multiset(all) == multiset(imports) + multiset(AllNeeded(names.value.dependencies))
    ensures names.Some? ==> InOrder(all)
  {
    var d;
    d, all := PrepareImports(identifiers, imports);
    if d.context.SideEffect? || d.io.SideEffect? || d.sando.SideEffect? {
      return None, [];
    }
    var used := identifiers;
    var render, writer, error;
    render, used := UniqueIdentifier(RENDER_CONTEXT, used);
    writer, used := UniqueIdentifier(WRITER, used);
    error, used := UniqueIdentifier(ERROR, used);
    names := Some(Names(d, render, writer, error));
    FreeInTurn(render, writer, error, identifiers);
  }

  lemma FreeInTurn(render: string, writer: string, error: string, used: set<string>)
    requires IsFirstFree(render, RENDER_CONTEXT, used) && IsFirstFree(writer, WRITER, used + {render})
    requires IsFirstFree(error, ERROR, used + {render} + {writer})
    ensures IsFirstFree(writer, WRITER, used) && IsFirstFree(error, ERROR, used)
  {
    BaseLetters();
    FirstFreeLetter(render, RENDER_CONTEXT, 'r', used);
    FirstFreeLetter(writer, WRITER, 'w', used + {render});
    FreeAmongOthers(writer, WRITER, 'w', used, {render});
    assert used + {render} + {writer} == used + {render, writer};
    FreeAmongOthers(error, ERROR, 'e', used, {render, writer});
  }

  function AddedName(d: Dependency): seq<string> { if d.Added? then [d.name] else [] }

  function AddedNames(d: Dependencies): seq<string> { AddedName(d.context) + AddedName(d.io) + AddedName(d.sando) }

  /** The names that the source did not have. */
  function Introduced(n: Names): seq<string> { AddedNames(n.dependencies) + ([n.render] + [n.writer] + [n.error]) }

  /** Some names, none of them in a set and each with one of some letters. */
  predicate AreApart(names: seq<string>, letters: set<char>, others: set<string>) {
    && (forall x :: x in names ==> |x| > 10 && x[10] in letters && x !in others)
    && (forall i, j | 0 <= i < j < |names| :: names[i] != names[j])
  }

  lemma ApartTogether(a: seq<string>, b: seq<string>, cs: set<char>, ds: set<char>, others: set<string>)
    requires AreApart(a, cs, others) && AreApart(b, ds, others) && cs !! ds
    ensures AreApart(a + b, cs + ds, others)
  {
  }

  lemma AddedIsApart(d: Dependency, path: string, base: string, c: char, imports: seq<Import>, used: set<string>,
                     identifiers: set<string>)
    requires HasLetter(base, c) && IsResolved(d, path, base, imports, used) && identifiers <= used
    ensures AreApart(AddedName(d), {c}, identifiers)
  {
    TakenHasLetter(d, path, base, c, imports, used);
  }

  lemma DependenciesAreApart(d: Dependencies, identifiers: set<string>, imports: seq<Import>)
    requires AreResolved(d, imports, InScope(identifiers, imports))
    ensures AreApart(AddedNames(d), {'c', 'i', 's'}, identifiers)
  {
    var scope := InScope(identifiers, imports);
    BaseLetters();
    AddedIsApart(d.context, CONTEXT_PATH, CONTEXT, 'c', imports, scope, identifiers);
    AddedIsApart(d.io, IO_PATH, IO, 'i', imports, scope, identifiers);
    AddedIsApart(d.sando, RUNTIME_PATH, SANDO, 's', imports, scope, identifiers);
    ThreeApart(AddedName(d.context), AddedName(d.io), AddedName(d.sando), 'c', 'i', 's', identifiers);
  }

  lemma VariablesAreApart(render: string, writer: string, error: string, identifiers: set<string>)
    requires IsFirstFree(render, RENDER_CONTEXT, identifiers) && IsFirstFree(writer, WRITER, identifiers)
    requires IsFirstFree(error, ERROR, identifiers)
    ensures AreApart([render] + [writer] + [error], {'r', 'w', 'e'}, identifiers)
  {
    BaseLetters();
    FirstFreeLetter(render, RENDER_CONTEXT, 'r', identifiers);
    FirstFreeLetter(writer, WRITER, 'w', identifiers);
    FirstFreeLetter(error, ERROR, 'e', identifiers);
    ThreeApart([render], [writer], [error], 'r', 'w', 'e', identifiers);
  }

  lemma ThreeApart(a: seq<string>, b: seq<string>, c: seq<string>, x: char, y: char, z: char, others: set<string>)
    requires AreApart(a, {x}, others) && AreApart(b, {y}, others) && AreApart(c, {z}, others) && x != y && z != x && z != y
    ensures AreApart(a + b + c, {x, y, z}, others)
  {
    ApartTogether(a, b, {x}, {y}, others);
    ApartTogether(a + b, c, {x} + {y}, {z}, others);
    assert {x} + {y} + {z} == {x, y, z};
  }

  lemma AllApart(added: seq<string>, own: seq<string>, others: set<string>)
    requires AreApart(added, {'c', 'i', 's'}, others) && AreApart(own, {'r', 'w', 'e'}, others)
    ensures forall x :: x in added + own ==> x !in others
    ensures forall i, j | 0 <= i < j < |added + own| :: (added + own)[i] != (added + own)[j]
  {
    ApartTogether(added, own, {'c', 'i', 's'}, {'r', 'w', 'e'}, others);
  }

  /** None of them is an identifier of the source, and no two are the same. */
  lemma NamesAreApart(n: Names, identifiers: set<string>, imports: seq<Import>)
    requires AreFirstFree(n, identifiers, imports)
    ensures forall x :: x in Introduced(n) ==> x !in identifiers
    ensures forall i, j | 0 <= i < j < |Introduced(n)| :: Introduced(n)[i] != Introduced(n)[j]
  {
    DependenciesAreApart(n.dependencies, identifiers, imports);
    VariablesAreApart(n.render, n.writer, n.error, identifiers);
    AllApart(AddedNames(n.dependencies), [n.render] + [n.writer] + [n.error], identifiers);
  }
}
