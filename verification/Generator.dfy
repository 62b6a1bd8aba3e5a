/** Generate and Check over an abstract disk: every output is validated before the first one is written. */
module Generator {
  import opened Text
  import opened Sequences
  import opened Sorting

  // ---- Freshness

  const GENERATED_PREFIX: string := "// Code generated by himesan; DO NOT EDIT."
  const OWNER_LINE: string := GENERATED_PREFIX + "\n"
  const VERSION_PREFIX: string := GENERATED_PREFIX + "\n// himesan:compiler "

  /** generatedCodeWithoutCompilerVersion: everything from the end of the compiler line on. */
  function WithoutVersion(code: string): Option<string> {
    if !(VERSION_PREFIX <= code) then None
    else
      var rest := code[|VERSION_PREFIX|..];
      var end := IndexOf(rest, Newline);
      if end == 0 || end == |rest| then None else Some(rest[end..])
  }

  /** generatedCodeEqual */
  predicate CodeEqual(a: string, b: string) {
    a == b || (WithoutVersion(a).Some? && WithoutVersion(a) == WithoutVersion(b))
  }

  predicate Owned(code: string) { OWNER_LINE <= code }

  lemma CodeEqualIsEquivalence(a: string, b: string, c: string)
    ensures CodeEqual(a, a) && (CodeEqual(a, b) ==> CodeEqual(b, a))
    ensures CodeEqual(a, b) && CodeEqual(b, c) ==> CodeEqual(a, c)
  {
  }

  predicate IsVersion(v: string) { v != "" && IndexOf(v, Newline) == |v| }

  lemma VersionedShape(v: string, rest: string)
    requires IsVersion(v) && rest != "" && rest[0] == '\n'
    ensures WithoutVersion(VERSION_PREFIX + v + rest) == Some(rest)
  {
    var code := VERSION_PREFIX + v + rest;
    assert code == VERSION_PREFIX + (v + rest);
    assert code[|VERSION_PREFIX|..] == v + rest;
    assert forall i | 0 <= i < |v| :: (v + rest)[i] == v[i] && !In(v[i], Newline);
    assert In((v + rest)[|v|], Newline);
    assert IndexOf(v + rest, Newline) == |v|;
  }

  /** Two different files are equal exactly when they differ in the compiler version alone. */
  lemma EqualUpToVersion(a: string, b: string)
    requires a != b
    ensures CodeEqual(a, b) <==>
            exists v, w, rest :: IsVersion(v) && IsVersion(w) && rest != "" && rest[0] == '\n'
              && a == VERSION_PREFIX + v + rest && b == VERSION_PREFIX + w + rest
  {
    if CodeEqual(a, b) {
      var v := VersionOf(a);
      var w := VersionOf(b);
      var rest := WithoutVersion(a).value;
      assert IsVersion(v) && IsVersion(w) && a == VERSION_PREFIX + v + rest && b == VERSION_PREFIX + w + rest;
    }
    forall v, w, rest | IsVersion(v) && IsVersion(w) && rest != "" && rest[0] == '\n'
                        && a == VERSION_PREFIX + v + rest && b == VERSION_PREFIX + w + rest
      ensures CodeEqual(a, b)
    {
      VersionedShape(v, rest);
      VersionedShape(w, rest);
    }
  }

  lemma VersionOf(code: string) returns (v: string)
    requires WithoutVersion(code).Some?
    ensures IsVersion(v) && WithoutVersion(code).value != "" && WithoutVersion(code).value[0] == '\n'
    ensures code == VERSION_PREFIX + v + WithoutVersion(code).value
  {
    var rest := code[|VERSION_PREFIX|..];
    var end := IndexOf(rest, Newline);
    v := rest[..end];
    assert forall i | 0 <= i < |v| :: v[i] == rest[i];
    assert code == VERSION_PREFIX + rest && rest == v + rest[end..];
  }

  lemma EqualIsOwned(a: string, b: string)
    requires CodeEqual(a, b) && Owned(b)
    ensures Owned(a)
  {
    assert OWNER_LINE <= VERSION_PREFIX by { assert VERSION_PREFIX[..|OWNER_LINE|] == OWNER_LINE; }
  }

  // ---- The disk

  /** What a path holds, as Lstat and ReadFile show it. A path that is not there holds nothing. */
  datatype Entry = File(bytes: string) | Special | Unreadable | Uninspectable

  type FileSystem = map<string, Entry>

  datatype Compiled = Compiled(source: string, output: string, code: string)

  datatype Diagnostic = Diagnostic(path: string, code: nat, isError: bool)

  predicate HasErrors(ds: seq<Diagnostic>) { exists i | 0 <= i < |ds| :: ds[i].isError }

  /** What can go wrong from outside: the paths that cannot be replaced, and how many files are processed before the
      operation is canceled, if it is. */
  datatype World = World(locked: set<string>, cancelAt: Option<nat>)

  predicate Canceled(w: World, n: nat) { w.cancelAt.Some? && w.cancelAt.value <= n }

  predicate IsFresh(fs: FileSystem, c: Compiled) {
    c.output in fs && fs[c.output].File? && CodeEqual(fs[c.output].bytes, c.code)
  }

  predicate AllFresh(fs: FileSystem, files: seq<Compiled>) { forall i | 0 <= i < |files| :: IsFresh(fs, files[i]) }

  /** Distinct outputs, as discovery gives distinct sources, all of them opening with the owner line. */
  predicate WellFormed(files: seq<Compiled>) {
    && (forall i, j | 0 <= i < j < |files| :: files[i].output != files[j].output)
    && forall i | 0 <= i < |files| :: Owned(files[i].code)
  }

  /** Why an output may not be replaced. */
  function Obstacle(fs: FileSystem, c: Compiled): Option<nat> {
    if c.output !in fs then None
    else match fs[c.output]
      case Uninspectable => Some(2101)
      case Special => Some(2102)
      case Unreadable => Some(2103)
      case File(bytes) => if Owned(bytes) then None else Some(2104)
  }

  predicate Blocked(fs: FileSystem, files: seq<Compiled>) {
    exists i | 0 <= i < |files| :: Obstacle(fs, files[i]).Some?
  }

  // ---- Generate, as a function of the disk

  /** What ends Generate early: errors found before the first write, or one met while writing. */
  datatype Failure = Refusal | Interrupted(diagnostic: Diagnostic)

  /** The write loop after some files: the disk, which of them changed, and what stopped it. */
  datatype Progress = Progress(fs: FileSystem, changed: seq<bool>, failure: Option<Failure>)

  function Write(w: World, p: Progress, c: Compiled, n: nat): Progress {
    if p.failure.Some? then p
    else if Canceled(w, n) then p.(failure := Some(Interrupted(Diagnostic(c.source, 2001, true))))
    else if IsFresh(p.fs, c) then p.(changed := p.changed + [false])
    else if c.output in w.locked then p.(failure := Some(Interrupted(Diagnostic(c.output, 2110, true))))
    else p.(fs := p.fs[c.output := File(c.code)], changed := p.changed + [true])
  }

  /** The write loop over the first `n` files. */
  function Written(w: World, fs: FileSystem, files: seq<Compiled>, n: nat): Progress
    requires n <= |files|
  {
    if n == 0 then Progress(fs, [], None) else Write(w, Written(w, fs, files, n - 1), files[n - 1], n - 1)
  }

  /** Generate, from the diagnostics of compilation on. */
  function GenerateSpec(w: World, fs: FileSystem, files: seq<Compiled>, found: seq<Diagnostic>): Progress {
    if HasErrors(found) || Blocked(fs, files) then Progress(fs, [], Some(Refusal))
    else Written(w, fs, files, |files|)
  }

  predicate Succeeds(p: Progress) { p.failure.None? }

  predicate WroteNothing(p: Progress) { forall i | 0 <= i < |p.changed| :: !p.changed[i] }

  /** Check: every output fresh, nothing wrong with the sources, and nobody canceled. */
  predicate CheckSpec(w: World, fs: FileSystem, files: seq<Compiled>, found: seq<Diagnostic>) {
    !HasErrors(found) && AllFresh(fs, files) && forall n | 0 <= n < |files| :: !Canceled(w, n)
  }

  predicate Untouched(before: FileSystem, after: FileSystem, path: string) {
    (path in after <==> path in before) && (path in before ==> after[path] == before[path])
  }

  predicate Holds(fs: FileSystem, path: string, code: string) { path in fs && fs[path] == File(code) }

  /** What the write loop does to one path, and to the outputs not reached yet. */
  lemma {:induction false} WrittenPaths(w: World, fs: FileSystem, files: seq<Compiled>, n: nat, path: string)
    requires n <= |files|
    ensures var p := Written(w, fs, files, n);
            Untouched(fs, p.fs, path)
            || exists i | 0 <= i < n :: files[i].output == path && Holds(p.fs, path, files[i].code)
  {
    if n > 0 {
      WrittenPaths(w, fs, files, n - 1, path);
      var before, p := Written(w, fs, files, n - 1), Written(w, fs, files, n);
      if p.fs != before.fs && path == files[n - 1].output {
        assert files[n - 1].output == path && Holds(p.fs, path, files[n - 1].code);
      }
    }
  }

  /** A path that is no output never changes. */
  lemma OtherPathsStay(w: World, fs: FileSystem, files: seq<Compiled>, found: seq<Diagnostic>, path: string)
    requires forall i | 0 <= i < |files| :: files[i].output != path
    ensures var p := GenerateSpec(w, fs, files, found);
            Untouched(fs, p.fs, path)
  {
    WrittenPaths(w, fs, files, |files|, path);
  }

  /** A file that is not owned never changes, even where an output would go. */
  lemma UnownedFilesStay(w: World, fs: FileSystem, files: seq<Compiled>, found: seq<Diagnostic>, path: string)
    requires path in fs && !(fs[path].File? && Owned(fs[path].bytes))
    ensures Untouched(fs, GenerateSpec(w, fs, files, found).fs, path)
  {
    WrittenPaths(w, fs, files, |files|, path);
    if !Blocked(fs, files) {
      forall i | 0 <= i < |files| ensures files[i].output != path {
        assert Obstacle(fs, files[i]).None?;
      }
    }
  }

  /** At every moment of the write loop each output holds what it held before, or its own compiled code. */
  lemma OutputsAreOldOrNew(w: World, fs: FileSystem, files: seq<Compiled>, n: nat, i: nat)
    requires WellFormed(files) && n <= |files| && i < |files|
    ensures var p, out := Written(w, fs, files, n), files[i].output;
            Untouched(fs, p.fs, out) || Holds(p.fs, out, files[i].code)
  {
    WrittenPaths(w, fs, files, n, files[i].output);
  }

  /** The first `n` outputs are fresh, exactly the stale ones of them were written, and the others are as before. */
  predicate FreshUpTo(w: World, fs: FileSystem, files: seq<Compiled>, p: Progress, n: nat)
    requires n <= |files|
  {
    && |p.changed| == n
    && (forall i | 0 <= i < n :: IsFresh(p.fs, files[i]) && !Canceled(w, i) && (p.changed[i] <==> !IsFresh(fs, files[i])))
    && forall j | n <= j < |files| :: Untouched(fs, p.fs, files[j].output)
  }

  lemma WriteKeepsOthers(w: World, p: Progress, c: Compiled, n: nat, d: Compiled)
    requires c.output != d.output
    ensures Untouched(p.fs, Write(w, p, c, n).fs, d.output)
    ensures IsFresh(p.fs, d) ==> IsFresh(Write(w, p, c, n).fs, d)
  {
  }

  lemma WriteFreshens(w: World, fs: FileSystem, files: seq<Compiled>, p: Progress, n: nat)
    requires WellFormed(files) && n < |files| && FreshUpTo(w, fs, files, p, n)
    requires Succeeds(p) && Succeeds(Write(w, p, files[n], n))
    ensures FreshUpTo(w, fs, files, Write(w, p, files[n], n), n + 1)
  {
    var after := Write(w, p, files[n], n);
    assert Untouched(fs, p.fs, files[n].output);
    assert IsFresh(p.fs, files[n]) <==> IsFresh(fs, files[n]);
    forall i | 0 <= i < n ensures IsFresh(after.fs, files[i]) { WriteKeepsOthers(w, p, files[n], n, files[i]); }
    forall j | n < j < |files| ensures Untouched(fs, after.fs, files[j].output) {
      WriteKeepsOthers(w, p, files[n], n, files[j]);
    }
  }

  lemma {:induction false} WrittenIsFresh(w: World, fs: FileSystem, files: seq<Compiled>, n: nat)
    requires WellFormed(files) && n <= |files| && Succeeds(Written(w, fs, files, n))
    ensures FreshUpTo(w, fs, files, Written(w, fs, files, n), n)
  {
    if n > 0 {
      WrittenIsFresh(w, fs, files, n - 1);
      WriteFreshens(w, fs, files, Written(w, fs, files, n - 1), n - 1);
    }
  }

  /** After a successful Generate every output is fresh, exactly the stale ones were written, and Check is clean. */
  lemma GenerateThenCheck(w: World, fs: FileSystem, files: seq<Compiled>, found: seq<Diagnostic>)
    requires WellFormed(files) && Succeeds(GenerateSpec(w, fs, files, found))
    ensures var p := GenerateSpec(w, fs, files, found);
            && CheckSpec(w, p.fs, files, found) && |p.changed| == |files|
            && forall i | 0 <= i < |files| :: p.changed[i] <==> !IsFresh(fs, files[i])
  {
    WrittenIsFresh(w, fs, files, |files|);
  }

  lemma {:induction false} FreshWritesNothing(w: World, fs: FileSystem, files: seq<Compiled>, n: nat)
    requires n <= |files| && AllFresh(fs, files) && forall i | 0 <= i < n :: !Canceled(w, i)
    ensures var p := Written(w, fs, files, n); Succeeds(p) && p.fs == fs && |p.changed| == n && WroteNothing(p)
  {
    if n > 0 {
      FreshWritesNothing(w, fs, files, n - 1);
      assert IsFresh(fs, files[n - 1]);
    }
  }

  lemma FreshIsUnblocked(fs: FileSystem, files: seq<Compiled>)
    requires WellFormed(files) && AllFresh(fs, files)
    ensures !Blocked(fs, files)
  {
    forall i | 0 <= i < |files| ensures Obstacle(fs, files[i]).None? {
      assert IsFresh(fs, files[i]);
      EqualIsOwned(fs[files[i].output].bytes, files[i].code);
    }
  }

  /** Check is clean exactly when Generate would succeed and write nothing. */
  lemma CheckIsDryGenerate(w: World, fs: FileSystem, files: seq<Compiled>, found: seq<Diagnostic>)
    requires WellFormed(files)
    ensures CheckSpec(w, fs, files, found) <==>
            var p := GenerateSpec(w, fs, files, found); Succeeds(p) && WroteNothing(p)
    ensures CheckSpec(w, fs, files, found) ==> GenerateSpec(w, fs, files, found).fs == fs
  {
    var p := GenerateSpec(w, fs, files, found);
    if CheckSpec(w, fs, files, found) {
      FreshIsUnblocked(fs, files);
      FreshWritesNothing(w, fs, files, |files|);
    }
    if Succeeds(p) && WroteNothing(p) {
      WrittenIsFresh(w, fs, files, |files|);
      forall i | 0 <= i < |files| ensures IsFresh(fs, files[i]) { assert !p.changed[i]; }
    }
  }

  /** So a second Generate writes nothing. */
  lemma SecondGenerateWritesNothing(w: World, fs: FileSystem, files: seq<Compiled>, found: seq<Diagnostic>)
    requires WellFormed(files) && Succeeds(GenerateSpec(w, fs, files, found))
    ensures var p := GenerateSpec(w, fs, files, found);
            var q := GenerateSpec(w, p.fs, files, found);
            Succeeds(q) && WroteNothing(q) && q.fs == p.fs
  {
    GenerateThenCheck(w, fs, files, found);
    CheckIsDryGenerate(w, GenerateSpec(w, fs, files, found).fs, files, found);
  }

  // ---- The operations on the disk

  datatype FileResult = FileResult(source: string, output: string, changed: bool, stale: bool, missing: bool)

  datatype Result = Result(
    files: seq<FileResult>, diagnostics: seq<Diagnostic>, changed: nat, same: nat, stale: nat, missing: nat)

  function Count(flags: seq<bool>): (n: nat)
    ensures n <= |flags|
  {
    if flags == [] then 0 else Count(flags[..|flags| - 1]) + if flags[|flags| - 1] then 1 else 0
  }

  lemma {:induction false} CountZero(flags: seq<bool>)
    ensures Count(flags) == 0 <==> forall i | 0 <= i < |flags| :: !flags[i]
  {
    if flags != [] { CountZero(flags[..|flags| - 1]); }
  }

  /** The results name the compiled files, in the same places. */
  predicate Aligned(results: seq<FileResult>, files: seq<Compiled>) {
    |results| == |files|
    && forall i | 0 <= i < |files| :: results[i].source == files[i].source && results[i].output == files[i].output
  }

  lemma ErrorAdded(ds: seq<Diagnostic>, d: Diagnostic)
    requires d.isError
    ensures HasErrors(ds + [d])
  {
    assert (ds + [d])[|ds|] == d;
  }

  lemma JoinedErrors(found: seq<Diagnostic>, problems: seq<Diagnostic>)
    requires !HasErrors(found) && forall i | 0 <= i < |problems| :: problems[i].isError
    ensures HasErrors(found + problems) <==> problems != []
  {
    if problems != [] { assert (found + problems)[|found|] == problems[0]; }
  }

  class Disk {
    var files: FileSystem

    constructor (files: FileSystem)
      ensures this.files == files
    {
      this.files := files;
    }

    /** atomicWrite: the whole new content, or the old file untouched. */
    method Replace(w: World, path: string, code: string) returns (ok: bool)
      modifies this
      ensures ok <==> path !in w.locked
      ensures files == if ok then old(files)[path := File(code)] else old(files)
    {
      ok := path !in w.locked;
      if ok {
        files := files[path := File(code)];
      }
    }

    /** Looks at every destination before the first write. */
    method Validate(compiled: seq<Compiled>) returns (problems: seq<Diagnostic>)
      ensures problems == [] <==> !Blocked(files, compiled)
      ensures forall i | 0 <= i < |problems| :: problems[i].isError
    {
      problems := [];
      for n := 0 to |compiled|
        invariant problems == [] <==> forall i | 0 <= i < n :: Obstacle(files, compiled[i]).None?
        invariant forall i | 0 <= i < |problems| :: problems[i].isError
      {
        var path := compiled[n].output;
        if path in files {
          match files[path] {
            case Uninspectable => problems := problems + [Diagnostic(path, 2101, true)];
            case Special => problems := problems + [Diagnostic(path, 2102, true)];
            case Unreadable => problems := problems + [Diagnostic(path, 2103, true)];
            case File(bytes) =>
              if !(OWNER_LINE <= bytes) {
                problems := problems + [Diagnostic(path, 2104, true)];
              }
          }
        }
      }
    }

    /** Generate. The result counts what was written; a failure before the write loop writes nothing. */
    method Generate(w: World, compiled: seq<Compiled>, found: seq<Diagnostic>, listed: seq<FileResult>)
      returns (result: Result)
      requires Aligned(listed, compiled)
      modifies this
      ensures var p := GenerateSpec(w, old(files), compiled, found);
              && files == p.fs && (HasErrors(result.diagnostics) <==> !Succeeds(p))
              && Aligned(result.files, compiled) && result.changed == Count(p.changed)
              && result.changed + result.same == |p.changed| <= |compiled|
              && forall i | 0 <= i < |p.changed| :: result.files[i] == listed[i].(changed := p.changed[i])
    {
      result := Result(listed, found, 0, 0, 0, 0);
      if HasErrors(found) {
        return;
      }
      var problems := Validate(compiled);
      result := result.(diagnostics := found + problems);
      JoinedErrors(found, problems);
      if HasErrors(result.diagnostics) {
        return;
      }
      result := WriteAll(w, compiled, result);
    }

    /** Where the write loop stands after `n` files, and what its result says so far. */
    ghost predicate Stands(w: World, p: Progress, start: Result, result: Result, n: nat)
      reads this
    {
      && files == p.fs && (HasErrors(result.diagnostics) <==> p.failure.Some?)
      && |result.files| == |start.files| && |p.changed| <= n <= |start.files| && (p.failure.None? ==> |p.changed| == n)
      && result.changed == Count(p.changed) && result.changed + result.same == |p.changed|
      && (forall i | 0 <= i < |p.changed| :: result.files[i] == start.files[i].(changed := p.changed[i]))
      && forall i | |p.changed| <= i < |start.files| :: result.files[i] == start.files[i]
    }

    method WriteAll(w: World, compiled: seq<Compiled>, start: Result) returns (result: Result)
      requires |start.files| == |compiled| && !HasErrors(start.diagnostics) && start.changed == 0 && start.same == 0
      modifies this
      ensures Stands(w, Written(w, old(files), compiled, |compiled|), start, result, |compiled|)
    {
      result := start;
      for n := 0 to |compiled|
        invariant Stands(w, Written(w, old(files), compiled, n), start, result, n)
        invariant Written(w, old(files), compiled, n).failure.None?
      {
        result := WriteOne(w, Written(w, old(files), compiled, n), compiled[n], n, start, result);
        if HasErrors(result.diagnostics) {
          StoppedStays(w, old(files), compiled, n + 1, |compiled|);
          return;
        }
      }
    }

    method WriteOne(w: World, ghost p: Progress, file: Compiled, n: nat, ghost start: Result, before: Result)
      returns (result: Result)
      requires Stands(w, p, start, before, n) && p.failure.None? && n < |start.files|
      modifies this
      ensures Stands(w, Write(w, p, file, n), start, result, n + 1)
    {
      ghost var after := Write(w, p, file, n);
      assert after.failure.None? ==> after.changed[..n] == p.changed;
      if w.cancelAt.Some? && w.cancelAt.value <= n {
        ErrorAdded(before.diagnostics, Diagnostic(file.source, 2001, true));
        return before.(diagnostics := before.diagnostics + [Diagnostic(file.source, 2001, true)]);
      }
      if file.output in files && files[file.output].File? && CodeEqual(files[file.output].bytes, file.code) {
        return before.(files := before.files[n := before.files[n].(changed := false)], same := before.same + 1);
      }
      var ok := Replace(w, file.output, file.code);
      if !ok {
        ErrorAdded(before.diagnostics, Diagnostic(file.output, 2110, true));
        return before.(diagnostics := before.diagnostics + [Diagnostic(file.output, 2110, true)]);
      }
      return before.(files := before.files[n := before.files[n].(changed := true)], changed := before.changed + 1);
    }

    /** Check: writes nothing, has no error exactly when every output is fresh, and says of each output it comes to
        whether it is missing or stale. */
    method Check(w: World, compiled: seq<Compiled>, found: seq<Diagnostic>, listed: seq<FileResult>)
      returns (result: Result)
      requires Aligned(listed, compiled)
      ensures HasErrors(result.diagnostics) <==> !CheckSpec(w, files, compiled, found)
      ensures HasErrors(found) ==> result == Result(listed, found, 0, 0, 0, 0)
      ensures !HasErrors(found) ==> Inspects(files, compiled, listed, Reach(w, |compiled|), result)
      ensures !HasErrors(found) ==>
                result.diagnostics == found + (Complaints(files, compiled, Reach(w, |compiled|)) + Cancellation(w, compiled))
      ensures Aligned(result.files, compiled)
      ensures !HasErrors(result.diagnostics) ==> result.same == |compiled|
    {
      result := Result(listed, found, 0, 0, 0, 0);
      if HasErrors(found) {
        return;
      }
      result := InspectAll(w, compiled, result);
      CheckDecides(w, files, compiled, found);
      InspectsInPlace(files, compiled, listed, Reach(w, |compiled|), result);
      if CheckSpec(w, files, compiled, found) { CleanIsSame(w, files, compiled, found); }
    }

    method InspectAll(w: World, compiled: seq<Compiled>, start: Result) returns (result: Result)
      requires |start.files| == |compiled| && start == Result(start.files, start.diagnostics, 0, 0, 0, 0)
      ensures Inspects(files, compiled, start.files, Reach(w, |compiled|), result)
      ensures result.diagnostics
           == start.diagnostics + (Complaints(files, compiled, Reach(w, |compiled|)) + Cancellation(w, compiled))
    {
      result := start;
      assert start.diagnostics + [] == start.diagnostics;
      var n: nat := 0;
      while n < |compiled| && !(w.cancelAt.Some? && w.cancelAt.value <= n)
        invariant n <= Reach(w, |compiled|) && Inspects(files, compiled, start.files, n, result)
        invariant result.diagnostics == start.diagnostics + Complaints(files, compiled, n)
        decreases |compiled| - n
      {
        InspectsOn(files, compiled, start.files, n, result, start.diagnostics);
        result := Inspect(compiled[n], n, result);
        n := n + 1;
      }
      Associate(start.diagnostics, Complaints(files, compiled, n), Cancellation(w, compiled));
      result := AtCancellation(w, compiled, n, result);
    }

    method AtCancellation(w: World, compiled: seq<Compiled>, n: nat, before: Result) returns (result: Result)
      requires n == Reach(w, |compiled|)
      ensures result == before.(diagnostics := before.diagnostics + Cancellation(w, compiled))
    {
      if n < |compiled| {
        return before.(diagnostics := before.diagnostics + [Diagnostic(compiled[n].source, 2001, true)]);
      }
      assert before.diagnostics + [] == before.diagnostics;
      return before;
    }

    method Inspect(file: Compiled, n: nat, before: Result) returns (result: Result)
      requires n < |before.files|
      ensures result == Inspected(files, file, n, before)
    {
      var path := file.output;
      var r := before.files[n];
      if path !in files {
        return before.(files := before.files[n := r.(missing := true)], missing := before.missing + 1,
                       diagnostics := before.diagnostics + [Diagnostic(path, 2201, true)]);
      }
      match files[path] {
        case Special =>
          return before.(diagnostics := before.diagnostics + [Diagnostic(path, 2205, true)]);
        case Unreadable | Uninspectable =>
          return before.(diagnostics := before.diagnostics + [Diagnostic(path, 2202, true)]);
        case File(bytes) =>
          if CodeEqual(bytes, file.code) {
            assert before.diagnostics + [] == before.diagnostics && before.files[n := r] == before.files;
            return before.(same := before.same + 1);
          }
          var code := if OWNER_LINE <= bytes then 2204 else 2203;
          return before.(files := before.files[n := r.(stale := true)], stale := before.stale + 1,
                         diagnostics := before.diagnostics + [Diagnostic(path, code, true)]);
      }
    }
  }

  // ---- What Check says of each output

  datatype Verdict = Same | Missing | Stale | Faulty

  function Judge(fs: FileSystem, c: Compiled): (v: Verdict)
    ensures v.Same? <==> IsFresh(fs, c)
  {
    if c.output !in fs then Missing
    else if !fs[c.output].File? then Faulty
    else if CodeEqual(fs[c.output].bytes, c.code) then Same
    else Stale
  }

  /** The diagnostic for an output that is not fresh. */
  function Complaint(fs: FileSystem, c: Compiled): seq<Diagnostic> {
    match Judge(fs, c)
    case Same => []
    case Missing => [Diagnostic(c.output, 2201, true)]
    case Stale => [Diagnostic(c.output, if Owned(fs[c.output].bytes) then 2204 else 2203, true)]
    case Faulty => [Diagnostic(c.output, if fs[c.output].Special? then 2205 else 2202, true)]
  }

  function Complaints(fs: FileSystem, files: seq<Compiled>, n: nat): seq<Diagnostic>
    requires n <= |files|
  {
    if n == 0 then [] else Complaints(fs, files, n - 1) + Complaint(fs, files[n - 1])
  }

  lemma {:induction false} ComplaintsAreErrors(fs: FileSystem, files: seq<Compiled>, n: nat)
    requires n <= |files|
    ensures HasErrors(Complaints(fs, files, n)) <==> exists i | 0 <= i < n :: !IsFresh(fs, files[i])
  {
    if n > 0 {
      var now := Complaint(fs, files[n - 1]);
      ComplaintsAreErrors(fs, files, n - 1);
      MoreDiagnostics(Complaints(fs, files, n - 1), now);
      if now != [] { assert now[0].isError; }
    }
  }

  /** How many of the first `n` outputs get this verdict. */
  function Tally(fs: FileSystem, files: seq<Compiled>, n: nat, v: Verdict): nat
    requires n <= |files|
  {
    if n == 0 then 0 else Tally(fs, files, n - 1, v) + if Judge(fs, files[n - 1]) == v then 1 else 0
  }

  function Flagged(r: FileResult, v: Verdict): FileResult {
    match v case Missing => r.(missing := true) case Stale => r.(stale := true) case _ => r
  }

  /** The result after one more output. */
  function Inspected(fs: FileSystem, c: Compiled, n: nat, before: Result): Result
    requires n < |before.files|
  {
    var v := Judge(fs, c);
    before.(
      files := before.files[n := Flagged(before.files[n], v)],
      diagnostics := before.diagnostics + Complaint(fs, c),
      same := before.same + if v.Same? then 1 else 0,
      stale := before.stale + if v.Stale? then 1 else 0,
      missing := before.missing + if v.Missing? then 1 else 0)
  }

  /** The flags and counts are those of the first `n` outputs. */
  predicate Inspects(fs: FileSystem, files: seq<Compiled>, listed: seq<FileResult>, n: nat, result: Result) {
    && n <= |files| == |listed| == |result.files|
    && (forall i {:trigger result.files[i]} | 0 <= i < |listed| ::
          result.files[i] == if i < n then Flagged(listed[i], Judge(fs, files[i])) else listed[i])
    && result.changed == 0 && result.same == Tally(fs, files, n, Same)
    && result.stale == Tally(fs, files, n, Stale) && result.missing == Tally(fs, files, n, Missing)
  }

  lemma InspectsOn(fs: FileSystem, files: seq<Compiled>, listed: seq<FileResult>, n: nat, before: Result, found: seq<Diagnostic>)
    requires n < |files| && Inspects(fs, files, listed, n, before)
    requires before.diagnostics == found + Complaints(fs, files, n)
    ensures var result := Inspected(fs, files[n], n, before);
            Inspects(fs, files, listed, n + 1, result) && result.diagnostics == found + Complaints(fs, files, n + 1)
  {
    Associate(found, Complaints(fs, files, n), Complaint(fs, files[n]));
  }

  lemma InspectsInPlace(fs: FileSystem, files: seq<Compiled>, listed: seq<FileResult>, n: nat, result: Result)
    requires Aligned(listed, files) && Inspects(fs, files, listed, n, result)
    ensures Aligned(result.files, files)
  {
  }

  lemma CleanIsSame(w: World, fs: FileSystem, files: seq<Compiled>, found: seq<Diagnostic>)
    requires CheckSpec(w, fs, files, found)
    ensures Reach(w, |files|) == |files| && Tally(fs, files, |files|, Same) == |files|
  {
    var m := Reach(w, |files|);
    assert m < |files| ==> Canceled(w, m);
    AllSame(fs, files, |files|);
  }

  lemma {:induction false} AllSame(fs: FileSystem, files: seq<Compiled>, n: nat)
    requires n <= |files| && AllFresh(fs, files)
    ensures Tally(fs, files, n, Same) == n
  {
    if n > 0 { AllSame(fs, files, n - 1); }
  }

  /** How many outputs are come to before the operation is canceled. */
  function Reach(w: World, size: nat): (m: nat)
    ensures m <= size
  {
    if w.cancelAt.Some? && w.cancelAt.value < size then w.cancelAt.value else size
  }

  function Cancellation(w: World, files: seq<Compiled>): seq<Diagnostic> {
    var m := Reach(w, |files|);
    if m < |files| then [Diagnostic(files[m].source, 2001, true)] else []
  }

  /** Check has errors exactly when it is not clean. */
  lemma CheckDecides(w: World, fs: FileSystem, files: seq<Compiled>, found: seq<Diagnostic>)
    requires !HasErrors(found)
    ensures HasErrors(found + (Complaints(fs, files, Reach(w, |files|)) + Cancellation(w, files)))
            <==> !CheckSpec(w, fs, files, found)
  {
    var m := Reach(w, |files|);
    ComplaintsAreErrors(fs, files, m);
    MoreDiagnostics(Complaints(fs, files, m), Cancellation(w, files));
    MoreDiagnostics(found, Complaints(fs, files, m) + Cancellation(w, files));
    if m < |files| {
      assert Canceled(w, m) && Cancellation(w, files)[0].isError;
    }
  }

  lemma {:induction false} StoppedStays(w: World, fs: FileSystem, files: seq<Compiled>, m: nat, n: nat)
    requires m <= n <= |files| && Written(w, fs, files, m).failure.Some?
    ensures Written(w, fs, files, n) == Written(w, fs, files, m)
  {
    if m < n { StoppedStays(w, fs, files, m, n - 1); }
  }

  // ---- Compiling all sources

  /** What one discovered source compiles to: code or nothing, and diagnostics either way. */
  datatype Compilation = Compilation(source: string, file: Option<Compiled>, diagnostics: seq<Diagnostic>)

  /** The files and the diagnostics of the first `n` sources. */
  function FilesOf(sources: seq<Compilation>, n: nat): seq<Compiled>
    requires n <= |sources|
  {
    if n == 0 then []
    else
      FilesOf(sources, n - 1)
      + match sources[n - 1].file case None => [] case Some(file) => [file]
  }

  function DiagnosticsOf(sources: seq<Compilation>, n: nat): (ds: seq<Diagnostic>)
    requires n <= |sources|
    ensures HasErrors(ds) <==> exists i | 0 <= i < n :: HasErrors(sources[i].diagnostics)
  {
    if n == 0 then []
    else
      MoreDiagnostics(DiagnosticsOf(sources, n - 1), sources[n - 1].diagnostics);
      DiagnosticsOf(sources, n - 1) + sources[n - 1].diagnostics
  }

  /** What is found when looking for sources, in the first `n`, and on cancellation behind them. */
  function Found(discovery: seq<Diagnostic>, sources: seq<Compilation>, n: nat): seq<Diagnostic>
    requires n <= |sources|
  {
    discovery + DiagnosticsOf(sources, n) + if n < |sources| then [Diagnostic(sources[n].source, 2001, true)] else []
  }

  function Listed(c: Compiled): FileResult { FileResult(c.source, c.output, false, false, false) }

  predicate Matched(pair: Keyed<(Compiled, FileResult)>) { pair.item.1 == Listed(pair.item.0) && pair.key == pair.item.0.source }

  /** Sorted apart by source path, the compiled files and their results still stand side by side. */
  lemma SortedApart(files: seq<Keyed<Compiled>>, results: seq<Keyed<FileResult>>)
    requires SameKeys(files, results) && forall i | 0 <= i < |files| :: Matched(Pair(files[i], results[i]))
    ensures SameKeys(StableSort(files), StableSort(results))
    ensures forall i | 0 <= i < |StableSort(files)| :: Matched(Pair(StableSort(files)[i], StableSort(results)[i]))
  {
    SortKeepsPairs(files, results);
    var pairs := Zip(files, results);
    SortKeepsMembers(pairs);
    forall i | 0 <= i < |StableSort(files)| ensures Matched(Pair(StableSort(files)[i], StableSort(results)[i])) {
      var pair := StableSort(pairs)[i];
      assert pair == Pair(StableSort(files)[i], StableSort(results)[i]);
      assert pair in multiset(StableSort(pairs));
      assert pair in pairs;
    }
  }

  /** The files of the first `n` sources beside their results, under the same keys. */
  ghost predicate AreMatched(files: seq<Keyed<Compiled>>, results: seq<Keyed<FileResult>>, sources: seq<Compilation>, n: nat) {
    && n <= |sources| && SameKeys(files, results) && Items(files) == FilesOf(sources, n)
    && forall i {:trigger files[i]} | 0 <= i < |files| :: Matched(Pair(files[i], results[i]))
  }

  lemma OneMoreMatched(files: seq<Keyed<Compiled>>, results: seq<Keyed<FileResult>>, sources: seq<Compilation>, n: nat)
    requires n < |sources| && AreMatched(files, results, sources, n)
    ensures match sources[n].file
            case None => AreMatched(files, results, sources, n + 1)
            case Some(file) =>
              AreMatched(files + [Keyed(file.source, file)], results + [Keyed(file.source, Listed(file))], sources, n + 1)
  {
    match sources[n].file
    case None => assert FilesOf(sources, n) + [] == FilesOf(sources, n);
    case Some(file) => ItemsOne(files, Keyed(file.source, file));
  }

  /** The sorted lists stand side by side. */
  lemma SortedOut(files: seq<Keyed<Compiled>>, results: seq<Keyed<FileResult>>, sources: seq<Compilation>, n: nat)
    requires AreMatched(files, results, sources, n)
    ensures var compiled, listed := Items(StableSort(files)), Items(StableSort(results));
            && |listed| == |compiled| && (forall i | 0 <= i < |compiled| :: listed[i] == Listed(compiled[i]))
            && (forall i | 0 < i < |compiled| :: !Less(compiled[i].source, compiled[i - 1].source))
  {
    SortedApart(files, results);
    SortSorts(files);
    var compiled, listed := Items(StableSort(files)), Items(StableSort(results));
    forall i | 0 <= i < |compiled| ensures listed[i] == Listed(compiled[i]) && compiled[i].source == StableSort(files)[i].key {
      assert Matched(Pair(StableSort(files)[i], StableSort(results)[i]));
    }
  }

  method SortOut(files: seq<Keyed<Compiled>>, results: seq<Keyed<FileResult>>, ghost sources: seq<Compilation>, ghost n: nat)
    returns (compiled: seq<Compiled>, listed: seq<FileResult>)
    requires AreMatched(files, results, sources, n)
    ensures multiset(compiled) == multiset(FilesOf(sources, n))
    ensures forall i | 0 < i < |compiled| :: !Less(compiled[i].source, compiled[i - 1].source)
    ensures |listed| == |compiled| && forall i | 0 <= i < |compiled| :: listed[i] == Listed(compiled[i])
  {
    SortedOut(files, results, sources, n);
    SortKeepsItems(files);
    compiled, listed := Items(StableSort(files)), Items(StableSort(results));
  }

  /** Compiles source after source, up to the last or to cancellation. */
  method CompileAll(w: World, discovery: seq<Diagnostic>, sources: seq<Compilation>)
    returns (files: seq<Keyed<Compiled>>, results: seq<Keyed<FileResult>>, found: seq<Diagnostic>, reached: nat)
    ensures reached == Reach(w, |sources|) && AreMatched(files, results, sources, reached)
    ensures found == Found(discovery, sources, reached)
  {
    files, results, found, reached := [], [], discovery, 0;
    while reached < |sources|
      invariant reached <= Reach(w, |sources|)
      invariant AreMatched(files, results, sources, reached) && found == discovery + DiagnosticsOf(sources, reached)
    {
      if w.cancelAt.Some? && w.cancelAt.value <= reached {
        found := found + [Diagnostic(sources[reached].source, 2001, true)];
        return;
      }
      Associate(discovery, DiagnosticsOf(sources, reached), sources[reached].diagnostics);
      OneMoreMatched(files, results, sources, reached);
      found := found + sources[reached].diagnostics;
      if sources[reached].file.Some? {
        var file := sources[reached].file.value;
        files, results := files + [Keyed(file.source, file)], results + [Keyed(file.source, Listed(file))];
      }
      reached := reached + 1;
    }
    assert found + [] == found;
  }

  /** compileOperation, given what each source compiles to and what discovery and cycle detection find: all the files of
      the sources reached, in the order of their paths with their results beside them, and every diagnostic. */
  method CompileOperation(w: World, discovery: seq<Diagnostic>, sources: seq<Compilation>, cycles: seq<Diagnostic>)
    returns (compiled: seq<Compiled>, listed: seq<FileResult>, found: seq<Diagnostic>, reached: nat)
    ensures reached == Reach(w, |sources|)
    ensures multiset(compiled) == multiset(FilesOf(sources, reached))
    ensures forall i | 0 < i < |compiled| :: !Less(compiled[i].source, compiled[i - 1].source)
    ensures Aligned(listed, compiled) && forall i | 0 <= i < |compiled| :: listed[i] == Listed(compiled[i])
    ensures found == Found(discovery, sources, reached) + cycles
  {
    var files, results;
    files, results, found, reached := CompileAll(w, discovery, sources);
    found := found + cycles;
    compiled, listed := SortOut(files, results, sources, reached);
  }

  /** There are errors exactly when something that is found is one. */
  lemma FoundErrors(discovery: seq<Diagnostic>, sources: seq<Compilation>, n: nat, cycles: seq<Diagnostic>)
    requires n <= |sources|
    ensures HasErrors(Found(discovery, sources, n) + cycles)
            <==> HasErrors(discovery) || HasErrors(cycles) || n < |sources|
                 || exists i | 0 <= i < n :: HasErrors(sources[i].diagnostics)
  {
    var canceled := if n < |sources| then [Diagnostic(sources[n].source, 2001, true)] else [];
    MoreDiagnostics(discovery, DiagnosticsOf(sources, n));
    MoreDiagnostics(discovery + DiagnosticsOf(sources, n), canceled);
    MoreDiagnostics(Found(discovery, sources, n), cycles);
    if n < |sources| { assert canceled[0].isError; }
  }

  lemma MoreDiagnostics(a: seq<Diagnostic>, b: seq<Diagnostic>)
    ensures HasErrors(a + b) <==> HasErrors(a) || HasErrors(b)
  {
    if HasErrors(a) {
      var i :| 0 <= i < |a| && a[i].isError;
      assert (a + b)[i].isError;
    } else if HasErrors(b) {
      var i :| 0 <= i < |b| && b[i].isError;
      assert (a + b)[|a| + i].isError;
    }
  }
}
