/** The depth-first search for component cycles as a function of the graph and the order of its keys, and exactly what it
    finds. */
module CycleSearch {
  import opened CallGraph

  /** The components of a path from `k` on. */
  function From(path: seq<Key>, k: Key): (tail: seq<Key>)
    requires k in path
    ensures tail != [] && tail[0] == k
  {
    path[IndexIn(path, k)..]
  }

  function SetOf(path: seq<Key>): (r: set<Key>)
    ensures forall k :: k in r <==> k in path
  {
    set k | k in path
  }

  /** What a search has found: the finished components in their order, the reported ones, and the path on which each
      component was come to. */
  datatype Found = Found(order: seq<Key>, reported: set<Key>, paths: map<Key, seq<Key>>)

  function Entered(f: Found, stack: seq<Key>, key: Key): Found { f.(paths := f.paths[key := stack + [key]]) }

  /** Follows a call from the component on top of the stack. */
  function FollowCall(g: Graph, f: Found, stack: seq<Key>, target: Key): (r: Found)
    requires Resolved(g) && target in g
    ensures Left(g, r.order, stack) <= Left(g, f.order, stack)
    decreases Left(g, f.order, stack), 1
  {
    if target in stack then f.(reported := f.reported + SetOf(From(stack, target)))
    else if target in f.order then f
    else VisitFrom(g, f, stack, target)
  }

  /** Visits a component below the stack, and what it calls. */
  function VisitFrom(g: Graph, f: Found, stack: seq<Key>, key: Key): (r: Found)
    requires Resolved(g) && key in g && key !in stack && key !in f.order
    ensures Left(g, r.order, stack) <= Left(g, f.order, stack) && key in r.order
    decreases Left(g, f.order, stack), 0
  {
    assert key in Left(g, f.order, stack) && key !in Left(g, f.order, stack + [key]);
    assert Left(g, f.order, stack + [key]) <= Left(g, f.order, stack);
    var done := FollowCalls(g, Entered(f, stack, key), stack + [key], key, 0);
    assert forall k | k in Left(g, done.order + [key], stack) :: k in Left(g, done.order, stack + [key]);
    done.(order := done.order + [key])
  }

  /** The calls of the component on top of the stack from the `e`th on. */
  function FollowCalls(g: Graph, f: Found, stack: seq<Key>, key: Key, e: nat): (r: Found)
    requires Resolved(g) && key in g && e <= |g[key]|
    ensures Left(g, r.order, stack) <= Left(g, f.order, stack)
    decreases Left(g, f.order, stack), 2 + |g[key]| - e
  {
    if e == |g[key]| then f
    else
      assert Calls(g, key, g[key][e].target);
      var next := FollowCall(g, f, stack, g[key][e].target);
      FollowCalls(g, next, stack, key, e + 1)
  }

  /** Searches from the keys from the `i`th on, in their order. */
  function SearchFrom(g: Graph, f: Found, keys: seq<Key>, i: nat): (r: Found)
    requires Resolved(g) && i <= |keys| && forall k | k in keys :: k in g
    ensures Left(g, r.order, []) <= Left(g, f.order, [])
    decreases |keys| - i
  {
    if i == |keys| then f
    else SearchFrom(g, if keys[i] in f.order then f else VisitFrom(g, f, [], keys[i]), keys, i + 1)
  }

  const NOTHING := Found([], {}, map[])

  /** The components not reached yet. */
  ghost function Left(g: Graph, order: seq<Key>, stack: seq<Key>): set<Key> {
    set k | k in g && k !in order && k !in stack
  }

  lemma VisitUnfolds(g: Graph, f: Found, stack: seq<Key>, key: Key)
    requires Resolved(g) && key in g && key !in stack && key !in f.order
    ensures var done := FollowCalls(g, Entered(f, stack, key), stack + [key], key, 0);
            VisitFrom(g, f, stack, key) == done.(order := done.order + [key])
    ensures Left(g, f.order, stack + [key]) < Left(g, f.order, stack)
  {
    assert key in Left(g, f.order, stack) && key !in Left(g, f.order, stack + [key]);
  }

  lemma {:induction false} CallGrows(g: Graph, f: Found, stack: seq<Key>, target: Key)
    requires Resolved(g) && target in g
    ensures f.order <= FollowCall(g, f, stack, target).order && f.reported <= FollowCall(g, f, stack, target).reported
    decreases Left(g, f.order, stack), 1
  {
    if target !in stack && target !in f.order {
      VisitUnfolds(g, f, stack, target);
      CallsGrow(g, Entered(f, stack, target), stack + [target], target, 0);
    }
  }

  lemma {:induction false} CallsGrow(g: Graph, f: Found, stack: seq<Key>, key: Key, e: nat)
    requires Resolved(g) && key in g && e <= |g[key]|
    ensures f.order <= FollowCalls(g, f, stack, key, e).order && f.reported <= FollowCalls(g, f, stack, key, e).reported
    decreases Left(g, f.order, stack), 2 + |g[key]| - e
  {
    if e < |g[key]| {
      assert Calls(g, key, g[key][e].target);
      CallGrows(g, f, stack, g[key][e].target);
      CallsGrow(g, FollowCall(g, f, stack, g[key][e].target), stack, key, e + 1);
    }
  }

  lemma CallsUnfold(g: Graph, f: Found, stack: seq<Key>, key: Key, e: nat)
    requires Resolved(g) && key in g && e < |g[key]|
    ensures g[key][e].target in g
    ensures Calls(g, key, g[key][e].target)
    ensures var next := FollowCall(g, f, stack, g[key][e].target);
            f.order <= next.order && f.reported <= next.reported && Left(g, next.order, stack) <= Left(g, f.order, stack)
            && FollowCalls(g, f, stack, key, e) == FollowCalls(g, next, stack, key, e + 1)
  {
    assert Calls(g, key, g[key][e].target);
    CallGrows(g, f, stack, g[key][e].target);
  }

  lemma CallsEnd(g: Graph, f: Found, stack: seq<Key>, key: Key)
    requires Resolved(g) && key in g
    ensures FollowCalls(g, f, stack, key, |g[key]|) == f
  {
  }

  lemma SearchUnfolds(g: Graph, f: Found, keys: seq<Key>, i: nat)
    requires Resolved(g) && i < |keys| && forall k | k in keys :: k in g
    ensures SearchFrom(g, f, keys, i)
         == SearchFrom(g, if keys[i] in f.order then f else VisitFrom(g, f, [], keys[i]), keys, i + 1)
  {
  }

  /** A whole search finishes every component it starts from. */
  lemma {:induction false} SearchFinishes(g: Graph, f: Found, keys: seq<Key>, i: nat)
    requires Resolved(g) && i <= |keys| && forall k | k in keys :: k in g
    ensures forall j | i <= j < |keys| :: keys[j] in SearchFrom(g, f, keys, i).order
    decreases |keys| - i
  {
    if i < |keys| {
      var next := if keys[i] in f.order then f else VisitFrom(g, f, [], keys[i]);
      SearchUnfolds(g, f, keys, i);
      SearchFinishes(g, next, keys, i + 1);
      assert keys[i] !in Left(g, next.order, []);
      assert keys[i] !in Left(g, SearchFrom(g, f, keys, i).order, []);
    }
  }

  lemma TopIsFrom(stack: seq<Key>, target: Key)
    requires target in stack
    ensures stack[|stack| - 1] in From(stack, target) && target in From(stack, target)
  {
    var tail := From(stack, target);
    assert tail[|tail| - 1] == stack[|stack| - 1];
  }

  /** A call has been followed, and reported if it leads back to the stack. */
  predicate IsHandled(key: Key, target: Key, stack: seq<Key>, order: seq<Key>, reported: set<Key>) {
    IsFollowed(key, target, order, reported) && (target in stack ==> SetOf(From(stack, target)) <= reported)
  }

  /** The first `n` calls have been handled. */
  ghost predicate AreHandled(key: Key, calls: seq<Edge>, n: nat, stack: seq<Key>, order: seq<Key>, reported: set<Key>) {
    n <= |calls| && forall i {:trigger calls[i]} | 0 <= i < n :: IsHandled(key, calls[i].target, stack, order, reported)
  }

  lemma HandledGrows(key: Key, calls: seq<Edge>, n: nat, stack: seq<Key>, order: seq<Key>, reported: set<Key>, f: Found)
    requires AreHandled(key, calls, n, stack, order, reported) && order <= f.order && reported <= f.reported
    ensures AreHandled(key, calls, n, stack, f.order, f.reported)
  {
  }

  lemma HandledIsAnswered(g: Graph, stack: seq<Key>, key: Key, order: seq<Key>, reported: set<Key>)
    requires key in g && AreHandled(key, g[key], |g[key]|, stack, order, reported)
    ensures IsAnswered(g, stack, key, reported)
    ensures forall i | 0 <= i < |g[key]| :: IsFollowed(key, g[key][i].target, order, reported)
  {
  }

  /** A call has been followed to its end: what it calls is finished, or both are reported. */
  predicate IsFollowed(key: Key, target: Key, order: seq<Key>, reported: set<Key>) {
    target in order || (key in reported && target in reported)
  }

  // ---- What accounts for the reported components

  /** A call from `u` back to `v` on its own path closes a cycle with `k` on it. */
  predicate Explains(g: Graph, paths: map<Key, seq<Key>>, u: Key, v: Key, k: Key) {
    u in paths && Calls(g, u, v) && v in paths[u] && k in From(paths[u], v)
  }

  ghost predicate IsExplained(g: Graph, paths: map<Key, seq<Key>>, k: Key) {
    exists u, v :: Explains(g, paths, u, v, k)
  }

  /** Every call of `u` back to its own path has been reported. */
  ghost predicate IsAnswered(g: Graph, path: seq<Key>, u: Key, reported: set<Key>) {
    forall v | Calls(g, u, v) && v in path :: SetOf(From(path, v)) <= reported
  }

  /** `paths` are the paths of the search so far, and account for what is reported. */
  ghost predicate AreTraced(g: Graph, paths: map<Key, seq<Key>>, stack: seq<Key>, order: seq<Key>, reported: set<Key>) {
    && (forall u {:trigger u in paths} :: u in paths <==> u in stack || u in order)
    && (forall m {:trigger HasPath(paths, stack, m)} | 0 <= m < |stack| :: HasPath(paths, stack, m))
    && (forall k {:trigger IsExplained(g, paths, k)} | k in reported :: IsExplained(g, paths, k))
    && (forall u {:trigger AnswersAll(g, paths, u, reported)} | u in order :: AnswersAll(g, paths, u, reported))
  }

  /** A visiting component's path is the stack up to it. */
  ghost predicate HasPath(paths: map<Key, seq<Key>>, stack: seq<Key>, m: int) {
    0 <= m < |stack| && stack[m] in paths && paths[stack[m]] == stack[..m + 1]
  }

  ghost predicate AnswersAll(g: Graph, paths: map<Key, seq<Key>>, u: Key, reported: set<Key>) {
    u in paths && IsAnswered(g, paths[u], u, reported)
  }

  lemma EntryIsTraced(g: Graph, paths: map<Key, seq<Key>>, stack: seq<Key>, order: seq<Key>, reported: set<Key>, key: Key)
    requires AreTraced(g, paths, stack, order, reported) && key !in stack && key !in order
    ensures AreTraced(g, paths[key := stack + [key]], stack + [key], order, reported)
  {
    var longer, next := stack + [key], paths[key := stack + [key]];
    assert forall u :: u in longer <==> u in stack || u == key;
    forall m | 0 <= m < |longer| ensures HasPath(next, longer, m) {
      if m < |stack| {
        assert HasPath(paths, stack, m) && longer[..m + 1] == stack[..m + 1];
      } else {
        assert longer[..m + 1] == longer;
      }
    }
    forall k | k in reported ensures IsExplained(g, next, k) {
      assert IsExplained(g, paths, k);
      var u, v :| Explains(g, paths, u, v, k);
      assert Explains(g, next, u, v, k);
    }
    forall u | u in order ensures AnswersAll(g, next, u, reported) {
      assert AnswersAll(g, paths, u, reported);
    }
  }

  lemma ExitIsTraced(g: Graph, paths: map<Key, seq<Key>>, stack: seq<Key>, order: seq<Key>, reported: set<Key>, key: Key)
    requires AreTraced(g, paths, stack + [key], order, reported) && IsAnswered(g, stack + [key], key, reported)
    ensures AreTraced(g, paths, stack, order + [key], reported)
  {
    var longer, after := stack + [key], order + [key];
    assert longer[..|stack| + 1] == longer && longer[|stack|] == key;
    assert HasPath(paths, longer, |stack|);
    assert forall u :: u in longer <==> u in stack || u == key;
    forall m | 0 <= m < |stack| ensures HasPath(paths, stack, m) {
      assert HasPath(paths, longer, m) && longer[m] == stack[m] && longer[..m + 1] == stack[..m + 1];
    }
    forall u | u in after ensures AnswersAll(g, paths, u, reported) {
      assert u == key || AnswersAll(g, paths, u, reported);
    }
  }

  lemma ReportIsTraced(g: Graph, paths: map<Key, seq<Key>>, stack: seq<Key>, order: seq<Key>, reported: set<Key>, target: Key)
    requires AreTraced(g, paths, stack, order, reported) && target in stack && Calls(g, stack[|stack| - 1], target)
    ensures AreTraced(g, paths, stack, order, reported + SetOf(From(stack, target)))
  {
    var u, more := stack[|stack| - 1], reported + SetOf(From(stack, target));
    assert HasPath(paths, stack, |stack| - 1) && stack[..|stack|] == stack;
    forall k | k in more ensures IsExplained(g, paths, k) {
      if k in reported { assert IsExplained(g, paths, k); } else { assert Explains(g, paths, u, target, k); }
    }
    forall w | w in order ensures AnswersAll(g, paths, w, more) {
      assert AnswersAll(g, paths, w, reported);
    }
  }

  // ---- What every step of the search keeps

  ghost predicate IsSearching(g: Graph, f: Found, stack: seq<Key>) {
    && Distinct(stack) && IsWalk(g, stack) && Distinct(f.order)
    && (forall k | k in stack :: k in g && k !in f.order) && (forall k | k in f.order :: k in g)
    && CallsEarlier(g, f.order, f.reported) && AreTraced(g, f.paths, stack, f.order, f.reported)
  }

  lemma LongerWalk(g: Graph, stack: seq<Key>, key: Key)
    requires IsWalk(g, stack) && (stack != [] ==> Calls(g, stack[|stack| - 1], key))
    ensures IsWalk(g, stack + [key])
  {
    var longer := stack + [key];
    forall i | 0 <= i < |longer| - 1 ensures CallsNext(g, longer, i) {
      if i < |stack| - 1 { assert CallsNext(g, stack, i); }
    }
  }

  lemma ShorterPath(g: Graph, stack: seq<Key>, key: Key)
    requires IsWalk(g, stack + [key]) && Distinct(stack + [key])
    ensures IsWalk(g, stack) && Distinct(stack) && key !in stack
  {
    var longer := stack + [key];
    forall i | 0 <= i < |stack| - 1 ensures CallsNext(g, stack, i) { assert CallsNext(g, longer, i); }
    forall i, j | 0 <= i < j < |stack| ensures Differ(stack, i, j) { assert Differ(longer, i, j); }
    forall i | 0 <= i < |stack| ensures stack[i] != key { assert Differ(longer, i, |stack|); }
  }

  lemma EntryKeeps(g: Graph, f: Found, stack: seq<Key>, key: Key)
    requires IsSearching(g, f, stack) && key in g && key !in stack && key !in f.order
    requires stack != [] ==> Calls(g, stack[|stack| - 1], key)
    ensures IsSearching(g, Entered(f, stack, key), stack + [key])
  {
    LongerWalk(g, stack, key);
    OneMoreDiffers(stack, key);
    EntryIsTraced(g, f.paths, stack, f.order, f.reported, key);
  }

  lemma FinishedLater(g: Graph, order: seq<Key>, key: Key, reported: set<Key>)
    requires CallsEarlier(g, order, reported) && key in g
    requires forall i | 0 <= i < |g[key]| :: IsFollowed(key, g[key][i].target, order, reported)
    ensures CallsEarlier(g, order + [key], reported)
  {
    var longer := order + [key];
    forall i, b | 0 <= i < |longer| && Calls(g, longer[i], b)
      ensures b in longer[..i] || (longer[i] in reported && b in reported)
    {
      assert longer[..i] == order[..i];
      if i == |order| { assert order[..i] == order; }
    }
  }

  lemma ExitKeeps(g: Graph, f: Found, stack: seq<Key>, key: Key)
    requires IsSearching(g, f, stack + [key])
    requires key in g && AreHandled(key, g[key], |g[key]|, stack + [key], f.order, f.reported)
    ensures IsSearching(g, f.(order := f.order + [key]), stack)
  {
    assert (stack + [key])[|stack|] == key;
    HandledIsAnswered(g, stack + [key], key, f.order, f.reported);
    ShorterPath(g, stack, key);
    FinishedLater(g, f.order, key, f.reported);
    OneMoreDiffers(f.order, key);
    ExitIsTraced(g, f.paths, stack, f.order, f.reported, key);
  }

  lemma ReportKeeps(g: Graph, f: Found, stack: seq<Key>, target: Key)
    requires IsSearching(g, f, stack) && target in stack && Calls(g, stack[|stack| - 1], target)
    ensures var r := f.(reported := f.reported + SetOf(From(stack, target)));
            IsSearching(g, r, stack) && IsHandled(stack[|stack| - 1], target, stack, r.order, r.reported)
  {
    ReportIsTraced(g, f.paths, stack, f.order, f.reported, target);
    TopIsFrom(stack, target);
  }

  lemma {:induction false} CallKeeps(g: Graph, f: Found, stack: seq<Key>, target: Key)
    requires Resolved(g) && IsSearching(g, f, stack) && stack != [] && Calls(g, stack[|stack| - 1], target)
    ensures var r := FollowCall(g, f, stack, target);
            IsSearching(g, r, stack) && IsHandled(stack[|stack| - 1], target, stack, r.order, r.reported)
    decreases Left(g, f.order, stack), 1
  {
    if target in stack {
      ReportKeeps(g, f, stack, target);
    } else if target !in f.order {
      VisitKeeps(g, f, stack, target);
    }
  }

  lemma {:induction false} VisitKeeps(g: Graph, f: Found, stack: seq<Key>, key: Key)
    requires Resolved(g) && IsSearching(g, f, stack) && key in g && key !in stack && key !in f.order
    requires stack != [] ==> Calls(g, stack[|stack| - 1], key)
    ensures IsSearching(g, VisitFrom(g, f, stack, key), stack) && key in VisitFrom(g, f, stack, key).order
    decreases Left(g, f.order, stack), 0
  {
    var entered := Entered(f, stack, key);
    VisitUnfolds(g, f, stack, key);
    EntryKeeps(g, f, stack, key);
    CallsKeep(g, entered, stack + [key], key, 0);
    ExitKeeps(g, FollowCalls(g, entered, stack + [key], key, 0), stack, key);
  }

  lemma {:induction false} CallsKeep(g: Graph, f: Found, stack: seq<Key>, key: Key, e: nat)
    requires Resolved(g) && IsSearching(g, f, stack) && stack != [] && stack[|stack| - 1] == key
    requires key in g && AreHandled(key, g[key], e, stack, f.order, f.reported)
    ensures var r := FollowCalls(g, f, stack, key, e);
            IsSearching(g, r, stack) && AreHandled(key, g[key], |g[key]|, stack, r.order, r.reported)
    decreases Left(g, f.order, stack), 2 + |g[key]| - e
  {
    if e == |g[key]| {
      CallsEnd(g, f, stack, key);
    } else {
      CallsUnfold(g, f, stack, key, e);
      var next := FollowCall(g, f, stack, g[key][e].target);
      CallKeeps(g, f, stack, g[key][e].target);
      HandledGrows(key, g[key], e, stack, f.order, f.reported, next);
      CallsKeep(g, next, stack, key, e + 1);
    }
  }

  lemma {:induction false} SearchKeeps(g: Graph, f: Found, keys: seq<Key>, i: nat)
    requires Resolved(g) && IsSearching(g, f, []) && i <= |keys| && forall k | k in keys :: k in g
    ensures IsSearching(g, SearchFrom(g, f, keys, i), [])
    decreases |keys| - i
  {
    if i < |keys| {
      SearchUnfolds(g, f, keys, i);
      if keys[i] !in f.order { VisitKeeps(g, f, [], keys[i]); }
      SearchKeeps(g, if keys[i] in f.order then f else VisitFrom(g, f, [], keys[i]), keys, i + 1);
    }
  }

  // ---- First paths

  function Targets(edges: seq<Edge>): (ts: seq<Key>)
    ensures |ts| == |edges| && forall i | 0 <= i < |ts| :: ts[i] == edges[i].target
  {
    if edges == [] then [] else Targets(edges[..|edges| - 1]) + [edges[|edges| - 1].target]
  }

  /** Where a path may go after its first `m` components, in the order in which the search tries them. */
  function Choices(g: Graph, keys: seq<Key>, p: seq<Key>, m: nat): seq<Key>
    requires m <= |p|
  {
    if m == 0 then keys else if p[m - 1] in g then Targets(g[p[m - 1]]) else []
  }

  /** `a` comes up in `s` before any `b` does. */
  predicate Precedes(s: seq<Key>, a: Key, b: Key) {
    exists i | 0 <= i < |s| :: s[i] == a && forall j | 0 <= j <= i :: s[j] != b
  }

  predicate AgreeUpTo(p: seq<Key>, q: seq<Key>, m: nat) {
    m <= |p| && m <= |q| && forall i | 0 <= i < m :: p[i] == q[i]
  }

  /** The paths part after `m` components, where `p` takes the earlier choice. */
  predicate TurnsEarlier(g: Graph, keys: seq<Key>, p: seq<Key>, q: seq<Key>, m: nat) {
    m < |p| && m < |q| && AgreeUpTo(p, q, m) && Precedes(Choices(g, keys, p, m), p[m], q[m])
  }

  ghost predicate IsEarlier(g: Graph, keys: seq<Key>, p: seq<Key>, q: seq<Key>) {
    exists m: nat :: TurnsEarlier(g, keys, p, q, m)
  }

  /** A walk to `u` from one of the keys, without repetition. */
  predicate IsRoute(g: Graph, keys: seq<Key>, p: seq<Key>, u: Key) {
    p != [] && p[0] in keys && p[|p| - 1] == u && IsWalk(g, p) && Distinct(p)
  }

  /** The first of all routes to `u`. */
  ghost predicate IsFirst(g: Graph, keys: seq<Key>, p: seq<Key>, u: Key) {
    IsRoute(g, keys, p, u) && forall q | IsRoute(g, keys, q, u) && q != p :: IsEarlier(g, keys, p, q)
  }

  lemma PrecedesOnce(s: seq<Key>, a: Key, b: Key)
    requires Precedes(s, a, b)
    ensures a != b && !Precedes(s, b, a)
  {
  }

  lemma PartOnce(p: seq<Key>, q: seq<Key>, m: nat, n: nat)
    requires m < |p| && m < |q| && AgreeUpTo(p, q, m) && p[m] != q[m]
    requires n < |p| && n < |q| && AgreeUpTo(p, q, n) && p[n] != q[n]
    ensures m == n
  {
  }

  lemma SameChoices(g: Graph, keys: seq<Key>, p: seq<Key>, q: seq<Key>, m: nat)
    requires AgreeUpTo(p, q, m)
    ensures Choices(g, keys, p, m) == Choices(g, keys, q, m) && p[..m] == q[..m]
  {
  }

  lemma TurnsOnce(g: Graph, keys: seq<Key>, p: seq<Key>, q: seq<Key>, m: nat, n: nat)
    requires TurnsEarlier(g, keys, p, q, m)
    ensures !TurnsEarlier(g, keys, q, p, n)
  {
    PrecedesOnce(Choices(g, keys, p, m), p[m], q[m]);
    if n < |p| && n < |q| && AgreeUpTo(p, q, n) && p[n] != q[n] {
      PartOnce(p, q, m, n);
      SameChoices(g, keys, p, q, m);
    }
  }

  lemma EarlierOnce(g: Graph, keys: seq<Key>, p: seq<Key>, q: seq<Key>)
    requires IsEarlier(g, keys, p, q)
    ensures !IsEarlier(g, keys, q, p)
  {
    var m: nat :| TurnsEarlier(g, keys, p, q, m);
    forall n: nat ensures !TurnsEarlier(g, keys, q, p, n) { TurnsOnce(g, keys, p, q, m, n); }
  }

  /** There is only one. */
  lemma FirstIsUnique(g: Graph, keys: seq<Key>, p: seq<Key>, q: seq<Key>, u: Key)
    requires IsFirst(g, keys, p, u) && IsFirst(g, keys, q, u)
    ensures p == q
  {
    if p != q { EarlierOnce(g, keys, p, q); }
  }

  /** Two routes to one component part before either ends. */
  lemma {:induction false} PathsPart(p: seq<Key>, q: seq<Key>, n: nat) returns (m: nat)
    requires p != [] && q != [] && p[|p| - 1] == q[|q| - 1] && Distinct(p) && Distinct(q) && p != q
    requires AgreeUpTo(p, q, n)
    ensures n <= m < |p| && m < |q| && AgreeUpTo(p, q, m) && p[m] != q[m]
    decreases |p| - n
  {
    NoneEnds(p, q, n);
    if p[n] == q[n] { m := PathsPart(p, q, n + 1); } else { m := n; }
  }

  lemma NoneEnds(p: seq<Key>, q: seq<Key>, n: nat)
    requires p != [] && q != [] && p[|p| - 1] == q[|q| - 1] && Distinct(p) && Distinct(q) && p != q
    requires AgreeUpTo(p, q, n)
    ensures n < |p| && n < |q|
  {
    assert Differ(q, |p| - 1, |q| - 1) || |q| <= |p|;
    assert Differ(p, |q| - 1, |p| - 1) || |p| <= |q|;
  }

  // ---- The search comes to every component on its first path

  /** Nothing in `done` calls anything but that and what is below. */
  ghost predicate IsClosed(g: Graph, done: seq<Key>, below: seq<Key>) {
    forall k, v | k in done && Calls(g, k, v) :: v in done || v in below
  }

  /** All choices before `k` were done or below when `k` was taken. */
  predicate IsTried(choices: seq<Key>, k: Key, done: seq<Key>, below: seq<Key>) {
    exists i | 0 <= i < |choices| ::
      choices[i] == k && forall j | 0 <= j < i :: choices[j] != k && (choices[j] in done || choices[j] in below)
  }

  /** So it was when component `m` of the stack was entered, with `done` finished. */
  ghost predicate IsStage(g: Graph, keys: seq<Key>, stack: seq<Key>, m: nat, done: seq<Key>) {
    m < |stack| && IsClosed(g, done, stack[..m]) && IsTried(Choices(g, keys, stack, m), stack[m], done, stack[..m])
  }

  /** `marks` says how many components were finished when each one on the stack was entered. */
  ghost predicate IsMark(g: Graph, keys: seq<Key>, stack: seq<Key>, order: seq<Key>, marks: seq<nat>, m: nat) {
    m < |marks| && marks[m] <= |order| && IsStage(g, keys, stack, m, order[..marks[m]])
  }

  ghost predicate IsStaged(g: Graph, keys: seq<Key>, stack: seq<Key>, order: seq<Key>, marks: seq<nat>) {
    |marks| == |stack|
    && forall m: nat {:trigger IsMark(g, keys, stack, order, marks, m)} | m < |stack| :: IsMark(g, keys, stack, order, marks, m)
  }

  lemma NotBelow(q: seq<Key>, m: nat, j: nat)
    requires Distinct(q) && m <= j < |q|
    ensures q[j] !in q[..m]
  {
    forall i | 0 <= i < m ensures q[i] != q[j] { assert Differ(q, i, j); }
  }

  /** A route cannot leave what was done. */
  lemma {:induction false} StaysDone(g: Graph, done: seq<Key>, q: seq<Key>, m: nat, j: nat)
    requires m <= j < |q| && IsWalk(g, q) && Distinct(q) && IsClosed(g, done, q[..m]) && q[m] in done
    ensures q[j] in done
  {
    if m < j {
      StaysDone(g, done, q, m, j - 1);
      assert CallsNext(g, q, j - 1);
      NotBelow(q, m, j);
    }
  }

  /** Another choice than the one that was taken with `done` finished comes later, or leads to nothing but what is done. */
  lemma ChosenFirst(s: seq<Key>, k: Key, other: Key, done: seq<Key>, below: seq<Key>)
    requires IsTried(s, k, done, below) && other != k && other !in done && other !in below
    ensures Precedes(s, k, other)
  {
  }

  /** Another route that parts from the stack where `done` was finished takes a later choice. */
  lemma OtherIsLater(g: Graph, keys: seq<Key>, p: seq<Key>, q: seq<Key>, u: Key, m: nat, done: seq<Key>)
    requires IsRoute(g, keys, q, u) && m < |p| && m < |q| && AgreeUpTo(p, q, m) && p[m] != q[m]
    requires IsStage(g, keys, p, m, done) && u !in done
    ensures TurnsEarlier(g, keys, p, q, m)
  {
    SameChoices(g, keys, p, q, m);
    if q[m] in done { StaysDone(g, done, q, m, |q| - 1); }
    NotBelow(q, m, m);
    ChosenFirst(Choices(g, keys, p, m), p[m], q[m], done, p[..m]);
  }

  lemma StackIsFirst(g: Graph, keys: seq<Key>, p: seq<Key>, u: Key, order: seq<Key>, marks: seq<nat>)
    requires IsRoute(g, keys, p, u) && IsStaged(g, keys, p, order, marks) && u !in order
    ensures IsFirst(g, keys, p, u)
  {
    forall q | IsRoute(g, keys, q, u) && q != p ensures IsEarlier(g, keys, p, q) {
      var m := PathsPart(p, q, 0);
      assert IsMark(g, keys, p, order, marks, m);
      OtherIsLater(g, keys, p, q, u, m, order[..marks[m]]);
    }
  }

  ghost predicate AreFirst(g: Graph, keys: seq<Key>, paths: map<Key, seq<Key>>) {
    forall u {:trigger IsFirst(g, keys, paths[u], u)} | u in paths :: IsFirst(g, keys, paths[u], u)
  }

  ghost predicate IsOrdered(g: Graph, keys: seq<Key>, f: Found, stack: seq<Key>, marks: seq<nat>) {
    && IsStaged(g, keys, stack, f.order, marks) && IsClosed(g, f.order, stack) && AreFirst(g, keys, f.paths)
    && IsWalk(g, stack) && Distinct(stack) && (stack != [] ==> stack[0] in keys)
  }

  /** The first `n` calls have led to what is finished or on the stack. */
  predicate AreMet(calls: seq<Edge>, n: nat, stack: seq<Key>, order: seq<Key>) {
    n <= |calls| && forall i | 0 <= i < n :: calls[i].target in order || calls[i].target in stack
  }

  lemma StagedGrows(g: Graph, keys: seq<Key>, stack: seq<Key>, order: seq<Key>, marks: seq<nat>, more: seq<Key>)
    requires IsStaged(g, keys, stack, order, marks) && order <= more
    ensures IsStaged(g, keys, stack, more, marks)
  {
    forall m: nat | m < |stack| ensures IsMark(g, keys, stack, more, marks, m) {
      assert IsMark(g, keys, stack, order, marks, m);
      assert more[..marks[m]] == order[..marks[m]];
    }
  }

  lemma StagePushed(g: Graph, keys: seq<Key>, stack: seq<Key>, key: Key, m: nat, done: seq<Key>)
    requires m < |stack|
    ensures IsStage(g, keys, stack + [key], m, done) <==> IsStage(g, keys, stack, m, done)
  {
    var longer := stack + [key];
    assert longer[..m] == stack[..m] && longer[m] == stack[m];
    assert Choices(g, keys, longer, m) == Choices(g, keys, stack, m);
  }

  lemma StagedPush(g: Graph, keys: seq<Key>, stack: seq<Key>, order: seq<Key>, marks: seq<nat>, key: Key)
    requires IsStaged(g, keys, stack, order, marks) && IsClosed(g, order, stack)
    requires IsTried(Choices(g, keys, stack + [key], |stack|), key, order, stack)
    ensures IsStaged(g, keys, stack + [key], order, marks + [|order|])
  {
    var longer, more := stack + [key], marks + [|order|];
    forall m: nat | m < |longer| ensures IsMark(g, keys, longer, order, more, m) {
      if m < |stack| {
        assert IsMark(g, keys, stack, order, marks, m) && more[m] == marks[m];
        StagePushed(g, keys, stack, key, m, order[..marks[m]]);
      } else {
        assert order[..more[m]] == order && longer[..m] == stack && longer[m] == key;
      }
    }
  }

  lemma StagedPop(g: Graph, keys: seq<Key>, stack: seq<Key>, order: seq<Key>, marks: seq<nat>, key: Key, n: nat)
    requires IsStaged(g, keys, stack + [key], order, marks + [n])
    ensures IsStaged(g, keys, stack, order, marks)
  {
    forall m: nat | m < |stack| ensures IsMark(g, keys, stack, order, marks, m) {
      assert IsMark(g, keys, stack + [key], order, marks + [n], m);
      StagePushed(g, keys, stack, key, m, order[..marks[m]]);
    }
  }

  lemma EntryOrders(g: Graph, keys: seq<Key>, f: Found, stack: seq<Key>, key: Key, marks: seq<nat>)
    requires IsOrdered(g, keys, f, stack, marks) && key !in stack && key !in f.order
    requires if stack == [] then key in keys else Calls(g, stack[|stack| - 1], key)
    requires IsTried(Choices(g, keys, stack + [key], |stack|), key, f.order, stack)
    ensures IsOrdered(g, keys, Entered(f, stack, key), stack + [key], marks + [|f.order|])
  {
    var p, r := stack + [key], Entered(f, stack, key);
    LongerWalk(g, stack, key);
    OneMoreDiffers(stack, key);
    StagedPush(g, keys, stack, f.order, marks, key);
    assert p[0] in keys && p[|p| - 1] == key;
    StackIsFirst(g, keys, p, key, f.order, marks + [|f.order|]);
    forall u | u in r.paths ensures IsFirst(g, keys, r.paths[u], u) {
      if u != key { assert IsFirst(g, keys, f.paths[u], u); }
    }
  }

  lemma ExitOrders(g: Graph, keys: seq<Key>, f: Found, stack: seq<Key>, key: Key, marks: seq<nat>, n: nat)
    requires IsOrdered(g, keys, f, stack + [key], marks + [n]) && key in g && AreMet(g[key], |g[key]|, stack + [key], f.order)
    ensures IsOrdered(g, keys, f.(order := f.order + [key]), stack, marks)
  {
    ShorterPath(g, stack, key);
    StagedPop(g, keys, stack, f.order, marks, key, n);
    StagedGrows(g, keys, stack, f.order, marks, f.order + [key]);
    assert stack != [] ==> (stack + [key])[0] == stack[0];
  }

  /** The next call is the first one to its target when that has not been met. */
  lemma NextIsTried(g: Graph, keys: seq<Key>, stack: seq<Key>, key: Key, e: nat, order: seq<Key>)
    requires stack != [] && stack[|stack| - 1] == key && key in g && e < |g[key]| && AreMet(g[key], e, stack, order)
    requires g[key][e].target !in order && g[key][e].target !in stack
    ensures IsTried(Choices(g, keys, stack + [g[key][e].target], |stack|), g[key][e].target, order, stack)
  {
    var choices := Choices(g, keys, stack + [g[key][e].target], |stack|);
    assert choices == Targets(g[key]) && choices[e] == g[key][e].target;
  }

  lemma {:induction false} CallOrders(g: Graph, keys: seq<Key>, f: Found, stack: seq<Key>, key: Key, e: nat, marks: seq<nat>)
    requires Resolved(g) && IsOrdered(g, keys, f, stack, marks) && stack != [] && stack[|stack| - 1] == key
    requires key in g && e < |g[key]| && g[key][e].target in g && AreMet(g[key], e, stack, f.order)
    ensures var r := FollowCall(g, f, stack, g[key][e].target);
            IsOrdered(g, keys, r, stack, marks) && (g[key][e].target in r.order || g[key][e].target in stack)
    decreases Left(g, f.order, stack), 1
  {
    var target := g[key][e].target;
    if target !in stack && target !in f.order {
      NextIsTried(g, keys, stack, key, e, f.order);
      assert Calls(g, key, target);
      VisitOrders(g, keys, f, stack, target, marks);
    }
  }

  lemma {:induction false} VisitOrders(g: Graph, keys: seq<Key>, f: Found, stack: seq<Key>, key: Key, marks: seq<nat>)
    requires Resolved(g) && IsOrdered(g, keys, f, stack, marks) && key in g && key !in stack && key !in f.order
    requires if stack == [] then key in keys else Calls(g, stack[|stack| - 1], key)
    requires IsTried(Choices(g, keys, stack + [key], |stack|), key, f.order, stack)
    ensures IsOrdered(g, keys, VisitFrom(g, f, stack, key), stack, marks)
    decreases Left(g, f.order, stack), 0
  {
    var entered := Entered(f, stack, key);
    VisitUnfolds(g, f, stack, key);
    EntryOrders(g, keys, f, stack, key, marks);
    CallsOrder(g, keys, entered, stack + [key], key, 0, marks + [|f.order|]);
    ExitOrders(g, keys, FollowCalls(g, entered, stack + [key], key, 0), stack, key, marks, |f.order|);
  }

  lemma {:induction false} CallsOrder(g: Graph, keys: seq<Key>, f: Found, stack: seq<Key>, key: Key, e: nat, marks: seq<nat>)
    requires Resolved(g) && IsOrdered(g, keys, f, stack, marks) && stack != [] && stack[|stack| - 1] == key
    requires key in g && AreMet(g[key], e, stack, f.order)
    ensures var r := FollowCalls(g, f, stack, key, e);
            IsOrdered(g, keys, r, stack, marks) && AreMet(g[key], |g[key]|, stack, r.order)
    decreases Left(g, f.order, stack), 2 + |g[key]| - e
  {
    if e == |g[key]| {
      CallsEnd(g, f, stack, key);
    } else {
      CallsUnfold(g, f, stack, key, e);
      CallOrders(g, keys, f, stack, key, e, marks);
      CallsOrder(g, keys, FollowCall(g, f, stack, g[key][e].target), stack, key, e + 1, marks);
    }
  }

  lemma {:induction false} SearchOrders(g: Graph, keys: seq<Key>, f: Found, i: nat)
    requires Resolved(g) && IsOrdered(g, keys, f, [], []) && i <= |keys| && forall k | k in keys :: k in g
    requires forall j | 0 <= j < i :: keys[j] in f.order
    ensures IsOrdered(g, keys, SearchFrom(g, f, keys, i), [], [])
    decreases |keys| - i
  {
    if i < |keys| {
      SearchUnfolds(g, f, keys, i);
      if keys[i] in f.order {
        SearchOrders(g, keys, f, i + 1);
      } else {
        assert [] + [keys[i]] == [keys[i]];
        VisitOrders(g, keys, f, [], keys[i], []);
        VisitGrows(g, f, [], keys[i]);
        SearchOrders(g, keys, VisitFrom(g, f, [], keys[i]), i + 1);
      }
    }
  }

  lemma VisitGrows(g: Graph, f: Found, stack: seq<Key>, key: Key)
    requires Resolved(g) && key in g && key !in stack && key !in f.order
    ensures f.order <= VisitFrom(g, f, stack, key).order && f.reported <= VisitFrom(g, f, stack, key).reported
  {
    VisitUnfolds(g, f, stack, key);
    CallsGrow(g, Entered(f, stack, key), stack + [key], key, 0);
  }

  // ---- What is reported

  ghost predicate IsSearchable(g: Graph, keys: seq<Key>) { Resolved(g) && forall k :: k in keys <==> k in g }

  /** What the search from these keys, in this order, reports. */
  ghost function Reported(g: Graph, keys: seq<Key>): set<Key>
    requires IsSearchable(g, keys)
  {
    SearchFrom(g, NOTHING, keys, 0).reported
  }

  /** `u` calls back a component `v` of the first path to it, and `k` lies on that path from `v` on. */
  ghost predicate ClosesAround(g: Graph, keys: seq<Key>, u: Key, v: Key, p: seq<Key>, k: Key) {
    IsFirst(g, keys, p, u) && Calls(g, u, v) && v in p && k in From(p, v)
  }

  ghost predicate IsClosedAround(g: Graph, keys: seq<Key>, k: Key) {
    exists u, v, p :: ClosesAround(g, keys, u, v, p, k)
  }

  /** The whole search is sound, in order, and comes to every component. */
  lemma SearchIsWhole(g: Graph, keys: seq<Key>)
    requires IsSearchable(g, keys)
    ensures var f := SearchFrom(g, NOTHING, keys, 0);
            IsSearching(g, f, []) && AreFirst(g, keys, f.paths) && f.paths.Keys == g.Keys && forall k :: k in f.order <==> k in g
  {
    SearchKeeps(g, NOTHING, keys, 0);
    SearchOrders(g, keys, NOTHING, 0);
    SearchFinishes(g, NOTHING, keys, 0);
    var f := SearchFrom(g, NOTHING, keys, 0);
    forall k ensures k in f.order <==> k in g {
      if k in g {
        var j :| 0 <= j < |keys| && keys[j] == k;
        assert keys[j] in f.order;
      }
    }
    assert forall u :: u in f.paths <==> u in g;
  }

  /** Exactly what is reported, without the search: a component is when some call back to the first path to its caller
      closes a cycle with it. */
  lemma ReportedExactly(g: Graph, keys: seq<Key>, k: Key)
    requires IsSearchable(g, keys)
    ensures k in Reported(g, keys) <==> IsClosedAround(g, keys, k)
  {
    SearchIsWhole(g, keys);
    var f := SearchFrom(g, NOTHING, keys, 0);
    if k in f.reported {
      assert IsExplained(g, f.paths, k);
      var u, v :| Explains(g, f.paths, u, v, k);
      assert IsFirst(g, keys, f.paths[u], u);
      assert ClosesAround(g, keys, u, v, f.paths[u], k);
    }
    if IsClosedAround(g, keys, k) {
      var u, v, p :| ClosesAround(g, keys, u, v, p, k);
      assert IsFirst(g, keys, f.paths[u], u);
      FirstIsUnique(g, keys, p, f.paths[u], u);
      assert AnswersAll(g, f.paths, u, f.reported);
    }
  }

  /** Every component on a cycle is reported exactly when for each of them there is such a call. */
  lemma AllReportedExactly(g: Graph, keys: seq<Key>)
    requires IsSearchable(g, keys)
    ensures (forall k | OnCycle(g, k) :: k in Reported(g, keys)) <==> forall k | OnCycle(g, k) :: IsClosedAround(g, keys, k)
  {
    forall k ensures k in Reported(g, keys) <==> IsClosedAround(g, keys, k) { ReportedExactly(g, keys, k); }
  }

  /** A rank falls along all calls but those between two reported components. */
  lemma SearchRanks(g: Graph, keys: seq<Key>) returns (rank: map<Key, nat>)
    requires IsSearchable(g, keys)
    ensures Ranks(g, rank, Reported(g, keys))
  {
    SearchIsWhole(g, keys);
    var f := SearchFrom(g, NOTHING, keys, 0);
    rank := OrderRanks(g, f.order, f.reported);
  }

  /** So every cycle has a call whose two ends are both reported. */
  lemma CyclesAreReported(g: Graph, keys: seq<Key>, p: seq<Key>)
    requires IsSearchable(g, keys) && IsCycle(g, p)
    ensures IsMarked(p, Reported(g, keys))
  {
    var rank := SearchRanks(g, keys);
    CyclesAreMarked(g, rank, Reported(g, keys), p);
  }

  // ---- A cycle one member of which is never reported

  /** `a` calls `b` and then `c`, and each of these closes a cycle: `b` calls `a`, and `c` calls `b`. */
  function Triangle(a: Key, b: Key, c: Key, at: Position): (g: Graph)
    requires a != b && a != c && b != c
    ensures Resolved(g)
  {
    map[a := [Edge(b, at), Edge(c, at)], b := [Edge(a, at)], c := [Edge(b, at)]]
  }

  lemma {:induction false} ReportsFromB(a: Key, b: Key, c: Key, at: Position, f: Found)
    requires a != b && a != c && b != c
    ensures FollowCall(Triangle(a, b, c, at), f, [a, b], a) == f.(reported := f.reported + {a, b})
  {
    assert [a, b][0] == a && [a, b][1] == b;
    assert IndexIn([a, b], a) == 0 && [a, b][0..] == [a, b];
    assert SetOf([a, b]) == {a, b};
  }

  /** The cycle through `a` and `b` is reported from `b`. */
  lemma {:induction false} VisitsB(a: Key, b: Key, c: Key, at: Position, f: Found)
    requires a != b && a != c && b != c && f.order == [] && f.reported == {}
    ensures var r := FollowCall(Triangle(a, b, c, at), f, [a], b); r.order == [b] && r.reported == {a, b}
  {
    var g: Graph, entered := Triangle(a, b, c, at), Entered(f, [a], b);
    assert [a] + [b] == [a, b] && [] + [b] == [b];
    ReportsFromB(a, b, c, at, entered);
    CallsUnfold(g, entered, [a, b], b, 0);
    CallsEnd(g, entered.(reported := entered.reported + {a, b}), [a, b], b);
    VisitUnfolds(g, f, [a], b);
  }

  /** From `c` the search meets `b`, which is finished, and reports nothing. */
  lemma {:induction false} VisitsC(a: Key, b: Key, c: Key, at: Position, f: Found)
    requires a != b && a != c && b != c && f.order == [b] && f.reported == {a, b}
    ensures var r := FollowCall(Triangle(a, b, c, at), f, [a], c); r.order == [b, c] && r.reported == {a, b}
  {
    var g: Graph, entered := Triangle(a, b, c, at), Entered(f, [a], c);
    assert [a] + [c] == [a, c] && [b] + [c] == [b, c] && b !in [a, c] && [b][0] == b;
    assert FollowCall(g, entered, [a, c], b) == entered;
    CallsUnfold(g, entered, [a, c], c, 0);
    CallsEnd(g, entered, [a, c], c);
    VisitUnfolds(g, f, [a], c);
  }

  lemma {:induction false} VisitsA(a: Key, b: Key, c: Key, at: Position)
    requires a != b && a != c && b != c
    ensures var r := VisitFrom(Triangle(a, b, c, at), NOTHING, [], a); r.order == [b, c, a] && r.reported == {a, b}
  {
    var g: Graph, entered := Triangle(a, b, c, at), Entered(NOTHING, [], a);
    assert [] + [a] == [a] && [b, c] + [a] == [b, c, a];
    VisitsB(a, b, c, at, entered);
    var f := FollowCall(g, entered, [a], b);
    VisitsC(a, b, c, at, f);
    CallsUnfold(g, entered, [a], a, 0);
    CallsUnfold(g, f, [a], a, 1);
    CallsEnd(g, FollowCall(g, f, [a], c), [a], a);
    VisitUnfolds(g, NOTHING, [], a);
  }

  /** Not every component on a cycle is reported: `c` reaches itself, and the search from `a`, `b` and `c` in this
      order reports only `a` and `b`. */
  lemma {:induction false} MemberStaysUnreported(a: Key, b: Key, c: Key, at: Position)
    requires a != b && a != c && b != c
    ensures IsSearchable(Triangle(a, b, c, at), [a, b, c]) && Reported(Triangle(a, b, c, at), [a, b, c]) == {a, b}
    ensures OnCycle(Triangle(a, b, c, at), c)
  {
    var g: Graph, keys := Triangle(a, b, c, at), [a, b, c];
    assert keys[0] == a && keys[1] == b && keys[2] == c;
    VisitsA(a, b, c, at);
    var done := VisitFrom(g, NOTHING, [], a);
    SearchUnfolds(g, NOTHING, keys, 0);
    SearchUnfolds(g, done, keys, 1);
    SearchUnfolds(g, done, keys, 2);
    CycleThroughC(a, b, c, at);
  }

  lemma {:induction false} CycleThroughC(a: Key, b: Key, c: Key, at: Position)
    requires a != b && a != c && b != c
    ensures OnCycle(Triangle(a, b, c, at), c)
  {
    var g: Graph, p := Triangle(a, b, c, at), [c, b, a, c];
    assert g[c][0].target == b && g[b][0].target == a && g[a][1].target == c;
    assert CallsNext(g, p, 0) && CallsNext(g, p, 1) && CallsNext(g, p, 2);
    assert IsCycle(g, p);
  }
}
