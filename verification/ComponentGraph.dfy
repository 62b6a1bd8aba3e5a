/** Static component cycles: the three-colour depth-first search over resolved component calls. */
module ComponentGraph {
  import opened CallGraph
  import opened CycleSearch
  import opened Sequences
  import opened Sorting

  datatype Color = Unvisited | Visiting | Visited

  /** A reported component, where it calls the next one of the cycle, and the cycle. */
  datatype Report = Report(member: Key, position: Position, cycle: seq<Key>)

  predicate CallsAt(g: Graph, a: Key, b: Key, position: Position) {
    a in g && exists e | 0 <= e < |g[a]| :: g[a][e].target == b && g[a][e].position == position
  }

  /** The report names a real cycle, a member of it, and a call from that member to the next. */
  ghost predicate IsReport(g: Graph, r: Report) {
    && IsCycle(g, r.cycle)
    && exists m | 0 <= m < |r.cycle| - 1 :: r.cycle[m] == r.member && CallsAt(g, r.member, r.cycle[m + 1], r.position)
  }

  function Members(reports: seq<Report>): set<Key> {
    if reports == [] then {} else Members(reports[..|reports| - 1]) + {reports[|reports| - 1].member}
  }

  /** Real reports, one for each reported component. */
  ghost predicate AreReports(g: Graph, reports: seq<Report>, reported: set<Key>) {
    && Members(reports) == reported && |reports| == |reported|
    && forall i | 0 <= i < |reports| :: IsReport(g, reports[i])
  }

  lemma OneMoreReport(g: Graph, reports: seq<Report>, reported: set<Key>, r: Report)
    requires AreReports(g, reports, reported) && IsReport(g, r) && r.member !in reported
    ensures AreReports(g, reports + [r], reported + {r.member})
  {
    assert (reports + [r])[..|reports|] == reports;
  }

  lemma {:induction false} MembersAre(reports: seq<Report>)
    ensures forall i | 0 <= i < |reports| :: reports[i].member in Members(reports)
  {
    if reports != [] { MembersAre(reports[..|reports| - 1]); }
  }

  /** As many members as reports means no component is reported twice. */
  lemma {:induction false} ReportedOnce(reports: seq<Report>)
    ensures |Members(reports)| <= |reports|
    ensures |Members(reports)| == |reports| ==>
              forall i, j | 0 <= i < j < |reports| :: reports[i].member != reports[j].member
  {
    if reports != [] {
      ReportedOnce(reports[..|reports| - 1]);
      MembersAre(reports[..|reports| - 1]);
    }
  }

  lemma OneMoreMember(before: set<Key>, s: seq<Key>, m: nat)
    requires m < |s|
    ensures before + SetOf(s[..m + 1]) == before + SetOf(s[..m]) + {s[m]}
  {
    assert s[..m + 1] == s[..m] + [s[m]];
  }

  // ---- The state of the search

  function ColorOf(state: map<Key, Color>, k: Key): Color { if k in state then state[k] else Unvisited }

  /** The visiting components are the stack, and the visited ones those that are finished. */
  ghost predicate IsColored(state: map<Key, Color>, stack: seq<Key>, order: seq<Key>) {
    forall k :: ColorOf(state, k) == if k in stack then Visiting else if k in order then Visited else Unvisited
  }

  /** Each component on the stack calls the next. */
  ghost predicate IsPath(g: Graph, stack: seq<Key>) {
    Distinct(stack) && IsWalk(g, stack) && forall k | k in stack :: k in g
  }

  lemma StackClosesCycle(g: Graph, stack: seq<Key>, start: nat, target: Key)
    requires IsWalk(g, stack) && start < |stack| && stack[start] == target && Calls(g, stack[|stack| - 1], target)
    ensures IsCycle(g, stack[start..] + [target])
  {
    var cycle := stack[start..] + [target];
    forall i | 0 <= i < |cycle| - 1 ensures CallsNext(g, cycle, i) {
      if i < |cycle| - 2 { assert CallsNext(g, stack, start + i); }
    }
  }

  lemma PathPushed(g: Graph, stack: seq<Key>, key: Key)
    requires IsPath(g, stack) && key in g && key !in stack && (stack != [] ==> Calls(g, stack[|stack| - 1], key))
    ensures IsPath(g, stack + [key])
  {
    LongerWalk(g, stack, key);
    OneMoreDiffers(stack, key);
  }

  lemma PathPopped(g: Graph, stack: seq<Key>, key: Key, state: map<Key, Color>, order: seq<Key>)
    requires IsPath(g, stack + [key]) && IsColored(state, stack + [key], order)
    ensures IsPath(g, stack) && IsColored(state[key := Visited], stack, order + [key])
  {
    ShorterPath(g, stack, key);
    assert forall k :: k in stack + [key] <==> k in stack || k == key;
  }

  class CycleDetector {
    const graph: Graph
    var state: map<Key, Color>
    var stack: seq<Key>
    var reported: set<Key>
    var reports: seq<Report>
    ghost var found: Found

    ghost predicate Valid()
      reads this
    {
      && Resolved(graph) && IsPath(graph, stack) && IsColored(state, stack, found.order)
      && AreReports(graph, reports, reported) && reported == found.reported
    }

    constructor (graph: Graph)
      requires Resolved(graph)
      ensures Valid() && this.graph == graph && stack == [] && found == NOTHING
    {
      this.graph := graph;
      state, stack, reported, reports, found := map[], [], {}, [], NOTHING;
    }

    /** The position of the first call from `member` to `next`. */
    method CallPosition(member: Key, next: Key) returns (position: Position)
      requires Calls(graph, member, next)
      ensures CallsAt(graph, member, next, position)
    {
      position := Position(1, 1);
      var calls := graph[member];
      for e := 0 to |calls|
        invariant forall i | 0 <= i < e :: calls[i].target != next
      {
        if calls[e].target == next {
          return calls[e].position;
        }
      }
    }

    /** Reports member `m` of a cycle unless it has been reported. */
    method ReportMember(cycle: seq<Key>, m: nat)
      requires IsCycle(graph, cycle) && m < |cycle| - 1 && AreReports(graph, reports, reported)
      modifies this`reported, this`reports
      ensures AreReports(graph, reports, reported) && reported == old(reported) + {cycle[m]}
    {
      if cycle[m] !in reported {
        assert CallsNext(graph, cycle, m);
        var position := CallPosition(cycle[m], cycle[m + 1]);
        var report := Report(cycle[m], position, cycle);
        OneMoreReport(graph, reports, reported, report);
        reported, reports := reported + {cycle[m]}, reports + [report];
      }
    }

    /** Reports every member of a cycle that has not been reported. */
    method ReportMembers(cycle: seq<Key>)
      requires IsCycle(graph, cycle) && AreReports(graph, reports, reported)
      modifies this`reported, this`reports
      ensures AreReports(graph, reports, reported) && reported == old(reported) + SetOf(cycle[..|cycle| - 1])
    {
      ghost var before := reported;
      for m := 0 to |cycle| - 1
        invariant AreReports(graph, reports, reported) && reported == before + SetOf(cycle[..m])
      {
        OneMoreMember(before, cycle, m);
        ReportMember(cycle, m);
      }
    }

    /** Reports every member of the cycle that closes at `target` and has not been reported. */
    method ReportCycle(target: Key)
      requires Valid() && target in stack && Calls(graph, stack[|stack| - 1], target)
      modifies this`reported, this`reports, this`found
      ensures Valid() && found == old(found).(reported := old(reported) + SetOf(From(stack, target)))
    {
      var cycleStart := 0;
      while cycleStart < |stack| && stack[cycleStart] != target
        invariant cycleStart <= |stack| && forall i | 0 <= i < cycleStart :: stack[i] != target
      {
        cycleStart := cycleStart + 1;
      }
      var cycle := stack[cycleStart..] + [target];
      StackClosesCycle(graph, stack, cycleStart, target);
      OnlyIndex(stack, cycleStart);
      assert cycle[..|cycle| - 1] == From(stack, target);
      ReportMembers(cycle);
      found := found.(reported := reported);
    }

    method Enter(key: Key)
      requires Valid() && key in graph && ColorOf(state, key) == Unvisited
      requires stack != [] ==> Calls(graph, stack[|stack| - 1], key)
      modifies this`state, this`stack, this`found
      ensures Valid() && stack == old(stack) + [key] && found == Entered(old(found), old(stack), key)
    {
      PathPushed(graph, stack, key);
      state, stack, found := state[key := Visiting], stack + [key], Entered(found, stack, key);
    }

    method Leave(key: Key)
      requires Valid() && stack != [] && stack[|stack| - 1] == key
      modifies this`state, this`stack, this`found
      ensures Valid() && stack == old(stack)[..|old(stack)| - 1]
      ensures found == old(found).(order := old(found).order + [key])
    {
      ghost var below := stack[..|stack| - 1];
      assert stack == below + [key];
      PathPopped(graph, below, key, state, found.order);
      stack, state, found := stack[..|stack| - 1], state[key := Visited], found.(order := found.order + [key]);
    }

    /** Visits a component and everything it reaches that has not been visited. */
    method Visit(key: Key)
      requires Valid() && key in graph && ColorOf(state, key) == Unvisited
      requires stack != [] ==> Calls(graph, stack[|stack| - 1], key)
      modifies this
      ensures Valid() && stack == old(stack) && found == VisitFrom(graph, old(found), old(stack), key)
      decreases Left(graph, found.order, stack), 0
    {
      VisitUnfolds(graph, found, stack, key);
      Enter(key);
      FollowAll(key);
      Leave(key);
    }

    /** Follows every call of the component on top of the stack. */
    method FollowAll(key: Key)
      requires Valid() && stack != [] && stack[|stack| - 1] == key
      modifies this
      ensures Valid() && stack == old(stack) && found == FollowCalls(graph, old(found), stack, key, 0)
      decreases Left(graph, found.order, stack), 2
    {
      ghost var all := FollowCalls(graph, found, stack, key, 0);
      ghost var left := Left(graph, found.order, stack);
      for e := 0 to |graph[key]|
        invariant Valid() && stack == old(stack) && Left(graph, found.order, stack) <= left
        invariant all == FollowCalls(graph, found, stack, key, e)
      {
        CallsUnfold(graph, found, stack, key, e);
        Follow(key, graph[key][e].target);
      }
      CallsEnd(graph, found, stack, key);
    }

    /** Follows one call of the component on top of the stack. */
    method Follow(key: Key, target: Key)
      requires Valid() && stack != [] && stack[|stack| - 1] == key && Calls(graph, key, target)
      modifies this
      ensures Valid() && stack == old(stack) && found == FollowCall(graph, old(found), stack, target)
      decreases Left(graph, found.order, stack), 1
    {
      if ColorOf(state, target) == Unvisited {
        Visit(target);
      } else if ColorOf(state, target) == Visiting {
        ReportCycle(target);
      }
    }

    /** Searches from every component that is still unvisited. */
    method SearchAll(keys: seq<Key>)
      requires Valid() && stack == [] && forall k | k in keys :: k in graph
      modifies this
      ensures Valid() && stack == [] && found == SearchFrom(graph, old(found), keys, 0)
    {
      ghost var all := SearchFrom(graph, found, keys, 0);
      for i := 0 to |keys|
        invariant Valid() && stack == [] && all == SearchFrom(graph, found, keys, i)
      {
        SearchUnfolds(graph, found, keys, i);
        if ColorOf(state, keys[i]) == Unvisited {
          Visit(keys[i]);
        }
      }
    }
  }

  lemma ReportIsReal(g: Graph, r: Report)
    requires IsReport(g, r)
    ensures OnCycle(g, r.member)
  {
    var m :| 0 <= m < |r.cycle| - 1 && r.cycle[m] == r.member && CallsAt(g, r.member, r.cycle[m + 1], r.position);
    MemberIsOnCycle(g, r.cycle, m);
  }

  lemma SomeIsReported(g: Graph, keys: seq<Key>, k: Key)
    requires IsSearchable(g, keys) && OnCycle(g, k)
    ensures Reported(g, keys) != {}
  {
    var p :| IsCycle(g, p) && p[0] == k;
    CyclesAreReported(g, keys, p);
  }

  /** What is promised of the reports: each is of a real cycle and of a component of its own, those components are exactly
      the ones that some call closes a cycle around, every cycle has a call between two of them, and so there is a report
      exactly when there is a cycle. */
  ghost predicate AreExact(graph: Graph, keys: seq<Key>, reports: seq<Report>)
    requires IsSearchable(graph, keys)
  {
    && (forall i | 0 <= i < |reports| :: IsReport(graph, reports[i]) && OnCycle(graph, reports[i].member))
    && (forall i, j | 0 <= i < j < |reports| :: reports[i].member != reports[j].member)
    && Members(reports) == Reported(graph, keys)
    && (forall k :: k in Members(reports) <==> IsClosedAround(graph, keys, k))
    && (forall p | IsCycle(graph, p) :: IsMarked(p, Members(reports)))
    && (reports != [] <==> exists k :: OnCycle(graph, k))
  }

  lemma ReportsAreExact(graph: Graph, keys: seq<Key>, reports: seq<Report>)
    requires IsSearchable(graph, keys) && AreReports(graph, reports, Reported(graph, keys))
    ensures AreExact(graph, keys, reports)
  {
    ReportedOnce(reports);
    forall i | 0 <= i < |reports| ensures IsReport(graph, reports[i]) && OnCycle(graph, reports[i].member) {
      ReportIsReal(graph, reports[i]);
    }
    forall k ensures k in Members(reports) <==> IsClosedAround(graph, keys, k) { ReportedExactly(graph, keys, k); }
    forall p | IsCycle(graph, p) ensures IsMarked(p, Members(reports)) { CyclesAreReported(graph, keys, p); }
    assert reports != [] <==> exists k :: OnCycle(graph, k) by {
      if reports != [] { assert OnCycle(graph, reports[0].member); }
      forall k | OnCycle(graph, k) ensures reports != [] { SomeIsReported(graph, keys, k); }
    }
  }

  /** detectComponentCycles on the resolved graph, searched from the keys in this order. */
  method DetectCycles(graph: Graph, keys: seq<Key>) returns (reports: seq<Report>)
    requires IsSearchable(graph, keys)
    ensures AreExact(graph, keys, reports)
  {
    var detector := new CycleDetector(graph);
    detector.SearchAll(keys);
    reports := detector.reports;
    ReportsAreExact(graph, keys, reports);
  }

  // ---- Building the graph

  /** A compiled source: where it is, the component it declares, and the names its component nodes call. */
  datatype Source = Source(path: string, key: Key, calls: seq<Call>)

  datatype Call = Call(name: string, position: Position)

  /** Two files that declare the same component. */
  datatype Duplicate = Duplicate(first: string, second: string)

  function Target(caller: Key, call: Call): Key { caller.(name := call.name) }

  ghost predicate IsFirst(files: seq<Source>, i: nat)
    requires i < |files|
  {
    forall j | 0 <= j < i :: files[j].key != files[i].key
  }

  /** Some file among the first `n` declares the component. */
  ghost predicate Declares(files: seq<Source>, n: nat, key: Key)
    requires n <= |files|
  {
    exists i :: 0 <= i < n && files[i].key == key
  }

  ghost predicate AreDistinct(files: seq<Source>, n: nat)
    requires n <= |files|
  {
    forall i, j | 0 <= i < j < n :: files[i].key != files[j].key
  }

  lemma DeclaresNext(files: seq<Source>, n: nat)
    requires n < |files|
    ensures forall k :: Declares(files, n + 1, k) <==> Declares(files, n, k) || files[n].key == k
    ensures IsFirst(files, n) <==> !Declares(files, n, files[n].key)
  {
    forall k ensures Declares(files, n + 1, k) <==> Declares(files, n, k) || files[n].key == k {
      if files[n].key == k { assert 0 <= n < n + 1 && files[n].key == k; }
    }
  }

  /** `byKey` holds the first declaration of each component among the first `n` files. */
  ghost predicate IsIndex(files: seq<Source>, n: nat, byKey: map<Key, Source>)
    requires n <= |files|
  {
    && (forall k :: k in byKey <==> Declares(files, n, k))
    && (forall i: nat {:trigger IsFirst(files, i)} | i < n && IsFirst(files, i) :: files[i].key in byKey && byKey[files[i].key] == files[i])
    && (forall k | k in byKey :: byKey[k].key == k)
  }

  lemma IndexGrows(files: seq<Source>, n: nat, byKey: map<Key, Source>)
    requires n < |files| && IsIndex(files, n, byKey)
    ensures IsIndex(files, n + 1, if files[n].key in byKey then byKey else byKey[files[n].key := files[n]])
  {
    DeclaresNext(files, n);
    if files[n].key !in byKey {
      forall i | 0 <= i < n ensures files[i].key != files[n].key {
        assert !Declares(files, n, files[n].key);
      }
    }
  }

  /** The first file that declares what file `n` declares. */
  function FirstOf(files: seq<Source>, n: nat, i: nat): (r: nat)
    requires i <= n < |files|
    ensures i <= r <= n && files[r].key == files[n].key && forall j | i <= j < r :: files[j].key != files[n].key
    decreases n - i
  {
    if files[i].key == files[n].key then i else FirstOf(files, n, i + 1)
  }

  /** Every file among the first `n` that declares what an earlier one does, beside the first that does. */
  function DuplicatesIn(files: seq<Source>, n: nat): seq<Duplicate>
    requires n <= |files|
  {
    if n == 0 then []
    else
      var first := FirstOf(files, n - 1, 0);
      DuplicatesIn(files, n - 1) + if first == n - 1 then [] else [Duplicate(files[first].path, files[n - 1].path)]
  }

  /** All of them. */
  function Duplicates(files: seq<Source>): seq<Duplicate> { DuplicatesIn(files, |files|) }

  lemma DuplicatesGrow(files: seq<Source>, n: nat, byKey: map<Key, Source>)
    requires n < |files| && IsIndex(files, n, byKey)
    ensures DuplicatesIn(files, n + 1)
         == DuplicatesIn(files, n)
          + if files[n].key in byKey then [Duplicate(byKey[files[n].key].path, files[n].path)] else []
  {
    var first := FirstOf(files, n, 0);
    assert IsFirst(files, first);
    if first == n { assert !Declares(files, n, files[n].key); }
  }

  lemma {:induction false} NoDuplicates(files: seq<Source>, n: nat)
    requires n <= |files|
    ensures DuplicatesIn(files, n) == [] <==> AreDistinct(files, n)
  {
    if n > 0 {
      NoDuplicates(files, n - 1);
      var first := FirstOf(files, n - 1, 0);
      if first < n - 1 {
        assert files[first].key == files[n - 1].key;
      } else {
        assert forall j | 0 <= j < n - 1 :: files[j].key != files[n - 1].key;
      }
    }
  }

  /** Indexes the files by component, the first declaration winning, and names every later one. */
  method IndexSources(files: seq<Source>) returns (byKey: map<Key, Source>, duplicates: seq<Duplicate>)
    ensures IsIndex(files, |files|, byKey) && duplicates == Duplicates(files)
    ensures duplicates == [] <==> AreDistinct(files, |files|)
  {
    byKey, duplicates := map[], [];
    for n := 0 to |files|
      invariant IsIndex(files, n, byKey) && duplicates == DuplicatesIn(files, n)
    {
      var file := files[n];
      IndexGrows(files, n, byKey);
      DuplicatesGrow(files, n, byKey);
      if file.key in byKey {
        duplicates := duplicates + [Duplicate(byKey[file.key].path, file.path)];
      } else {
        byKey := byKey[file.key := file];
      }
    }
    NoDuplicates(files, |files|);
  }

  /** The calls of a component to components of its package that exist. */
  function ResolvedEdges(byKey: map<Key, Source>, key: Key, calls: seq<Call>): seq<Edge> {
    if calls == [] then []
    else
      var n := |calls| - 1;
      var before, target := ResolvedEdges(byKey, key, calls[..n]), Target(key, calls[n]);
      if target in byKey then before + [Edge(target, calls[n].position)] else before
  }

  predicate Names(calls: seq<Call>, name: string) { exists c | 0 <= c < |calls| :: calls[c].name == name }

  /** A node of `a` names the existing component `b` of the same package. */
  predicate Resolves(byKey: map<Key, Source>, a: Key, b: Key) {
    a in byKey && b in byKey && b == a.(name := b.name) && Names(byKey[a].calls, b.name)
  }

  lemma {:induction false} ResolvedEdgesLead(byKey: map<Key, Source>, key: Key, calls: seq<Call>, b: Key)
    ensures Leads(ResolvedEdges(byKey, key, calls), b)
            <==> b in byKey && b == key.(name := b.name) && Names(calls, b.name)
  {
    if calls != [] {
      var n := |calls| - 1;
      ResolvedEdgesLead(byKey, key, calls[..n], b);
      var before, edges := ResolvedEdges(byKey, key, calls[..n]), ResolvedEdges(byKey, key, calls);
      assert Names(calls, b.name) <==> Names(calls[..n], b.name) || calls[n].name == b.name;
      if Target(key, calls[n]) in byKey {
        assert Leads(edges, b) <==> Leads(before, b) || Target(key, calls[n]) == b by {
          assert edges[|before|].target == Target(key, calls[n]);
          assert forall i | 0 <= i < |before| :: edges[i] == before[i];
        }
      }
    }
  }

  function Named(edges: seq<Edge>): (records: seq<Keyed<Edge>>)
    ensures Items(records) == edges
  {
    if edges == [] then []
    else
      var n := |edges| - 1;
      ItemsOne(Named(edges[..n]), Keyed(edges[n].target.name, edges[n]));
      Named(edges[..n]) + [Keyed(edges[n].target.name, edges[n])]
  }

  /** Calls in the order in which they are followed: by the name of what they call. */
  function InOrder(edges: seq<Edge>): seq<Edge> { Items(StableSort(Named(edges))) }

  lemma InOrderLeads(edges: seq<Edge>, b: Key)
    ensures Leads(InOrder(edges), b) <==> Leads(edges, b)
  {
    SortKeepsItems(Named(edges));
    assert multiset(InOrder(edges)) == multiset(edges);
    forall e ensures e in InOrder(edges) <==> e in edges { assert e in multiset(edges) <==> e in edges; }
    if Leads(edges, b) {
      var i :| 0 <= i < |edges| && edges[i].target == b;
      assert edges[i] in InOrder(edges);
    }
    if Leads(InOrder(edges), b) {
      var i :| 0 <= i < |InOrder(edges)| && InOrder(edges)[i].target == b;
      assert InOrder(edges)[i] in edges;
    }
  }

  /** The calls of one component. */
  function EdgesOf(byKey: map<Key, Source>, key: Key): seq<Edge>
    requires key in byKey
  {
    InOrder(ResolvedEdges(byKey, key, byKey[key].calls))
  }

  /** The calls of every component, in order. */
  ghost predicate IsBuilt(byKey: map<Key, Source>, graph: Graph) {
    graph.Keys <= byKey.Keys
    && forall a {:trigger graph[a]} | a in graph :: graph[a] == EdgesOf(byKey, a)
  }

  method ResolveCalls(byKey: map<Key, Source>, key: Key) returns (edges: seq<Edge>)
    requires key in byKey
    ensures edges == EdgesOf(byKey, key)
  {
    edges := [];
    var calls := byKey[key].calls;
    for n := 0 to |calls|
      invariant edges == ResolvedEdges(byKey, key, calls[..n])
    {
      assert calls[..n + 1][..n] == calls[..n];
      var target := Target(key, calls[n]);
      if target in byKey {
        edges := edges + [Edge(target, calls[n].position)];
      }
    }
    assert calls[..|calls|] == calls;
    edges := InOrder(edges);
  }

  lemma BuiltCalls(byKey: map<Key, Source>, graph: Graph, a: Key, b: Key)
    requires IsBuilt(byKey, graph) && graph.Keys == byKey.Keys
    ensures Calls(graph, a, b) <==> Resolves(byKey, a, b)
  {
    if a in byKey {
      assert graph[a] == EdgesOf(byKey, a);
      ResolvedEdgesLead(byKey, a, byKey[a].calls, b);
      InOrderLeads(ResolvedEdges(byKey, a, byKey[a].calls), b);
    }
  }

  /** A component calls another exactly when one of its nodes names it and it exists in the same package. */
  ghost predicate CallsResolve(byKey: map<Key, Source>, graph: Graph) {
    forall a, b {:trigger Calls(graph, a, b)} :: Calls(graph, a, b) <==> Resolves(byKey, a, b)
  }

  lemma OneMoreBuilt(byKey: map<Key, Source>, graph: Graph, key: Key)
    requires IsBuilt(byKey, graph) && key in byKey
    ensures IsBuilt(byKey, graph[key := EdgesOf(byKey, key)])
  {
  }

  lemma BuiltIsResolved(byKey: map<Key, Source>, graph: Graph)
    requires IsBuilt(byKey, graph) && graph.Keys == byKey.Keys
    ensures Resolved(graph) && CallsResolve(byKey, graph)
  {
    forall a, b ensures Calls(graph, a, b) <==> Resolves(byKey, a, b) { BuiltCalls(byKey, graph, a, b); }
  }

  /** The graph that is searched. */
  method BuildGraph(byKey: map<Key, Source>) returns (graph: Graph)
    ensures graph.Keys == byKey.Keys && Resolved(graph) && IsBuilt(byKey, graph)
    ensures CallsResolve(byKey, graph)
  {
    graph := map[];
    var todo := byKey.Keys;
    while todo != {}
      invariant todo <= byKey.Keys && graph.Keys == byKey.Keys - todo && IsBuilt(byKey, graph)
      decreases |todo|
    {
      var key :| key in todo;
      var edges := ResolveCalls(byKey, key);
      OneMoreBuilt(byKey, graph, key);
      graph, todo := graph[key := edges], todo - {key};
    }
    BuiltIsResolved(byKey, graph);
  }

  // ---- The order of the search

  predicate Before(a: Key, b: Key) {
    if a.directory != b.directory then Less(a.directory, b.directory)
    else if a.package != b.package then Less(a.package, b.package)
    else Less(a.name, b.name)
  }

  lemma BeforeIsTotal(a: Key, b: Key)
    ensures a == b || Before(a, b) || Before(b, a)
  {
    LessIsTotal(a.directory, b.directory);
    LessIsTotal(a.package, b.package);
    LessIsTotal(a.name, b.name);
  }

  lemma BeforeIsTransitive(a: Key, b: Key, c: Key)
    requires Before(a, b) && Before(b, c)
    ensures Before(a, c)
  {
    if a.directory == b.directory == c.directory {
      if a.package == b.package == c.package {
        LessIsTransitive(a.name, b.name, c.name);
      } else if a.package != b.package && b.package != c.package {
        LessIsAsymmetric(a.package, b.package);
        LessIsTransitive(a.package, b.package, c.package);
      }
    } else if a.directory != b.directory && b.directory != c.directory {
      LessIsAsymmetric(a.directory, b.directory);
      LessIsTransitive(a.directory, b.directory, c.directory);
    }
  }

  predicate AllBefore(s: seq<Key>, key: Key) { forall k | k in s :: Before(k, key) }

  /** Strictly in order. */
  predicate IsSequence(s: seq<Key>) {
    s == [] || (IsSequence(s[..|s| - 1]) && AllBefore(s[..|s| - 1], s[|s| - 1]))
  }

  /** The keys of the graph in their order. */
  ghost predicate IsOrdering(graph: Graph, keys: seq<Key>) { IsSequence(keys) && IsSearchable(graph, keys) }

  function Inserted(s: seq<Key>, key: Key): (r: seq<Key>)
    ensures |r| == |s| + 1 && forall k :: k in r <==> k in s || k == key
  {
    if s == [] || Before(s[|s| - 1], key) then s + [key]
    else
      LastApart(s);
      Inserted(s[..|s| - 1], key) + [s[|s| - 1]]
  }

  lemma OneMoreInSequence(s: seq<Key>, key: Key)
    requires IsSequence(s) && AllBefore(s, key)
    ensures IsSequence(s + [key])
  {
    assert (s + [key])[..|s|] == s;
  }

  lemma BeforeAll(s: seq<Key>, key: Key)
    requires IsSequence(s) && (s == [] || Before(s[|s| - 1], key))
    ensures AllBefore(s, key)
  {
    forall k | k in s ensures Before(k, key) {
      var last := s[|s| - 1];
      LastApart(s);
      if k != last { BeforeIsTransitive(k, last, key); }
    }
  }

  lemma {:induction false} InsertedIsSequence(s: seq<Key>, key: Key)
    requires IsSequence(s) && key !in s
    ensures IsSequence(Inserted(s, key))
  {
    if s == [] || Before(s[|s| - 1], key) {
      BeforeAll(s, key);
      OneMoreInSequence(s, key);
    } else {
      var t, last := s[..|s| - 1], s[|s| - 1];
      InsertedIsSequence(t, key);
      BeforeIsTotal(key, last);
      OneMoreInSequence(Inserted(t, key), last);
    }
  }

  /** The keys in their order. */
  method Sequence(keys: set<Key>) returns (s: seq<Key>)
    ensures IsSequence(s) && forall k :: k in s <==> k in keys
  {
    s := [];
    var todo := keys;
    while todo != {}
      invariant todo <= keys && IsSequence(s) && forall k :: k in s <==> k in keys - todo
      decreases |todo|
    {
      var key :| key in todo;
      InsertedIsSequence(s, key);
      s, todo := Inserted(s, key), todo - {key};
    }
  }

  /** detectComponentCycles: the whole of it, over the compiled files. */
  method DetectComponentCycles(files: seq<Source>)
    returns (duplicates: seq<Duplicate>, reports: seq<Report>, byKey: map<Key, Source>, graph: Graph, keys: seq<Key>)
    ensures duplicates == Duplicates(files) && (duplicates == [] <==> AreDistinct(files, |files|))
    ensures IsIndex(files, |files|, byKey) && IsBuilt(byKey, graph)
    ensures CallsResolve(byKey, graph)
    ensures IsOrdering(graph, keys) && AreExact(graph, keys, reports)
  {
    byKey, duplicates := IndexSources(files);
    graph := BuildGraph(byKey);
    keys := Sequence(graph.Keys);
    reports := DetectCycles(graph, keys);
  }
}
