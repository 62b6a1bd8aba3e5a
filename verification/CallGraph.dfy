/** Component call graphs and their cycles. */
module CallGraph {
  datatype Key = Key(directory: string, package: string, name: string)

  datatype Position = Position(line: nat, column: nat)

  datatype Edge = Edge(target: Key, position: Position)

  /** The calls of each component, in the order they are followed. */
  type Graph = map<Key, seq<Edge>>

  predicate Leads(edges: seq<Edge>, b: Key) { exists i | 0 <= i < |edges| :: edges[i].target == b }

  predicate Calls(g: Graph, a: Key, b: Key) { a in g && Leads(g[a], b) }

  /** Only components that exist are called. */
  ghost predicate Resolved(g: Graph) { forall a, b | Calls(g, a, b) :: b in g }

  predicate CallsNext(g: Graph, p: seq<Key>, i: int) { 0 <= i < |p| - 1 && Calls(g, p[i], p[i + 1]) }

  predicate IsWalk(g: Graph, p: seq<Key>) {
    forall i {:trigger CallsNext(g, p, i)} | 0 <= i < |p| - 1 :: CallsNext(g, p, i)
  }

  predicate IsCycle(g: Graph, p: seq<Key>) { |p| >= 2 && IsWalk(g, p) && p[0] == p[|p| - 1] }

  ghost predicate OnCycle(g: Graph, k: Key) { exists p :: IsCycle(g, p) && p[0] == k }

  /** Every member of a cycle is on one: turn it around to start there. */
  lemma MemberIsOnCycle(g: Graph, p: seq<Key>, m: nat)
    requires IsCycle(g, p) && m < |p|
    ensures OnCycle(g, p[m])
  {
    var q, n := p[m..] + p[1..m + 1], |p| - m;
    forall i | 0 <= i < |q| - 1 ensures CallsNext(g, q, i) {
      if i < n - 1 {
        assert CallsNext(g, p, m + i);
      } else {
        assert CallsNext(g, p, i - n + 1);
      }
    }
    if m == 0 { assert IsCycle(g, p); } else { assert IsCycle(g, q) && q[0] == p[m]; }
  }

  /** A rank that every call lowers, but for those between two reported components. */
  ghost predicate Ranks(g: Graph, rank: map<Key, nat>, reported: set<Key>) {
    rank.Keys == g.Keys
    && forall a, b | Calls(g, a, b) && b in g :: rank[b] < rank[a] || (a in reported && b in reported)
  }

  /** Some call of the walk is between two reported components. */
  predicate IsMarked(p: seq<Key>, reported: set<Key>) {
    exists m | 0 <= m < |p| - 1 :: p[m] in reported && p[m + 1] in reported
  }

  lemma {:induction false} WalkDescends(g: Graph, rank: map<Key, nat>, reported: set<Key>, p: seq<Key>)
    requires Resolved(g) && Ranks(g, rank, reported) && IsWalk(g, p) && |p| >= 2 && !IsMarked(p, reported)
    ensures p[0] in g && p[|p| - 1] in g && rank[p[|p| - 1]] < rank[p[0]]
  {
    assert CallsNext(g, p, 0);
    if |p| > 2 {
      var q := p[1..];
      forall i | 0 <= i < |q| - 1 ensures CallsNext(g, q, i) && !(q[i] in reported && q[i + 1] in reported) {
        assert CallsNext(g, p, i + 1) && !(p[i + 1] in reported && p[i + 2] in reported);
      }
      WalkDescends(g, rank, reported, q);
    }
  }

  /** In a graph ranked but for calls between reported components, every cycle has such a call. */
  lemma CyclesAreMarked(g: Graph, rank: map<Key, nat>, reported: set<Key>, p: seq<Key>)
    requires Resolved(g) && Ranks(g, rank, reported) && IsCycle(g, p)
    ensures IsMarked(p, reported)
  {
    if !IsMarked(p, reported) { WalkDescends(g, rank, reported, p); }
  }

  /** Components in an order in which every one comes after all it calls, but for calls between reported ones. */
  ghost predicate CallsEarlier(g: Graph, order: seq<Key>, reported: set<Key>) {
    forall i, b | 0 <= i < |order| && Calls(g, order[i], b) ::
      b in order[..i] || (order[i] in reported && b in reported)
  }

  predicate Differ(s: seq<Key>, i: int, j: int) { 0 <= i < j < |s| && s[i] != s[j] }

  predicate Distinct(s: seq<Key>) {
    forall i, j {:trigger Differ(s, i, j)} | 0 <= i < j < |s| :: Differ(s, i, j)
  }

  lemma OneMoreDiffers(s: seq<Key>, k: Key)
    requires Distinct(s) && k !in s
    ensures Distinct(s + [k])
  {
    forall i, j | 0 <= i < j < |s + [k]| ensures Differ(s + [k], i, j) {
      if j < |s| { assert Differ(s, i, j); }
    }
  }

  function IndexIn(order: seq<Key>, k: Key): (i: nat)
    requires k in order
    ensures i < |order| && order[i] == k
  {
    if order[|order| - 1] == k then |order| - 1 else IndexIn(order[..|order| - 1], k)
  }

  lemma OnlyIndex(s: seq<Key>, i: nat)
    requires Distinct(s) && i < |s|
    ensures IndexIn(s, s[i]) == i
  {
    var j := IndexIn(s, s[i]);
    assert Differ(s, i, j) || Differ(s, j, i) || i == j;
  }

  lemma EarlierIsLower(order: seq<Key>, b: Key, i: nat)
    requires Distinct(order) && i <= |order| && b in order[..i]
    ensures IndexIn(order, b) < i
  {
    var j :| 0 <= j < i && order[j] == b;
    OnlyIndex(order, j);
  }

  lemma OrderRanks(g: Graph, order: seq<Key>, reported: set<Key>) returns (rank: map<Key, nat>)
    requires Distinct(order) && CallsEarlier(g, order, reported) && forall k :: k in g <==> k in order
    ensures Ranks(g, rank, reported)
  {
    rank := map k | k in g :: IndexIn(order, k);
    forall a, b | Calls(g, a, b) && b in g && !(a in reported && b in reported) ensures rank[b] < rank[a] {
      EarlierIsLower(order, b, IndexIn(order, a));
    }
  }
}
