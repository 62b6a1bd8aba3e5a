/** When the development supervisor rebuilds: after the last observed change has been left alone for long enough. */
module Debounce {

  /** A file snapshot gives each watched path a fingerprint. */
  type Snapshot = map<string, int>

  /** What one tick of the loop sees. */
  datatype Tick = Tick(now: int, snapshot: Snapshot)

  datatype Watch = Watch(snapshot: Snapshot, pending: bool, changedAt: int)

  /** The part of the loop body before the build: what is remembered, and whether a build starts. */
  function Observe(w: Watch, t: Tick, delay: int): (Watch, bool) {
    var seen := if w.snapshot == t.snapshot then w else Watch(t.snapshot, true, t.now);
    if seen.pending && t.now - seen.changedAt >= delay then (seen.(pending := false), true) else (seen, false)
  }

  function WatchAfter(initial: Snapshot, ticks: seq<Tick>, n: nat, delay: int): Watch
    requires n <= |ticks|
  {
    if n == 0 then Watch(initial, false, 0) else Observe(WatchAfter(initial, ticks, n - 1, delay), ticks[n - 1], delay).0
  }

  /** A build starts at tick `k`. */
  predicate Builds(initial: Snapshot, ticks: seq<Tick>, k: nat, delay: int)
    requires k < |ticks|
  {
    Observe(WatchAfter(initial, ticks, k, delay), ticks[k], delay).1
  }

  // ---- What that comes to, over whole runs

  /** Tick `k` sees other files than the one before it. */
  predicate Differs(initial: Snapshot, ticks: seq<Tick>, k: nat)
    requires k < |ticks|
  {
    ticks[k].snapshot != if k == 0 then initial else ticks[k - 1].snapshot
  }

  /** The last difference that the ticks before `n` have seen is at `j`. */
  predicate IsLastChange(initial: Snapshot, ticks: seq<Tick>, j: nat, n: nat)
    requires n <= |ticks|
  {
    j < n && Differs(initial, ticks, j) && forall i: nat | j < i < n :: !Differs(initial, ticks, i)
  }

  predicate NoBuild(initial: Snapshot, ticks: seq<Tick>, j: nat, n: nat, delay: int)
    requires n <= |ticks|
  {
    forall i: nat | j <= i < n :: !Builds(initial, ticks, i, delay)
  }

  /** A change that has not been built yet. */
  predicate IsOwed(initial: Snapshot, ticks: seq<Tick>, j: nat, n: nat, delay: int)
    requires n <= |ticks|
  {
    IsLastChange(initial, ticks, j, n) && NoBuild(initial, ticks, j, n, delay)
  }

  /** What the loop remembers: the last snapshot, whether a change is owed a build, and when the last one was. */
  lemma {:induction false} RemembersTheLastChange(initial: Snapshot, ticks: seq<Tick>, n: nat, delay: int) returns (j: nat)
    requires n <= |ticks|
    ensures var w := WatchAfter(initial, ticks, n, delay);
            && w.snapshot == (if n == 0 then initial else ticks[n - 1].snapshot)
            && (w.pending ==> IsOwed(initial, ticks, j, n, delay) && w.changedAt == ticks[j].now)
            && (!w.pending ==> forall i: nat | i < n :: !IsOwed(initial, ticks, i, n, delay))
  {
    j := 0;
    if n > 0 {
      j := RemembersTheLastChange(initial, ticks, n - 1, delay);
      var w := WatchAfter(initial, ticks, n - 1, delay);
      if Differs(initial, ticks, n - 1) { j := n - 1; }
      var v := WatchAfter(initial, ticks, n, delay);
      if !v.pending {
        forall i: nat | i < n ensures !IsOwed(initial, ticks, i, n, delay) {
          OwedEarlier(initial, ticks, i, n, delay);
        }
      }
    }
  }

  lemma OwedEarlier(initial: Snapshot, ticks: seq<Tick>, j: nat, n: nat, delay: int)
    requires j < n <= |ticks|
    ensures IsOwed(initial, ticks, j, n, delay) ==>
              && !Builds(initial, ticks, n - 1, delay)
              && if j == n - 1 then Differs(initial, ticks, j)
                 else IsOwed(initial, ticks, j, n - 1, delay) && !Differs(initial, ticks, n - 1)
  {
  }

  /** A build starts exactly when the last observed change is owed one and has been left alone for `delay`. */
  lemma BuildIsDebounced(initial: Snapshot, ticks: seq<Tick>, k: nat, delay: int)
    requires k < |ticks|
    ensures Builds(initial, ticks, k, delay) <==>
              exists j: nat :: IsDue(initial, ticks, j, k, delay)
  {
    var j := RemembersTheLastChange(initial, ticks, k, delay);
    var w := WatchAfter(initial, ticks, k, delay);
    if Builds(initial, ticks, k, delay) {
      assert IsDue(initial, ticks, if Differs(initial, ticks, k) then k else j, k, delay);
    } else if i: nat :| IsDue(initial, ticks, i, k, delay) {
      assert i < k ==> IsOwed(initial, ticks, i, k, delay);
      OnlyLastChange(initial, ticks, i, j, k);
      assert false;
    }
  }

  /** The change at `j` is the last one that tick `k` knows of, no build has taken it in yet, and it is old enough. */
  predicate IsDue(initial: Snapshot, ticks: seq<Tick>, j: nat, k: nat, delay: int)
    requires k < |ticks|
  {
    && IsLastChange(initial, ticks, j, k + 1) && NoBuild(initial, ticks, j, k, delay)
    && ticks[k].now - ticks[j].now >= delay
  }

  lemma OnlyLastChange(initial: Snapshot, ticks: seq<Tick>, i: nat, j: nat, n: nat)
    requires n <= |ticks|
    ensures IsLastChange(initial, ticks, i, n) && IsLastChange(initial, ticks, j, n) ==> i == j
  {
  }

  /** Between two builds a change has been observed. */
  lemma BuildsAreSeparated(initial: Snapshot, ticks: seq<Tick>, k: nat, m: nat, delay: int)
    requires k < m < |ticks| && Builds(initial, ticks, k, delay) && Builds(initial, ticks, m, delay)
    ensures exists j: nat :: k < j <= m && Differs(initial, ticks, j)
  {
    BuildIsDebounced(initial, ticks, m, delay);
    var j: nat :| IsDue(initial, ticks, j, m, delay);
    assert k < j <= m && Differs(initial, ticks, j);
  }

  /** No change is lost: once a change has been left alone for `delay`, it has been built. */
  lemma NoChangeIsLost(initial: Snapshot, ticks: seq<Tick>, j: nat, k: nat, delay: int)
    requires j <= k < |ticks| && IsLastChange(initial, ticks, j, k + 1) && ticks[k].now - ticks[j].now >= delay
    ensures exists m: nat :: j <= m <= k && Builds(initial, ticks, m, delay)
  {
    if NoBuild(initial, ticks, j, k, delay) {
      assert IsDue(initial, ticks, j, k, delay);
      BuildIsDebounced(initial, ticks, k, delay);
      assert j <= k <= k && Builds(initial, ticks, k, delay);
    }
  }
}
