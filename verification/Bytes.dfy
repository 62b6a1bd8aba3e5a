/** A string that stands inside another. */
module Bytes {
  import opened Sequences

  /** `w` stands in `s` at `i`. */
  predicate Holds(s: string, i: nat, w: string) { i + |w| <= |s| && forall j | 0 <= j < |w| :: s[i + j] == w[j] }

  lemma HoldsParts(s: string, i: nat, a: string, b: string)
    requires Holds(s, i, a + b)
    ensures Holds(s, i, a) && Holds(s, i + |a|, b)
  {
    forall j | 0 <= j < |a| ensures s[i + j] == a[j] {
      assert (a + b)[j] == a[j];
    }
    forall j | 0 <= j < |b| ensures s[i + |a| + j] == b[j] {
      assert (a + b)[|a| + j] == b[j] && s[i + (|a| + j)] == (a + b)[|a| + j];
    }
  }

  lemma SliceOfHolds(s: string, i: nat, w: string)
    requires Holds(s, i, w)
    ensures s[i..i + |w|] == w
  {
  }

  lemma MiddleHolds(before: string, w: string, rest: string)
    ensures Holds(before + (w + rest), |before|, w)
    ensures (before + w) + rest == before + (w + rest)
  {
    Associate(before, w, rest);
  }
}
