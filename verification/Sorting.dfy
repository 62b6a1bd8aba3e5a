/** Stable sorting of records by a string key. */
module Sorting {
  import opened Sequences

  /** Go's order on strings, character by character. */
  predicate Less(a: string, b: string) {
    b != "" && (a == "" || a[0] < b[0] || (a[0] == b[0] && Less(a[1..], b[1..])))
  }

  datatype Keyed<+T> = Keyed(key: string, item: T)

  /** `x` after every record whose key is not greater. */
  function Insert<T>(s: seq<Keyed<T>>, x: Keyed<T>): seq<Keyed<T>> {
    if s == [] || !Less(x.key, s[|s| - 1].key) then s + [x] else Insert(s[..|s| - 1], x) + [s[|s| - 1]]
  }

  function StableSort<T>(s: seq<Keyed<T>>): seq<Keyed<T>> {
    if s == [] then [] else Insert(StableSort(s[..|s| - 1]), s[|s| - 1])
  }

  predicate SameKeys<A, B>(s: seq<Keyed<A>>, t: seq<Keyed<B>>) {
    |s| == |t| && forall i | 0 <= i < |s| :: s[i].key == t[i].key
  }

  function Zip<A, B>(s: seq<Keyed<A>>, t: seq<Keyed<B>>): (z: seq<Keyed<(A, B)>>)
    requires SameKeys(s, t)
    ensures |z| == |s| && forall i | 0 <= i < |s| :: z[i] == Keyed(s[i].key, (s[i].item, t[i].item))
  {
    if s == [] then []
    else
      var n := |s| - 1;
      Zip(s[..n], t[..n]) + [Keyed(s[n].key, (s[n].item, t[n].item))]
  }

  function Pair<A, B>(x: Keyed<A>, y: Keyed<B>): Keyed<(A, B)> { Keyed(x.key, (x.item, y.item)) }

  lemma ZipSnoc<A, B>(s: seq<Keyed<A>>, x: Keyed<A>, t: seq<Keyed<B>>, y: Keyed<B>)
    requires SameKeys(s, t) && x.key == y.key
    ensures SameKeys(s + [x], t + [y]) && Zip(s + [x], t + [y]) == Zip(s, t) + [Pair(x, y)]
  {
    assert (s + [x])[..|s|] == s && (t + [y])[..|t|] == t;
  }

  lemma InsertBelow<T>(s: seq<Keyed<T>>, last: Keyed<T>, x: Keyed<T>)
    requires Less(x.key, last.key)
    ensures Insert(s + [last], x) == Insert(s, x) + [last]
  {
    assert (s + [last])[..|s|] == s;
  }

  lemma InsertAtEnd<T>(s: seq<Keyed<T>>, x: Keyed<T>)
    requires s == [] || !Less(x.key, s[|s| - 1].key)
    ensures Insert(s, x) == s + [x]
  {
  }

  /** The pairs of two lists stay pairs when a record is inserted into both. */
  ghost predicate InsertsAlike<A, B>(s: seq<Keyed<A>>, x: Keyed<A>, t: seq<Keyed<B>>, y: Keyed<B>)
    requires SameKeys(s, t)
  {
    && SameKeys(Insert(s, x), Insert(t, y))
    && Zip(Insert(s, x), Insert(t, y)) == Insert(Zip(s, t), Pair(x, y))
  }

  lemma PairsAtEnd<A, B>(s: seq<Keyed<A>>, x: Keyed<A>, t: seq<Keyed<B>>, y: Keyed<B>)
    requires SameKeys(s, t) && x.key == y.key && (s == [] || !Less(x.key, s[|s| - 1].key))
    ensures InsertsAlike(s, x, t, y)
  {
    InsertAtEnd(s, x);
    InsertAtEnd(t, y);
    ZipSnoc(s, x, t, y);
    InsertAtEnd(Zip(s, t), Pair(x, y));
  }

  lemma {:induction false} InsertKeepsPairs<A, B>(s: seq<Keyed<A>>, x: Keyed<A>, t: seq<Keyed<B>>, y: Keyed<B>)
    requires SameKeys(s, t) && x.key == y.key
    ensures InsertsAlike(s, x, t, y)
  {
    if s == [] || !Less(x.key, s[|s| - 1].key) {
      PairsAtEnd(s, x, t, y);
    } else {
      var n := |s| - 1;
      var s', t' := s[..n], t[..n];
      InsertKeepsPairs(s', x, t', y);
      PairsBelow(s, s', s[n], x, t, t', t[n], y);
    }
  }

  lemma PairsBelow<A, B>(s: seq<Keyed<A>>, s': seq<Keyed<A>>, c: Keyed<A>, x: Keyed<A>,
                         t: seq<Keyed<B>>, t': seq<Keyed<B>>, d: Keyed<B>, y: Keyed<B>)
    requires s == s' + [c] && t == t' + [d] && SameKeys(s', t')
    requires x.key == y.key && c.key == d.key && Less(x.key, c.key)
    requires InsertsAlike(s', x, t', y)
    ensures SameKeys(s, t) && InsertsAlike(s, x, t, y)
  {
    InsertBelow(s', c, x);
    InsertBelow(t', d, y);
    ZipSnoc(s', c, t', d);
    InsertBelow(Zip(s', t'), Pair(c, d), Pair(x, y));
    ZipSnoc(Insert(s', x), c, Insert(t', y), d);
  }

  /** Two lists with the same keys are sorted alike: what stood side by side still does. */
  lemma {:induction false} SortKeepsPairs<A, B>(s: seq<Keyed<A>>, t: seq<Keyed<B>>)
    requires SameKeys(s, t)
    ensures SameKeys(StableSort(s), StableSort(t))
    ensures Zip(StableSort(s), StableSort(t)) == StableSort(Zip(s, t))
  {
    if s != [] {
      var n := |s| - 1;
      SortKeepsPairs(s[..n], t[..n]);
      InsertKeepsPairs(StableSort(s[..n]), s[n], StableSort(t[..n]), t[n]);
      assert Zip(s, t)[..n] == Zip(s[..n], t[..n]);
    }
  }

  lemma {:induction false} InsertKeepsMembers<T>(s: seq<Keyed<T>>, x: Keyed<T>)
    ensures multiset(Insert(s, x)) == multiset(s) + multiset{x}
  {
    if s == [] || !Less(x.key, s[|s| - 1].key) {
    } else {
      var n := |s| - 1;
      InsertKeepsMembers(s[..n], x);
      LastApart(s);
    }
  }

  /** Sorting only reorders. */
  lemma {:induction false} SortKeepsMembers<T>(s: seq<Keyed<T>>)
    ensures multiset(StableSort(s)) == multiset(s)
  {
    if s != [] {
      var n := |s| - 1;
      SortKeepsMembers(s[..n]);
      InsertKeepsMembers(StableSort(s[..n]), s[n]);
      LastApart(s);
    }
  }

  lemma {:induction false} LessIsAsymmetric(a: string, b: string)
    requires Less(a, b)
    ensures !Less(b, a)
  {
    if a != "" && a[0] == b[0] { LessIsAsymmetric(a[1..], b[1..]); }
  }

  predicate IsSorted<T>(s: seq<Keyed<T>>) { forall i | 0 < i < |s| :: !Less(s[i].key, s[i - 1].key) }

  lemma {:induction false} InsertKeepsSorted<T>(s: seq<Keyed<T>>, x: Keyed<T>)
    requires IsSorted(s)
    ensures IsSorted(Insert(s, x))
    ensures |Insert(s, x)| == |s| + 1
    ensures Insert(s, x)[|s|].key == if s == [] || !Less(x.key, s[|s| - 1].key) then x.key else s[|s| - 1].key
  {
    if s != [] && Less(x.key, s[|s| - 1].key) {
      var n := |s| - 1;
      var s' := s[..n];
      InsertKeepsSorted(s', x);
      LessIsAsymmetric(x.key, s[n].key);
      assert n > 0 ==> s'[n - 1] == s[n - 1];
    }
  }

  /** And the result is in order. */
  lemma {:induction false} SortSorts<T>(s: seq<Keyed<T>>)
    ensures IsSorted(StableSort(s))
  {
    if s != [] {
      SortSorts(s[..|s| - 1]);
      InsertKeepsSorted(StableSort(s[..|s| - 1]), s[|s| - 1]);
    }
  }

  // ---- The items of sorted records

  function Items<T>(s: seq<Keyed<T>>): (items: seq<T>)
    ensures |items| == |s| && forall i | 0 <= i < |s| :: items[i] == s[i].item
  {
    if s == [] then [] else Items(s[..|s| - 1]) + [s[|s| - 1].item]
  }

  lemma {:induction false} InsertKeepsItems<T>(s: seq<Keyed<T>>, x: Keyed<T>)
    ensures multiset(Items(Insert(s, x))) == multiset(Items(s)) + multiset{x.item}
  {
    if s == [] || !Less(x.key, s[|s| - 1].key) {
      ItemsOne(s, x);
    } else {
      var n := |s| - 1;
      InsertKeepsItems(s[..n], x);
      ItemsOne(Insert(s[..n], x), s[n]);
      ItemsOne(s[..n], s[n]);
      LastApart(s);
    }
  }

  lemma ItemsOne<T>(s: seq<Keyed<T>>, x: Keyed<T>)
    ensures Items(s + [x]) == Items(s) + [x.item]
  {
    assert (s + [x])[..|s|] == s;
  }

  /** Sorting loses no item and adds none. */
  lemma {:induction false} SortKeepsItems<T>(s: seq<Keyed<T>>)
    ensures multiset(Items(StableSort(s))) == multiset(Items(s))
  {
    if s != [] {
      SortKeepsItems(s[..|s| - 1]);
      InsertKeepsItems(StableSort(s[..|s| - 1]), s[|s| - 1]);
    }
  }

  // ---- Go's order is a strict total one

  lemma {:induction false} LessIsTransitive(a: string, b: string, c: string)
    requires Less(a, b) && Less(b, c)
    ensures Less(a, c)
  {
    if a != "" && a[0] == b[0] == c[0] { LessIsTransitive(a[1..], b[1..], c[1..]); }
  }

  lemma {:induction false} LessIsTotal(a: string, b: string)
    ensures a == b || Less(a, b) || Less(b, a)
  {
    if a != "" && b != "" && a[0] == b[0] {
      LessIsTotal(a[1..], b[1..]);
      if a[1..] == b[1..] { assert a == [a[0]] + a[1..] && b == [b[0]] + b[1..]; }
    }
  }
}
