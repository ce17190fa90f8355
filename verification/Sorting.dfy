/** Go's sort.SliceStable and sort.Slice, by their documented contracts. */
module Sorting {

  ghost predicate StrictWeakOrder<T(!new)>(less: (T, T) -> bool) {
    && (forall x, y :: less(x, y) ==> !less(y, x))
    && (forall x, y, z :: !less(x, y) && !less(y, z) ==> !less(x, z))
  }

  predicate Sorted<T>(s: seq<T>, less: (T, T) -> bool) {
    forall i, j :: 0 <= i < j < |s| ==> !less(s[j], s[i])
  }

  /** Position a of s comes before position b in a stable sort: smaller element, or a tie and an earlier position. */
  predicate Precedes<T>(s: seq<T>, less: (T, T) -> bool, a: nat, b: nat)
    requires a < |s| && b < |s|
  {
    less(s[a], s[b]) || (!less(s[b], s[a]) && a < b)
  }

  /** order lists positions of s, each pair of them as a stable sort would place it. */
  ghost predicate OrderedPositions<T>(s: seq<T>, less: (T, T) -> bool, order: seq<nat>) {
    && (forall i :: 0 <= i < |order| ==> order[i] < |s|)
    && (forall i, j :: 0 <= i < j < |order| ==> Precedes(s, less, order[i], order[j]))
  }

  ghost predicate IsStableOrder<T>(s: seq<T>, less: (T, T) -> bool, order: seq<nat>) {
    |order| == |s| && OrderedPositions(s, less, order)
  }

  function Pick<T>(s: seq<T>, order: seq<nat>): (r: seq<T>)
    requires forall i :: 0 <= i < |order| ==> order[i] < |s|
  {
    seq(|order|, i requires 0 <= i < |order| => s[order[i]])
  }

  ghost predicate IsStableSort<T>(s: seq<T>, less: (T, T) -> bool, r: seq<T>) {
    exists order :: IsStableOrder(s, less, order) && r == Pick(s, order)
  }

  lemma PrecedesTotal<T(!new)>(s: seq<T>, less: (T, T) -> bool, a: nat, b: nat, c: nat)
    requires StrictWeakOrder(less) && a < |s| && b < |s| && c < |s|
    ensures !Precedes(s, less, a, a)
    ensures a != b ==> Precedes(s, less, a, b) || Precedes(s, less, b, a)
    ensures Precedes(s, less, a, b) && Precedes(s, less, b, c) ==> Precedes(s, less, a, c)
  {}

  /** Every position occurs in a stable order: distinct positions, as many as there are. */
  lemma StableOrderCovers<T(!new)>(s: seq<T>, less: (T, T) -> bool, order: seq<nat>, p: nat)
    requires StrictWeakOrder(less) && IsStableOrder(s, less, order) && p < |s|
    ensures p in order
  {
    forall i, j | 0 <= i < j < |order|
      ensures order[i] != order[j]
    {
      PrecedesTotal(s, less, order[i], order[j], order[i]);
    }
    DistinctCovers(order, |s|, p);
  }

  ghost predicate Distinct<T>(s: seq<T>) {
    forall i, j :: 0 <= i < j < |s| ==> s[i] != s[j]
  }

  lemma {:induction false} DistinctCardinality<T>(s: seq<T>)
    requires Distinct(s)
    ensures |set x | x in s| == |s|
  {
    if s != [] {
      var front := s[..|s| - 1];
      DistinctCardinality(front);
      assert (set x | x in s) == (set x | x in front) + {s[|s| - 1]} by {
        assert s == front + [s[|s| - 1]];
      }
    }
  }

  lemma DistinctCovers(s: seq<nat>, n: nat, p: nat)
    requires |s| == n && p < n
    requires forall i :: 0 <= i < |s| ==> s[i] < n
    requires Distinct(s)
    ensures p in s
  {
    DistinctCardinality(s);
    var all := Range(n);
    var used := set x | x in s;
    assert used <= all;
    if p !in used {
      assert used <= all - {p};
      SubsetCardinality(used, all - {p});
    }
  }

  function Range(n: nat): (r: set<nat>)
    ensures |r| == n
    ensures forall x :: x in r <==> 0 <= x < n
  {
    if n == 0 then {} else Range(n - 1) + {n - 1}
  }

  lemma {:induction false} SubsetCardinality<T>(a: set<T>, b: set<T>)
    requires a <= b
    ensures |a| <= |b|
    ensures |a| == |b| ==> a == b
  {
    if a != {} {
      var x :| x in a;
      SubsetCardinality(a - {x}, b - {x});
    }
  }

  /** Two stable orders of one sequence are the same order: the contract determines the result. */
  lemma {:induction false} StableOrderUnique<T(!new)>(s: seq<T>, less: (T, T) -> bool, o1: seq<nat>, o2: seq<nat>)
    requires StrictWeakOrder(less) && IsStableOrder(s, less, o1) && IsStableOrder(s, less, o2)
    ensures o1 == o2
  {
    forall i | 0 <= i < |s|
      ensures o1[i] == o2[i]
    {
      StableOrderAgree(s, less, o1, o2, i);
    }
  }

  lemma {:induction false} StableOrderAgree<T(!new)>(s: seq<T>, less: (T, T) -> bool, o1: seq<nat>, o2: seq<nat>, i: nat)
    requires StrictWeakOrder(less) && IsStableOrder(s, less, o1) && IsStableOrder(s, less, o2)
    requires i < |s|
    ensures o1[i] == o2[i]
  {
    forall k | 0 <= k < i ensures o1[k] == o2[k] { StableOrderAgree(s, less, o1, o2, k); }
    StableOrderCovers(s, less, o1, o2[i]);
    StableOrderCovers(s, less, o2, o1[i]);
    var a :| 0 <= a < |o1| && o1[a] == o2[i];
    var b :| 0 <= b < |o2| && o2[b] == o1[i];
    PrecedesTotal(s, less, o1[i], o2[i], o1[i]);
    PrecedesTotal(s, less, o2[i], o2[i], o1[i]);
  }

  lemma {:induction false} PickMultiset<T(!new)>(s: seq<T>, less: (T, T) -> bool, order: seq<nat>)
    requires StrictWeakOrder(less) && IsStableOrder(s, less, order)
    ensures multiset(Pick(s, order)) == multiset(s)
  {
    forall i, j | 0 <= i < j < |order| ensures order[i] != order[j] {
      PrecedesTotal(s, less, order[i], order[j], order[i]);
    }
    PickPermutation(s, order);
  }

  lemma MultisetSplit<T>(s: seq<T>, k: nat)
    requires k < |s|
    ensures multiset(s) == multiset(s[..k] + s[k + 1..]) + multiset{s[k]}
  {
    assert s == s[..k] + [s[k]] + s[k + 1..];
  }

  lemma MultisetPeel<T>(s: seq<T>, i: nat, t: seq<T>, j: nat)
    requires multiset(s) == multiset(t) && i < |s| && j < |t| && s[i] == t[j]
    ensures multiset(s[..i] + s[i + 1..]) == multiset(t[..j] + t[j + 1..])
  {
    MultisetSplit(s, i);
    MultisetSplit(t, j);
    var a, b := multiset(s[..i] + s[i + 1..]), multiset(t[..j] + t[j + 1..]);
    assert a == multiset(s) - multiset{s[i]};
    assert b == multiset(t) - multiset{s[i]};
  }

  lemma SameMembers<T>(s: seq<T>, t: seq<T>, x: T)
    requires multiset(s) == multiset(t)
    ensures x in s <==> x in t
  {
    assert x in multiset(s) <==> x in multiset(t);
  }

  /** Reading a sequence along a permutation of its positions permutes its elements. */
  lemma {:induction false} PickPermutation<T>(s: seq<T>, order: seq<nat>)
    requires |order| == |s|
    requires forall i :: 0 <= i < |order| ==> order[i] < |s|
    requires Distinct(order)
    ensures multiset(Pick(s, order)) == multiset(s)
    decreases |s|
  {
    if s == [] {
      assert Pick(s, order) == s;
    } else {
      var n := |s| - 1;
      DistinctCovers(order, |s|, n);
      var k: nat :| k < |order| && order[k] == n;
      var rest := order[..k] + order[k + 1..];
      DistinctWithout(order, k);
      PickWithout(s, order, k);
      PickPermutation(s[..n], rest);
      MultisetSplit(Pick(s, order), k);
      MultisetSplit(s, n);
      assert s[..n] + s[n + 1..] == s[..n];
    }
  }

  lemma DistinctWithout(order: seq<nat>, k: nat)
    requires k < |order| && Distinct(order)
    requires forall i :: 0 <= i < |order| ==> order[i] <= order[k]
    ensures Distinct(order[..k] + order[k + 1..])
    ensures forall i :: 0 <= i < |order| && i != k ==> order[i] < order[k]
    ensures var rest := order[..k] + order[k + 1..]; forall i :: 0 <= i < |rest| ==> rest[i] < order[k]
  {}

  lemma PickWithout<T>(s: seq<T>, order: seq<nat>, k: nat)
    requires |order| == |s| && k < |order|
    requires forall i :: 0 <= i < |order| ==> order[i] < |s|
    requires forall i :: 0 <= i < |order| && i != k ==> order[i] < |s| - 1
    ensures Pick(s, order)[..k] + Pick(s, order)[k + 1..] == Pick(s[..|s| - 1], order[..k] + order[k + 1..])
  {}

  lemma DistinctPermutation<T>(s: seq<T>, t: seq<T>)
    requires multiset(s) == multiset(t) && Distinct(s)
    ensures Distinct(t)
  {
    forall i, j | 0 <= i < j < |t| ensures t[i] != t[j] {
      if t[i] == t[j] {
        assert t == t[..i] + [t[i]] + t[i + 1..j] + [t[j]] + t[j + 1..];
        assert multiset(t)[t[i]] >= 2;
        DistinctOnce(s, t[i]);
      }
    }
  }

  lemma {:induction false} DistinctOnce<T>(s: seq<T>, x: T)
    requires Distinct(s)
    ensures multiset(s)[x] <= 1
  {
    if s != [] {
      var front := s[..|s| - 1];
      assert s == front + [s[|s| - 1]];
      DistinctOnce(front, x);
      if s[|s| - 1] == x { assert x !in front; }
    }
  }

  /** Where the next position belongs among the earlier ones: behind the last that it does not precede. */
  method InsertionPoint<T(!new)>(s: seq<T>, less: (T, T) -> bool, order: seq<nat>) returns (k: nat)
    requires StrictWeakOrder(less) && OrderedPositions(s, less, order) && |order| < |s|
    requires forall i :: 0 <= i < |order| ==> order[i] < |order|
    ensures k <= |order| && OrderedPositions(s, less, order[..k] + [|order|] + order[k..])
  {
    var n := |order|;
    k := n;
    while k > 0 && less(s[n], s[order[k - 1]])
      invariant 0 <= k <= n
      invariant forall i :: k <= i < n ==> less(s[n], s[order[i]])
    {
      k := k - 1;
    }
    hide OrderedPositions, StrictWeakOrder;
    InsertedInOrder(s, less, order, k);
  }

  lemma InsertedInOrder<T(!new)>(s: seq<T>, less: (T, T) -> bool, order: seq<nat>, k: nat)
    requires StrictWeakOrder(less) && OrderedPositions(s, less, order) && k <= |order| < |s|
    requires forall i :: 0 <= i < |order| ==> order[i] < |order|
    requires k == 0 || !less(s[|order|], s[order[k - 1]])
    requires forall i :: k <= i < |order| ==> less(s[|order|], s[order[i]])
    ensures OrderedPositions(s, less, order[..k] + [|order|] + order[k..])
  {
    forall i | 0 <= i < k ensures Precedes(s, less, order[i], |order|) {
      if i < k - 1 { PrecedesTotal(s, less, order[i], order[k - 1], |order|); }
    }
    hide StrictWeakOrder;
  }

  /** sort.SliceStable: equal elements keep their original order. */
  method SliceStable<T(!new)>(s: seq<T>, less: (T, T) -> bool) returns (r: seq<T>)
    requires StrictWeakOrder(less)
    ensures IsStableSort(s, less, r)
    ensures multiset(r) == multiset(s)
  {
    var order: seq<nat> := [];
    for n := 0 to |s|
      invariant |order| == n
      invariant OrderedPositions(s, less, order)
      invariant forall i :: 0 <= i < |order| ==> order[i] < n
    {
      hide OrderedPositions, StrictWeakOrder;
      var k := InsertionPoint(s, less, order);
      order := order[..k] + [n] + order[k..];
    }
    PickMultiset(s, less, order);
    r := Pick(s, order);
  }

  /** sort.Slice: some sorted permutation; nothing is promised about the order of ties. */
  method Slice<T(!new)>(s: seq<T>, less: (T, T) -> bool) returns (r: seq<T>)
    requires StrictWeakOrder(less)
    ensures multiset(r) == multiset(s)
    ensures Sorted(r, less)
  {
    r := SliceStable(s, less);
    ghost var order :| IsStableOrder(s, less, order) && r == Pick(s, order);
    forall i, j | 0 <= i < j < |r| ensures !less(r[j], r[i]) {
      assert Precedes(s, less, order[i], order[j]);
    }
  }
}
