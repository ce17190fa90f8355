/** Sums over sequences and over finite sets, with the laws the money proofs need. */
module Sums {

  function Sum(s: seq<int>): (r: int) {
    if s == [] then 0 else Sum(s[..|s| - 1]) + s[|s| - 1]
  }

  lemma SumNext(s: seq<int>, n: nat)
    requires 0 < n <= |s|
    ensures Sum(s[..n]) == Sum(s[..n - 1]) + s[n - 1]
  {
    assert s[..n][..n - 1] == s[..n - 1];
  }

  /** The sum of f over a finite set, in whatever order its elements are drawn. */
  ghost function SumOver<T>(k: set<T>, f: T -> int): (r: int) {
    if k == {} then 0 else var x :| x in k; f(x) + SumOver(k - {x}, f)
  }

  lemma {:induction false} SumOverRemove<T>(k: set<T>, x: T, f: T -> int)
    requires x in k
    ensures SumOver(k, f) == f(x) + SumOver(k - {x}, f)
    decreases |k|
  {
    var y :| y in k && SumOver(k, f) == f(y) + SumOver(k - {y}, f);
    if y != x {
      SumOverRemove(k - {y}, x, f);
      SumOverRemove(k - {x}, y, f);
      assert k - {y} - {x} == k - {x} - {y};
    }
  }

  lemma {:induction false} SumOverAdd<T>(k: set<T>, f: T -> int, g: T -> int, h: T -> int)
    requires forall x :: x in k ==> h(x) == f(x) + g(x)
    ensures SumOver(k, h) == SumOver(k, f) + SumOver(k, g)
    decreases |k|
  {
    if k != {} {
      var x :| x in k;
      SumOverRemove(k, x, f);
      SumOverRemove(k, x, g);
      SumOverRemove(k, x, h);
      SumOverAdd(k - {x}, f, g, h);
    }
  }

  lemma {:induction false} SumOverTwice<T>(k: set<T>, f: T -> int, g: T -> int, h: T -> int, i: T -> int)
    requires forall x :: x in k ==> 2 * f(x) <= g(x) + h(x) + i(x)
    ensures 2 * SumOver(k, f) <= SumOver(k, g) + SumOver(k, h) + SumOver(k, i)
    decreases |k|
  {
    if k != {} {
      var x :| x in k;
      SumOverRemove(k, x, f);
      SumOverRemove(k, x, g);
      SumOverRemove(k, x, h);
      SumOverRemove(k, x, i);
      SumOverTwice(k - {x}, f, g, h, i);
    }
  }

  /** A function that is c at one point of the set and 0 at the others sums to c. */
  lemma {:induction false} SumOverPoint<T>(k: set<T>, x: T, f: T -> int)
    requires forall y :: y in k && y != x ==> f(y) == 0
    ensures SumOver(k, f) == if x in k then f(x) else 0
    decreases |k|
  {
    if k != {} {
      var y :| y in k && (x in k ==> y == x);
      SumOverRemove(k, y, f);
      SumOverPoint(k - {y}, x, f);
    }
  }
}
