/** The largest-remainder rule: dividing an amount in proportion to integer weights, to the last unit. */
module LargestRemainder {
  import opened Arithmetic
  import opened Sums
  import Sorting

  ghost predicate Weights(ws: seq<int>) {
    |ws| > 0 && forall i :: 0 <= i < |ws| ==> ws[i] > 0
  }

  lemma {:induction false} SumPositive(ws: seq<int>)
    requires forall i :: 0 <= i < |ws| ==> ws[i] > 0
    ensures Sum(ws) >= |ws|
    ensures forall i :: 0 <= i < |ws| ==> ws[i] <= Sum(ws)
  {
    if ws != [] {
      SumPositive(ws[..|ws| - 1]);
      forall i | 0 <= i < |ws| ensures ws[i] <= Sum(ws) {
        if i < |ws| - 1 { assert ws[i] == ws[..|ws| - 1][i]; }
      }
    }
  }

  /** The whole units of amount*ws[i]/total, and what is left of that product. */
  function Quota(amount: int, ws: seq<int>, i: nat): (r: int)
    requires i < |ws| && Sum(ws) > 0
  {
    amount * ws[i] / Sum(ws)
  }

  function Rest(amount: int, ws: seq<int>, i: nat): (r: int)
    requires i < |ws| && Sum(ws) > 0
  {
    amount * ws[i] % Sum(ws)
  }

  function Quotas(amount: int, ws: seq<int>): (r: seq<int>)
    requires Sum(ws) > 0
    ensures |r| == |ws|
  {
    seq(|ws|, i requires 0 <= i < |ws| => Quota(amount, ws, i))
  }

  function Rests(amount: int, ws: seq<int>): (r: seq<int>)
    requires Sum(ws) > 0
    ensures |r| == |ws|
  {
    seq(|ws|, i requires 0 <= i < |ws| => Rest(amount, ws, i))
  }

  /** Units not yet given out once everybody has their quota. */
  function Leftover(amount: int, ws: seq<int>): (r: int)
    requires Sum(ws) > 0
  {
    amount - Sum(Quotas(amount, ws))
  }

  /** i is served before j when a spare unit is handed out: larger remainder, or a tie and earlier in the input. */
  predicate Before(amount: int, ws: seq<int>, i: nat, j: nat)
    requires i < |ws| && j < |ws| && Sum(ws) > 0
  {
    Rest(amount, ws, i) > Rest(amount, ws, j) || (Rest(amount, ws, i) == Rest(amount, ws, j) && i < j)
  }

  /** chosen is the set of members that receive a spare unit: as many as there are units, and first in line. */
  ghost predicate Chosen(amount: int, ws: seq<int>, chosen: set<nat>)
    requires Sum(ws) > 0
  {
    && |chosen| == Leftover(amount, ws)
    && (forall i :: i in chosen ==> i < |ws|)
    && (forall i, j :: i in chosen && j !in chosen && 0 <= j < |ws| ==> Before(amount, ws, i, j))
  }

  ghost predicate SharesFor(amount: int, ws: seq<int>, chosen: set<nat>, shares: seq<int>)
    requires Sum(ws) > 0
  {
    && |shares| == |ws|
    && forall i :: 0 <= i < |ws| ==> shares[i] == Quota(amount, ws, i) + if i in chosen then 1 else 0
  }

  ghost predicate IsLargestRemainder(amount: int, ws: seq<int>, shares: seq<int>)
    requires Sum(ws) > 0
  {
    exists chosen: set<nat> :: Chosen(amount, ws, chosen) && SharesFor(amount, ws, chosen, shares)
  }

  // ---------- how many spare units there are ----------

  lemma {:induction false} QuotasAndRests(amount: int, ws: seq<int>, n: nat)
    requires n <= |ws| && Sum(ws) > 0
    ensures Sum(ws) * Sum(Quotas(amount, ws)[..n]) + Sum(Rests(amount, ws)[..n]) == amount * Sum(ws[..n])
  {
    if n > 0 {
      QuotasAndRests(amount, ws, n - 1);
      var qs, rs, total := Quotas(amount, ws), Rests(amount, ws), Sum(ws);
      assert qs[..n][..n - 1] == qs[..n - 1] && rs[..n][..n - 1] == rs[..n - 1] && ws[..n][..n - 1] == ws[..n - 1];
      var q, r := qs[n - 1], rs[n - 1];
      DivMod(amount * ws[n - 1], total);
      MulAdd(total, Sum(qs[..n - 1]), q);
      MulAdd(amount, Sum(ws[..n - 1]), ws[n - 1]);
    }
  }

  function Positive(rs: seq<int>, n: nat): (r: set<nat>)
    requires n <= |rs|
    ensures forall i :: i in r <==> 0 <= i < n && rs[i] > 0
  {
    if n == 0 then {} else Positive(rs, n - 1) + if rs[n - 1] > 0 then {n - 1} else {}
  }

  lemma PositiveNext(rs: seq<int>, n: nat)
    requires 0 < n <= |rs|
    ensures |Positive(rs, n)| == |Positive(rs, n - 1)| + if rs[n - 1] > 0 then 1 else 0
  {}

  lemma {:induction false} BoundedSum(rs: seq<int>, bound: int, n: nat)
    requires n <= |rs| && bound > 0
    requires forall i :: 0 <= i < |rs| ==> 0 <= rs[i] < bound
    ensures 0 <= Sum(rs[..n]) <= bound * |Positive(rs, n)|
    ensures |Positive(rs, n)| > 0 ==> Sum(rs[..n]) < bound * |Positive(rs, n)|
  {
    if n == 0 {
      assert |Positive(rs, 0)| == 0;
    } else {
      hide Sum, Positive;
      BoundedSum(rs, bound, n - 1);
      SumNext(rs, n);
      PositiveNext(rs, n);
      MulAdd(bound, |Positive(rs, n - 1)|, 1);
    }
  }

  /** The members whose exact share is not a whole number of units. */
  function Fractional(amount: int, ws: seq<int>): (r: set<nat>)
    requires Sum(ws) > 0
  {
    Positive(Rests(amount, ws), |ws|)
  }

  lemma {:induction false} RemaindersMakeLeftover(amount: int, ws: seq<int>)
    requires Sum(ws) > 0
    ensures Sum(ws) * Leftover(amount, ws) == Sum(Rests(amount, ws))
  {
    QuotasAndRests(amount, ws, |ws|);
    assert Rests(amount, ws)[..|ws|] == Rests(amount, ws) && ws[..|ws|] == ws;
    assert Quotas(amount, ws)[..|ws|] == Quotas(amount, ws);
    MulAdd(Sum(ws), amount, Sum(Quotas(amount, ws)));
  }

  lemma RestsBounded(amount: int, ws: seq<int>)
    requires Sum(ws) > 0
    ensures forall i :: 0 <= i < |ws| ==> 0 <= Rests(amount, ws)[i] < Sum(ws)
  {}

  lemma MultipleBelow(total: int, left: int, live: nat, sum: int)
    requires total > 0 && total * left == sum
    requires 0 <= sum <= total * live && (live > 0 ==> sum < total * live)
    ensures 0 <= left && (left < live || left == live == 0)
  {
    if left < 0 { MulMono(total, left, -1); }
    if left >= live { MulMono(total, live, left); }
  }

  lemma FractionalAreMembers(amount: int, ws: seq<int>)
    requires Sum(ws) > 0
    ensures |Fractional(amount, ws)| <= |ws|
    ensures |Fractional(amount, ws)| == 0 ==> Fractional(amount, ws) == {}
  {
    hide Sum, Rest, Positive;
    Sorting.SubsetCardinality(Fractional(amount, ws), Sorting.Range(|ws|));
  }

  /** The spare units are fewer than the members with a nonzero remainder, unless there are neither. */
  lemma LeftoverBound(amount: int, ws: seq<int>)
    requires Weights(ws) && Sum(ws) > 0
    ensures 0 <= Leftover(amount, ws) < |ws|
    ensures Leftover(amount, ws) < |Fractional(amount, ws)| || (Leftover(amount, ws) == 0 && Fractional(amount, ws) == {})
  {
    hide Sum, Rest, Quota, Leftover, Positive;
    var rs := Rests(amount, ws);
    RemaindersMakeLeftover(amount, ws);
    RestsBounded(amount, ws);
    BoundedSum(rs, Sum(ws), |ws|);
    assert rs[..|ws|] == rs;
    MultipleBelow(Sum(ws), Leftover(amount, ws), |Fractional(amount, ws)|, Sum(rs));
    FractionalAreMembers(amount, ws);
  }

  // ---------- exactness ----------

  lemma ChosenBelow(chosen: set<nat>, n: nat)
    requires n > 0
    ensures |chosen * Sorting.Range(n)| == |chosen * Sorting.Range(n - 1)| + if n - 1 in chosen then 1 else 0
  {
    if n - 1 in chosen {
      assert chosen * Sorting.Range(n) == chosen * Sorting.Range(n - 1) + {n - 1};
    } else {
      assert chosen * Sorting.Range(n) == chosen * Sorting.Range(n - 1);
    }
  }

  lemma {:induction false} SumOfShares(amount: int, ws: seq<int>, chosen: set<nat>, shares: seq<int>, n: nat)
    requires Sum(ws) > 0 && SharesFor(amount, ws, chosen, shares) && n <= |ws|
    ensures Sum(shares[..n]) == Sum(Quotas(amount, ws)[..n]) + |chosen * Sorting.Range(n)|
  {
    hide Sorting.Range, Quota;
    if n > 0 {
      SumOfShares(amount, ws, chosen, shares, n - 1);
      SumNext(shares, n);
      SumNext(Quotas(amount, ws), n);
      ChosenBelow(chosen, n);
    } else {
      assert chosen * Sorting.Range(0) == {};
    }
  }

  /** The shares add up to the amount, with no unit lost or invented. */
  lemma SharesSumToAmount(amount: int, ws: seq<int>, shares: seq<int>)
    requires Sum(ws) > 0 && IsLargestRemainder(amount, ws, shares)
    ensures Sum(shares) == amount
  {
    var chosen: set<nat> :| Chosen(amount, ws, chosen) && SharesFor(amount, ws, chosen, shares);
    var n := |ws|;
    SumOfShares(amount, ws, chosen, shares, n);
    assert shares[..n] == shares && Quotas(amount, ws)[..n] == Quotas(amount, ws);
    assert chosen * Sorting.Range(n) == chosen;
  }

  /** No spare unit goes to a member whose exact share is whole. */
  lemma WholeSharesGetNothing(amount: int, ws: seq<int>, chosen: set<nat>, i: nat)
    requires Weights(ws) && Sum(ws) > 0 && Chosen(amount, ws, chosen) && i < |ws| && Rest(amount, ws, i) == 0
    ensures i !in chosen
  {
    if i in chosen {
      var live := Fractional(amount, ws);
      forall k | k in live ensures k in chosen - {i} {
        if k !in chosen && !Before(amount, ws, i, k) { assert false; }
      }
      Sorting.SubsetCardinality(live, chosen - {i});
      LeftoverBound(amount, ws);
    }
  }

  lemma ShareIsQuotaOrOneMore(amount: int, ws: seq<int>, shares: seq<int>, i: nat)
    requires Weights(ws) && Sum(ws) > 0 && IsLargestRemainder(amount, ws, shares) && i < |ws|
    ensures |shares| == |ws|
    ensures shares[i] == Quota(amount, ws, i) || (shares[i] == Quota(amount, ws, i) + 1 && Rest(amount, ws, i) > 0)
  {
    var chosen: set<nat> :| Chosen(amount, ws, chosen) && SharesFor(amount, ws, chosen, shares);
    DivMod(amount * ws[i], Sum(ws));
    if Rest(amount, ws, i) == 0 { WholeSharesGetNothing(amount, ws, chosen, i); }
  }

  /** The quota rule: a share is its exact proportion rounded down or up, and not rounded at all when it is whole. */
  lemma QuotaRule(amount: int, ws: seq<int>, shares: seq<int>, i: nat)
    requires Weights(ws) && Sum(ws) > 0 && IsLargestRemainder(amount, ws, shares) && i < |ws|
    ensures |shares| == |ws|
    ensures Sum(ws) * (shares[i] - 1) < amount * ws[i] < Sum(ws) * (shares[i] + 1)
    ensures Rest(amount, ws, i) == 0 ==> Sum(ws) * shares[i] == amount * ws[i]
    ensures amount >= 0 ==> 0 <= shares[i] <= amount
  {
    hide IsLargestRemainder, Sum;
    ShareIsQuotaOrOneMore(amount, ws, shares, i);
    SumPositive(ws);
    RoundedShare(amount * ws[i], Sum(ws), shares[i]);
    if amount >= 0 { WholeShare(amount, ws[i], Sum(ws), Quota(amount, ws, i), Rest(amount, ws, i), shares[i]); }
  }

  lemma RoundedShare(p: int, total: int, share: int)
    requires total > 0 && (share == p / total || (share == p / total + 1 && p % total > 0))
    ensures total * (share - 1) < p < total * (share + 1)
    ensures p % total == 0 ==> total * share == p
  {
    DivMod(p, total);
    MulAdd(total, p / total, 1);
    MulAdd(total, p / total, 2);
    MulAdd(total, share, 1);
  }

  lemma WholeShare(amount: int, w: int, total: int, q: int, r: int, share: int)
    requires amount >= 0 && 0 < w <= total && 0 <= r < total
    requires q == amount * w / total && r == amount * w % total
    requires share == q || (share == q + 1 && r > 0)
    ensures 0 <= share <= amount
  {
    DivMod(amount * w, total);
    MulMono(amount, w, total);
    MulSign(amount, w);
    if q < 0 {
      MulMono(total, q, -1);
    } else if q >= amount {
      MulMono(total, amount, q);
      if q > amount { MulMono(total, amount + 1, q); }
    }
  }

  // ---------- optimality ----------

  function Abs(x: int): (r: nat)
  {
    if x < 0 then -x else x
  }

  /** How far a proposed division is from exact proportionality, in units of 1/total. */
  function Distance(amount: int, ws: seq<int>, xs: seq<int>): (r: nat)
    requires |xs| <= |ws|
  {
    if xs == [] then 0
    else Distance(amount, ws, xs[..|xs| - 1]) + Abs(Sum(ws) * xs[|xs| - 1] - amount * ws[|xs| - 1])
  }

  lemma LinearDeviation(total: int, r: int, rho: int, up: bool, above: bool, kt: int, kr: int)
    requires 0 <= r < total && 0 <= rho <= total
    requires if up then rho <= r else r <= rho
    requires if above then kt >= total && kr >= rho else kt <= 0 && kt <= kr
    ensures up ==> Abs(kt - r) >= Abs(total - r) + (kt - 2 * kr) - (total - 2 * rho)
    ensures !up ==> Abs(kt - r) >= Abs(0 - r) + (kt - 2 * kr)
  {}

  lemma DeviationPrice(total: int, rho: int, k: int)
    ensures k * (total - 2 * rho) == total * k - 2 * (rho * k)
    ensures (k - 1) * (total - 2 * rho) == total * k - 2 * (rho * k) - (total - 2 * rho)
  {
    MulAdd(total - 2 * rho, k, 1);
    MulAdd(k, total, 2 * rho);
  }

  lemma DeviationBounds(total: int, rho: int, k: int)
    requires 0 <= rho <= total
    ensures if k >= 1 then total * k >= total && rho * k >= rho else total * k <= 0 && total * k <= rho * k
  {
    if k >= 1 {
      MulMono(total, 1, k);
      MulMono(rho, 1, k);
    } else {
      MulMono(total, k, 0);
      MulMono(total - rho, k, 0);
      MulAdd(k, total, rho);
    }
  }

  /** The price of deviating by k units from the quota, at a common price per unit, when the rule rounds down or up. */
  lemma CheapestDeviation(total: int, r: int, rho: int, up: bool, k: int)
    requires 0 <= r < total && 0 <= rho <= total
    requires if up then rho <= r else r <= rho
    ensures var s := if up then 1 else 0;
            Abs(total * k - r) >= Abs(total * s - r) + (k - s) * (total - 2 * rho)
  {
    hide Abs;
    DeviationBounds(total, rho, k);
    DeviationPrice(total, rho, k);
    LinearDeviation(total, r, rho, up, k >= 1, total * k, rho * k);
  }

  lemma CheapestShare(total: int, p: int, rho: int, up: bool, x: int)
    requires 0 < total && 0 <= rho <= total
    requires if up then rho <= p % total else p % total <= rho
    ensures var s := p / total + if up then 1 else 0;
            Abs(total * x - p) >= Abs(total * s - p) + (x - s) * (total - 2 * rho)
  {
    DivMod(p, total);
    MulAdd(total, x, p / total);
    MulAdd(total, 1, p / total);
    CheapestDeviation(total, p % total, rho, up, x - p / total);
  }

  /** A remainder level that separates the chosen members from the others. */
  lemma Threshold(amount: int, ws: seq<int>, chosen: set<nat>) returns (rho: int)
    requires Sum(ws) > 0 && Chosen(amount, ws, chosen)
    ensures 0 <= rho <= Sum(ws)
    ensures forall i :: i in chosen ==> rho <= Rest(amount, ws, i)
    ensures forall j :: 0 <= j < |ws| && j !in chosen ==> Rest(amount, ws, j) <= rho
  {
    if chosen == {} {
      rho := Sum(ws);
    } else {
      var last :| last in chosen;
      rho := Rest(amount, ws, last);
      var rest := chosen - {last};
      while rest != {}
        invariant rest <= chosen
        invariant exists i :: i in chosen && Rest(amount, ws, i) == rho
        invariant forall i :: i in chosen - rest ==> rho <= Rest(amount, ws, i)
      {
        var i :| i in rest;
        if Rest(amount, ws, i) < rho { rho := Rest(amount, ws, i); }
        rest := rest - {i};
      }
      assert chosen - rest == chosen;
      var low :| low in chosen && Rest(amount, ws, low) == rho;
      forall j | 0 <= j < |ws| && j !in chosen ensures Rest(amount, ws, j) <= rho {
        assert Before(amount, ws, low, j);
      }
    }
  }

  lemma {:induction false} DistanceGap(amount: int, ws: seq<int>, chosen: set<nat>, shares: seq<int>, xs: seq<int>,
                                       rho: int, n: nat)
    requires Sum(ws) > 0 && SharesFor(amount, ws, chosen, shares)
    requires |xs| == |ws| && n <= |ws| && 0 <= rho <= Sum(ws)
    requires forall i :: i in chosen && i < |ws| ==> rho <= Rest(amount, ws, i)
    requires forall j :: 0 <= j < |ws| && j !in chosen ==> Rest(amount, ws, j) <= rho
    ensures Distance(amount, ws, xs[..n]) - Distance(amount, ws, shares[..n])
            >= (Sum(xs[..n]) - Sum(shares[..n])) * (Sum(ws) - 2 * rho)
  {
    if n > 0 {
      var i, price := n - 1, Sum(ws) - 2 * rho;
      DistanceGap(amount, ws, chosen, shares, xs, rho, i);
      assert xs[..n][..i] == xs[..i] && shares[..n][..i] == shares[..i];
      CheapestShare(Sum(ws), amount * ws[i], rho, i in chosen, xs[i]);
      var a, b := Sum(xs[..i]) - Sum(shares[..i]), xs[i] - shares[i];
      GapAdds(price, a, b, Sum(xs[..n]) - Sum(shares[..n]));
    }
  }

  lemma GapAdds(price: int, a: int, b: int, c: int)
    requires c == a + b
    ensures c * price == a * price + b * price
  {}

  /** No way of dividing the same amount into integers is closer to proportionality. */
  lemma Optimal(amount: int, ws: seq<int>, shares: seq<int>, xs: seq<int>)
    requires Sum(ws) > 0 && IsLargestRemainder(amount, ws, shares)
    requires |xs| == |ws| && Sum(xs) == amount
    ensures |shares| == |ws|
    ensures Distance(amount, ws, shares) <= Distance(amount, ws, xs)
  {
    hide Sum, Quota, Rest, Before, Distance;
    var chosen: set<nat> :| Chosen(amount, ws, chosen) && SharesFor(amount, ws, chosen, shares);
    var rho := Threshold(amount, ws, chosen);
    SharesSumToAmount(amount, ws, shares);
    assert xs[..|ws|] == xs && shares[..|ws|] == shares;
    DistanceGap(amount, ws, chosen, shares, xs, rho, |ws|);
    GapAdds(Sum(ws) - 2 * rho, 0, 0, 0);
  }

  // ---------- the rule determines the shares ----------

  lemma OneBefore(amount: int, ws: seq<int>, i: nat, j: nat)
    requires i < |ws| && j < |ws| && Sum(ws) > 0
    ensures !(Before(amount, ws, i, j) && Before(amount, ws, j, i))
  {}

  lemma Unique(amount: int, ws: seq<int>, s1: seq<int>, s2: seq<int>)
    requires Sum(ws) > 0 && IsLargestRemainder(amount, ws, s1) && IsLargestRemainder(amount, ws, s2)
    ensures s1 == s2
  {
    var c1: set<nat> :| Chosen(amount, ws, c1) && SharesFor(amount, ws, c1, s1);
    var c2: set<nat> :| Chosen(amount, ws, c2) && SharesFor(amount, ws, c2, s2);
    if !(c1 <= c2) && !(c2 <= c1) {
      var i :| i in c1 && i !in c2;
      var j :| j in c2 && j !in c1;
      OneBefore(amount, ws, i, j);
    }
    if c1 <= c2 { Sorting.SubsetCardinality(c1, c2); } else { Sorting.SubsetCardinality(c2, c1); }
    assert c1 == c2;
  }

  // ---------- fairness ----------

  lemma QuotaMonotone(amount: int, ws: seq<int>, i: nat, j: nat)
    requires Sum(ws) > 0 && i < |ws| && j < |ws| && amount >= 0 && ws[i] >= ws[j]
    ensures Quota(amount, ws, i) >= Quota(amount, ws, j)
    ensures Quota(amount, ws, i) == Quota(amount, ws, j) ==> Rest(amount, ws, i) >= Rest(amount, ws, j)
    ensures Quota(amount, ws, i) == Quota(amount, ws, j) && Rest(amount, ws, i) == Rest(amount, ws, j) && amount > 0
            ==> ws[i] == ws[j]
  {
    var total, p, q := Sum(ws), amount * ws[i], amount * ws[j];
    MulMono(amount, ws[j], ws[i]);
    DivMod(p, total);
    DivMod(q, total);
    if p / total < q / total { MulMono(total, p / total + 1, q / total); MulAdd(total, p / total, 1); }
    if amount > 0 && ws[i] > ws[j] { MulStrict(amount, ws[j], ws[i]); }
  }

  /** A larger weight never gets less; equal weights differ by one unit at most, in favour of the earlier member. */
  lemma Fair(amount: int, ws: seq<int>, shares: seq<int>, i: nat, j: nat)
    requires Sum(ws) > 0 && amount > 0 && IsLargestRemainder(amount, ws, shares) && i < |ws| && j < |ws|
    ensures |shares| == |ws|
    ensures ws[i] > ws[j] ==> shares[i] >= shares[j]
    ensures ws[i] == ws[j] && i <= j ==> shares[j] <= shares[i] <= shares[j] + 1
  {
    var chosen: set<nat> :| Chosen(amount, ws, chosen) && SharesFor(amount, ws, chosen, shares);
    if ws[i] >= ws[j] {
      QuotaMonotone(amount, ws, i, j);
      if j in chosen && i !in chosen { assert Before(amount, ws, j, i); }
    }
  }

  // ---------- only proportions matter ----------

  function Scale(c: int, ws: seq<int>): (r: seq<int>)
    ensures |r| == |ws|
  {
    seq(|ws|, i requires 0 <= i < |ws| => c * ws[i])
  }

  lemma {:induction false} SumScale(c: int, ws: seq<int>)
    ensures Sum(Scale(c, ws)) == c * Sum(ws)
  {
    if ws != [] {
      SumScale(c, ws[..|ws| - 1]);
      assert Scale(c, ws)[..|ws| - 1] == Scale(c, ws[..|ws| - 1]);
      assert c * (Sum(ws[..|ws| - 1]) + ws[|ws| - 1]) == c * Sum(ws[..|ws| - 1]) + c * ws[|ws| - 1];
    }
  }

  /** Multiplying every weight by the same positive factor changes nobody's share. */
  lemma ScaleInvariant(amount: int, ws: seq<int>, c: int, shares: seq<int>)
    requires Sum(ws) > 0 && c > 0
    ensures Sum(Scale(c, ws)) > 0
    ensures IsLargestRemainder(amount, ws, shares) <==> IsLargestRemainder(amount, Scale(c, ws), shares)
  {
    var vs := Scale(c, ws);
    SumScale(c, ws);
    forall i | 0 <= i < |ws|
      ensures Quota(amount, vs, i) == Quota(amount, ws, i)
      ensures Rest(amount, vs, i) == c * Rest(amount, ws, i)
    {
      assert amount * vs[i] == c * (amount * ws[i]);
      DivisionScales(c, amount * ws[i], Sum(ws));
    }
    assert Quotas(amount, vs) == Quotas(amount, ws);
    forall i: nat, j: nat | i < |ws| && j < |ws|
      ensures Before(amount, vs, i, j) <==> Before(amount, ws, i, j)
    {
      var a, b := Rest(amount, ws, i), Rest(amount, ws, j);
      if a > b { MulStrict(c, b, a); }
      if a < b { MulStrict(c, a, b); }
    }
    forall chosen: set<nat>
      ensures Chosen(amount, vs, chosen) <==> Chosen(amount, ws, chosen)
      ensures SharesFor(amount, vs, chosen, shares) <==> SharesFor(amount, ws, chosen, shares)
    {
    }
  }
}
