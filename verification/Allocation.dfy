/** Splitting a transaction amount among its participants (AllocateShares). */
module Allocation {
  import opened Arithmetic
  import opened Int64
  import opened LargestRemainder
  import opened Sums
  import opened Wrappers
  import Sorting

  datatype SplitType = Ratio | Fixed | Other(name: string)

  datatype SplitAllocation = SplitAllocation(userId: string, splitType: SplitType, splitValue: int64, shareMinor: int64)

  datatype SplitError = EmptySplits | MixedSplitTypes | InvalidSplitValue | FixedSplitTotal

  datatype Remainder = Remainder(index: nat, value: int)

  function Values(splits: seq<SplitAllocation>): (r: seq<int>)
    ensures |r| == |splits|
  {
    seq(|splits|, i requires 0 <= i < |splits| => splits[i].splitValue)
  }

  function Shares(splits: seq<SplitAllocation>): (r: seq<int>)
    ensures |r| == |splits|
  {
    seq(|splits|, i requires 0 <= i < |splits| => splits[i].shareMinor)
  }

  /** What is wrong with entry i, if anything, judged against the entries before it. */
  function EntryError(splits: seq<SplitAllocation>, i: nat): (r: Option<SplitError>)
    requires i < |splits|
  {
    if splits[i].userId == "" || splits[i].splitValue <= 0 then Some(InvalidSplitValue)
    else if exists j :: 0 <= j < i && splits[j].userId == splits[i].userId then Some(InvalidSplitValue)
    else if splits[i].splitType != splits[0].splitType then Some(MixedSplitTypes)
    else None
  }

  ghost predicate WellFormed(splits: seq<SplitAllocation>) {
    forall i :: 0 <= i < |splits| ==> EntryError(splits, i) == None
  }

  ghost predicate FirstError(splits: seq<SplitAllocation>, i: nat, e: SplitError) {
    i < |splits| && EntryError(splits, i) == Some(e) && forall j :: 0 <= j < i ==> EntryError(splits, j) == None
  }

  /** Nothing but the share of each entry is filled in. */
  ghost predicate SameEntries(splits: seq<SplitAllocation>, result: seq<SplitAllocation>) {
    |result| == |splits|
    && forall i :: 0 <= i < |splits| ==> result[i] == splits[i].(shareMinor := result[i].shareMinor)
  }

  /** What a call must answer, for every input: which error comes first, or which shares. */
  ghost predicate Answer(amount: int64, splits: seq<SplitAllocation>, r: Result<seq<SplitAllocation>, SplitError>) {
    if amount <= 0 || |splits| == 0 then r == Err(EmptySplits)
    else if !WellFormed(splits) then r.Err? && exists i :: FirstError(splits, i, r.error)
    else match splits[0].splitType
      case Other(_) => r == Err(InvalidSplitValue)
      case Fixed =>
        if Sum(Values(splits)) != amount then r == Err(FixedSplitTotal)
        else r.Ok? && SameEntries(splits, r.value) && Shares(r.value) == Values(splits)
      case Ratio =>
        && r.Ok? && SameEntries(splits, r.value)
        && Sum(Values(splits)) > 0 && IsLargestRemainder(amount, Values(splits), Shares(r.value))
  }

  predicate LargerRemainder(a: Remainder, b: Remainder) {
    a.value > b.value
  }

  lemma WellFormedWeights(splits: seq<SplitAllocation>)
    requires WellFormed(splits) && |splits| > 0
    ensures Weights(Values(splits)) && Sum(Values(splits)) > 0
    ensures forall i, j :: 0 <= i < j < |splits| ==> splits[i].userId != splits[j].userId
    ensures forall i :: 0 <= i < |splits| ==> splits[i].userId != "" && splits[i].splitType == splits[0].splitType
  {
    forall i | 0 <= i < |splits| ensures Values(splits)[i] > 0 { assert EntryError(splits, i) == None; }
    SumPositive(Values(splits));
    forall i, j | 0 <= i < j < |splits| ensures splits[i].userId != splits[j].userId {
      assert EntryError(splits, j) == None;
    }
    forall i | 0 <= i < |splits| ensures splits[i].userId != "" && splits[i].splitType == splits[0].splitType {
      assert EntryError(splits, i) == None;
    }
  }

  lemma {:induction false} PrefixSum(s: seq<int>, n: nat)
    requires n <= |s| && forall i :: 0 <= i < |s| ==> s[i] >= 0
    ensures 0 <= Sum(s[..n]) <= Sum(s)
    ensures forall i :: 0 <= i < n ==> s[i] <= Sum(s)
    decreases |s|
  {
    if n < |s| {
      PrefixSum(s[..|s| - 1], n);
      assert s[..|s| - 1][..n] == s[..n];
    } else if n > 0 {
      PrefixSum(s[..n - 1], n - 1);
      assert s[..n] == s && s[..n - 1][..n - 1] == s[..n - 1];
      forall i | 0 <= i < n ensures s[i] <= Sum(s) { if i < n - 1 { assert s[..n - 1][i] == s[i]; } }
    }
  }

  /** Quotas are between 0 and the amount, and so is every running total of them: no int64 step can overflow. */
  lemma QuotasFit(amount: int64, ws: seq<int>, n: nat)
    requires amount > 0 && Weights(ws) && Sum(ws) > 0 && n <= |ws|
    ensures forall i :: 0 <= i < |ws| ==> 0 <= Quota(amount, ws, i) <= amount - Leftover(amount, ws)
    ensures 0 <= Sum(Quotas(amount, ws)[..n]) <= amount
  {
    var qs := Quotas(amount, ws);
    forall i | 0 <= i < |ws| ensures qs[i] >= 0 {
      MulSign(amount, ws[i]);
      DivMod(amount * ws[i], Sum(ws));
      if qs[i] < 0 { MulMono(Sum(ws), qs[i], -1); }
    }
    PrefixSum(qs, n);
    PrefixSum(qs, |ws|);
    LeftoverBound(amount, ws);
    forall i | 0 <= i < |ws| ensures 0 <= Quota(amount, ws, i) <= amount - Leftover(amount, ws) {
      assert qs[i] == Quota(amount, ws, i);
    }
  }

  ghost predicate RemaindersOf(amount: int, ws: seq<int>, rs: seq<Remainder>)
    requires Sum(ws) > 0
  {
    |rs| <= |ws| && forall i :: 0 <= i < |rs| ==> rs[i] == Remainder(i, Rest(amount, ws, i))
  }

  function SetOf(s: seq<nat>): (r: set<nat>) {
    set i | i in s
  }

  /** The first positions of the sorted remainders are the members the rule chooses. */
  lemma FirstInOrderAreChosen(amount: int, ws: seq<int>, rs: seq<Remainder>, order: seq<nat>, left: nat)
    requires Weights(ws) && Sum(ws) > 0 && RemaindersOf(amount, ws, rs) && |rs| == |ws|
    requires Sorting.IsStableOrder(rs, LargerRemainder, order)
    requires left == Leftover(amount, ws) && left <= |order|
    ensures Chosen(amount, ws, SetOf(order[..left]))
    ensures Sorting.Distinct(order)
  {
    forall i, j | 0 <= i < j < |order| ensures order[i] != order[j] {
      Sorting.PrecedesTotal(rs, LargerRemainder, order[i], order[j], order[i]);
    }
    Sorting.DistinctCardinality(order[..left]);
    var chosen := SetOf(order[..left]);
    assert forall q :: 0 <= q < left ==> order[q] in chosen by {
      assert forall q :: 0 <= q < left ==> order[q] == order[..left][q];
    }
    forall i, j | i in chosen && j !in chosen && 0 <= j < |ws| ensures Before(amount, ws, i, j) {
      Sorting.StableOrderCovers(rs, LargerRemainder, order, j);
      var p :| 0 <= p < left && order[p] == i;
      var q :| 0 <= q < |order| && order[q] == j;
      assert Sorting.Precedes(rs, LargerRemainder, order[p], order[q]);
    }
  }

  method AllocateShares(amountMinor: int64, splits: seq<SplitAllocation>)
      returns (r: Result<seq<SplitAllocation>, SplitError>)
    ensures Answer(amountMinor, splits, r)
  {
    if amountMinor <= 0 || |splits| == 0 {
      return Err(EmptySplits);
    }
    var splitType := splits[0].splitType;
    var totalValue := 0;
    var seen: set<string> := {};
    for i := 0 to |splits|
      invariant forall j :: 0 <= j < i ==> EntryError(splits, j) == None
      invariant forall u :: u in seen <==> exists j :: 0 <= j < i && splits[j].userId == u
      invariant totalValue == Sum(Values(splits)[..i])
    {
      var split := splits[i];
      if split.userId == "" || split.splitValue <= 0 {
        assert FirstError(splits, i, InvalidSplitValue);
        return Err(InvalidSplitValue);
      }
      if split.userId in seen {
        assert FirstError(splits, i, InvalidSplitValue);
        return Err(InvalidSplitValue);
      }
      seen := seen + {split.userId};
      if split.splitType != splitType {
        assert FirstError(splits, i, MixedSplitTypes);
        return Err(MixedSplitTypes);
      }
      totalValue := totalValue + split.splitValue;
      assert Values(splits)[..i + 1][..i] == Values(splits)[..i];
    }
    assert Values(splits)[..|splits|] == Values(splits);
    WellFormedWeights(splits);

    if splitType == Fixed {
      if totalValue != amountMinor {
        return Err(FixedSplitTotal);
      }
      var fixed := splits;
      for i := 0 to |fixed|
        invariant SameEntries(splits, fixed)
        invariant forall j :: 0 <= j < i ==> fixed[j].shareMinor == splits[j].splitValue
      {
        fixed := fixed[i := fixed[i].(shareMinor := fixed[i].splitValue)];
      }
      assert Shares(fixed) == Values(splits);
      return Ok(fixed);
    }
    if splitType != Ratio || totalValue <= 0 {
      return Err(InvalidSplitValue);
    }
    var result := AllocateByRatio(amountMinor, splits, totalValue);
    return Ok(result);
  }

  /** The ratio branch of AllocateShares: quotas first, then one spare unit each down the sorted remainders. */
  method AllocateByRatio(amountMinor: int64, splits: seq<SplitAllocation>, totalValue: int)
      returns (result: seq<SplitAllocation>)
    requires amountMinor > 0 && Weights(Values(splits))
    requires totalValue == Sum(Values(splits)) > 0
    ensures SameEntries(splits, result)
    ensures IsLargestRemainder(amountMinor, Values(splits), Shares(result))
  {
    ghost var ws := Values(splits);
    var remainders, granted;
    result, remainders, granted := TakeQuotas(amountMinor, splits, totalValue);
    assert Quotas(amountMinor, ws)[..|ws|] == Quotas(amountMinor, ws);
    LeftoverBound(amountMinor, ws);
    var sorted := Sorting.SliceStable(remainders, LargerRemainder);
    ghost var order :| Sorting.IsStableOrder(remainders, LargerRemainder, order) && sorted == Sorting.Pick(remainders, order);
    QuotasFit(amountMinor, ws, |ws|);
    FirstInOrderAreChosen(amountMinor, ws, remainders, order, amountMinor - granted);
    result := HandOut(amountMinor, granted, splits, order, result, sorted);
  }

  method TakeQuotas(amountMinor: int64, splits: seq<SplitAllocation>, totalValue: int)
      returns (result: seq<SplitAllocation>, remainders: seq<Remainder>, granted: int64)
    requires amountMinor > 0 && Weights(Values(splits))
    requires totalValue == Sum(Values(splits)) > 0
    ensures SameEntries(splits, result)
    ensures forall j :: 0 <= j < |splits| ==> result[j].shareMinor == Quota(amountMinor, Values(splits), j)
    ensures |remainders| == |splits| && RemaindersOf(amountMinor, Values(splits), remainders)
    ensures granted == Sum(Quotas(amountMinor, Values(splits))[..|splits|])
  {
    ghost var ws := Values(splits);
    result, remainders, granted := splits, [], 0;
    for i := 0 to |result|
      invariant SameEntries(splits, result)
      invariant forall j :: 0 <= j < i ==> result[j].shareMinor == Quota(amountMinor, ws, j)
      invariant |remainders| == i && RemaindersOf(amountMinor, ws, remainders)
      invariant granted == Sum(Quotas(amountMinor, ws)[..i])
    {
      var product := amountMinor * result[i].splitValue;
      var quotient, remainderValue := product / totalValue, product % totalValue;
      assert quotient == Quotas(amountMinor, ws)[i];
      QuotasFit(amountMinor, ws, i + 1);
      assert Quotas(amountMinor, ws)[..i + 1][..i] == Quotas(amountMinor, ws)[..i];
      LeftoverBound(amountMinor, ws);
      result := result[i := result[i].(shareMinor := quotient)];
      granted := granted + result[i].shareMinor;
      remainders := remainders + [Remainder(i, remainderValue)];
    }
  }

  method HandOut(amountMinor: int64, granted: int64, ghost splits: seq<SplitAllocation>, ghost order: seq<nat>,
                 quotas: seq<SplitAllocation>, sorted: seq<Remainder>)
      returns (result: seq<SplitAllocation>)
    requires 0 <= granted <= amountMinor && 0 < amountMinor && amountMinor - granted < |sorted| == |order|
    requires forall k :: 0 <= k < |sorted| ==> sorted[k].index == order[k] < |splits|
    requires Sorting.Distinct(order)
    requires Weights(Values(splits)) && Sum(Values(splits)) > 0
    requires granted == amountMinor - Leftover(amountMinor, Values(splits))
    requires Served(amountMinor, splits, [], quotas)
    requires Chosen(amountMinor, Values(splits), SetOf(order[..amountMinor - granted]))
    ensures SameEntries(splits, result)
    ensures IsLargestRemainder(amountMinor, Values(splits), Shares(result))
  {
    hide Values, Quota, Sum, Chosen, IsLargestRemainder;
    result := quotas;
    var remaining: int64 := amountMinor - granted;
    assert order[..0] == [];
    while remaining > 0
      invariant 0 <= remaining <= amountMinor - granted
      invariant Served(amountMinor, splits, order[..amountMinor - granted - remaining], result)
    {
      SmallModulo(amountMinor - granted - remaining, |sorted|);
      var next := sorted[(amountMinor - granted - remaining) % |sorted|].index;
      ServeNext(amountMinor, splits, order, amountMinor - granted - remaining, result);
      result := result[next := result[next].(shareMinor := result[next].shareMinor + 1)];
      remaining := remaining - 1;
    }
    ServedIsLargestRemainder(amountMinor, splits, order[..amountMinor - granted], result);
  }

  lemma ServedIsLargestRemainder(amount: int64, splits: seq<SplitAllocation>, served: seq<nat>, result: seq<SplitAllocation>)
    requires Sum(Values(splits)) > 0 && Served(amount, splits, served, result)
    requires Chosen(amount, Values(splits), SetOf(served))
    ensures IsLargestRemainder(amount, Values(splits), Shares(result))
  {
    assert SharesFor(amount, Values(splits), SetOf(served), Shares(result));
  }

  lemma SmallModulo(k: int, n: int)
    requires 0 <= k < n
    ensures k % n == k
  {}

  /** Every member has its quota, and those listed have one unit more. */
  ghost predicate Served(amount: int64, splits: seq<SplitAllocation>, served: seq<nat>, result: seq<SplitAllocation>)
    requires Sum(Values(splits)) > 0
  {
    SameEntries(splits, result)
    && forall j :: 0 <= j < |splits| ==>
         result[j].shareMinor == Quota(amount, Values(splits), j) + if j in served then 1 else 0
  }

  lemma ServeNext(amount: int64, splits: seq<SplitAllocation>, order: seq<nat>, k: nat, result: seq<SplitAllocation>)
    requires amount > 0 && Weights(Values(splits)) && Sum(Values(splits)) > 0
    requires Leftover(amount, Values(splits)) > 0
    requires k < |order| && order[k] < |splits| && Sorting.Distinct(order)
    requires Served(amount, splits, order[..k], result)
    ensures var share := result[order[k]].shareMinor + 1;
            Fits(share) && Served(amount, splits, order[..k + 1], result[order[k] := result[order[k]].(shareMinor := share)])
  {
    QuotasFit(amount, Values(splits), 0);
    var next := order[k];
    assert order[..k + 1] == order[..k] + [next];
    assert next !in order[..k] by { assert forall i :: 0 <= i < k ==> order[i] != order[k]; }
  }

  // ---------- what the answer means ----------

  /** A successful split is exact: the shares add up to the amount and none is negative or above it. */
  lemma AllocationIsExact(amount: int64, splits: seq<SplitAllocation>, result: seq<SplitAllocation>)
    requires Answer(amount, splits, Ok(result))
    ensures Sum(Shares(result)) == amount
    ensures forall i :: 0 <= i < |result| ==> 0 <= result[i].shareMinor <= amount
    ensures forall i, j :: 0 <= i < j < |result| ==> result[i].userId != result[j].userId
  {
    WellFormedWeights(splits);
    var ws := Values(splits);
    if splits[0].splitType.Ratio? {
      SharesSumToAmount(amount, ws, Shares(result));
      forall i | 0 <= i < |result| ensures 0 <= result[i].shareMinor <= amount {
        QuotaRule(amount, ws, Shares(result), i);
        assert Shares(result)[i] == result[i].shareMinor;
      }
    } else {
      SumPositive(ws);
      forall i | 0 <= i < |result| ensures 0 <= result[i].shareMinor <= amount {
        assert Shares(result)[i] == ws[i];
      }
    }
  }

  /** A positive amount and a clean list of one known type that, if fixed, adds up to the amount. */
  ghost predicate Splittable(amount: int64, splits: seq<SplitAllocation>) {
    && amount > 0 && |splits| > 0
    && (forall i :: 0 <= i < |splits| ==>
          splits[i].userId != "" && splits[i].splitValue > 0 && splits[i].splitType == splits[0].splitType)
    && (forall i, j :: 0 <= i < j < |splits| ==> splits[i].userId != splits[j].userId)
    && (splits[0].splitType == Ratio || (splits[0].splitType == Fixed && Sum(Values(splits)) == amount))
  }

  lemma AllocationSucceedsIff(amount: int64, splits: seq<SplitAllocation>, r: Result<seq<SplitAllocation>, SplitError>)
    requires Answer(amount, splits, r)
    ensures r.Ok? <==> Splittable(amount, splits)
  {
    if r.Ok? {
      WellFormedWeights(splits);
      forall i | 0 <= i < |splits| ensures splits[i].splitValue > 0 { assert EntryError(splits, i) == None; }
    } else if amount > 0 && |splits| > 0 && !WellFormed(splits) {
      var i :| 0 <= i < |splits| && EntryError(splits, i) != None;
    }
  }

  /** The answer is determined: two answers to one call are equal. */
  lemma AllocationIsDetermined(amount: int64, splits: seq<SplitAllocation>,
                               r1: Result<seq<SplitAllocation>, SplitError>, r2: Result<seq<SplitAllocation>, SplitError>)
    requires Answer(amount, splits, r1) && Answer(amount, splits, r2)
    ensures r1 == r2
  {
    if amount > 0 && |splits| > 0 {
      if !WellFormed(splits) {
        var i :| FirstError(splits, i, r1.error);
        var j :| FirstError(splits, j, r2.error);
        assert i == j;
      } else if r1.Ok? {
        if splits[0].splitType == Ratio { Unique(amount, Values(splits), Shares(r1.value), Shares(r2.value)); }
        forall k | 0 <= k < |splits| ensures r1.value[k] == r2.value[k] {
          assert Shares(r1.value)[k] == r1.value[k].shareMinor && Shares(r2.value)[k] == r2.value[k].shareMinor;
        }
        assert r1.value == r2.value;
      }
    }
  }

  /** Each refusal of a split names a fault that is there. */
  lemma AllocationErrorsAreReal(amount: int64, splits: seq<SplitAllocation>, error: SplitError)
    requires Answer(amount, splits, Err(error))
    ensures match error
            case EmptySplits => amount <= 0 || splits == []
            case InvalidSplitValue =>
              || (exists i :: 0 <= i < |splits| && (splits[i].userId == "" || splits[i].splitValue <= 0))
              || (exists i, j :: 0 <= i < j < |splits| && splits[i].userId == splits[j].userId)
              || (splits != [] && splits[0].splitType.Other?)
            case MixedSplitTypes => exists i, j :: 0 <= i < j < |splits| && splits[i].splitType != splits[j].splitType
            case FixedSplitTotal => splits != [] && splits[0].splitType.Fixed? && Sum(Values(splits)) != amount
  {
    if amount > 0 && splits != [] && !WellFormed(splits) {
      var i :| FirstError(splits, i, error);
      assert EntryError(splits, i) == Some(error);
    }
  }
}
