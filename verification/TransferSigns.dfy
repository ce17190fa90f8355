/** Exactly when all suggested transfers are positive. */
module TransferSigns {
  import opened Balances
  import opened Clearing
  import opened Entries
  import opened Int64
  import opened Suggestions
  import Sorting

  // ---------- the debts that int64 can negate ----------

  function Owing(e: Entry): (r: int) {
    if e.amount > 0 then e.amount else 0
  }

  /** The sum of the positive amounts. */
  function TotalOwing(es: seq<Entry>): (r: int)
    ensures r >= 0
  {
    if es == [] then 0 else TotalOwing(es[..|es| - 1]) + Owing(es[|es| - 1])
  }

  /** What the members owe whose debt is below 2^63. */
  function Owed(rows: seq<MemberBalance>): (r: int)
    ensures r >= 0
  {
    if rows == [] then 0
    else
      var last := rows[|rows| - 1];
      Owed(rows[..|rows| - 1]) + if MIN < last.net < 0 then -last.net else 0
  }

  lemma OwingAppend(es: seq<Entry>, e: Entry)
    ensures TotalOwing(es + [e]) == TotalOwing(es) + Owing(e)
  {
    assert (es + [e])[..|es|] == es;
  }

  lemma {:induction false} OwingConcat(es: seq<Entry>, fs: seq<Entry>)
    ensures TotalOwing(es + fs) == TotalOwing(es) + TotalOwing(fs)
  {
    if fs == [] {
      assert es + fs == es;
    } else {
      OwingConcat(es, fs[..|fs| - 1]);
      assert (es + fs)[..|es + fs| - 1] == es + fs[..|fs| - 1];
    }
  }

  lemma OwingFirst(es: seq<Entry>)
    requires es != []
    ensures TotalOwing(es) == Owing(es[0]) + TotalOwing(es[1..])
  {
    assert es == [es[0]] + es[1..];
    OwingConcat([es[0]], es[1..]);
    OwingAppend([], es[0]);
    assert [] + [es[0]] == [es[0]];
  }

  lemma OwingTakeOut(es: seq<Entry>, i: nat)
    requires i < |es|
    ensures TotalOwing(es) == Owing(es[i]) + TotalOwing(es[..i] + es[i + 1..])
  {
    assert es == es[..i] + es[i..];
    OwingConcat(es[..i], es[i..]);
    OwingFirst(es[i..]);
    assert es[i..][1..] == es[i + 1..];
    OwingConcat(es[..i], es[i + 1..]);
  }

  lemma {:induction false} OwingPermutation(es: seq<Entry>, fs: seq<Entry>)
    requires multiset(es) == multiset(fs)
    ensures TotalOwing(es) == TotalOwing(fs)
    decreases |es|
  {
    if es == [] {
      assert |multiset(fs)| == |fs|;
    } else {
      var n := |es| - 1;
      assert es[n] in multiset(fs);
      var i :| 0 <= i < |fs| && fs[i] == es[n];
      Sorting.MultisetPeel(es, n, fs, i);
      assert es[..n] + es[n + 1..] == es[..n];
      OwingPermutation(es[..n], fs[..i] + fs[i + 1..]);
      OwingTakeOut(fs, i);
    }
  }

  lemma {:induction false} OwedByDebtors(rows: seq<MemberBalance>)
    ensures TotalOwing(Debtors(rows)) == Owed(rows)
  {
    if rows != [] {
      hide Wrap;
      var front, last := rows[..|rows| - 1], rows[|rows| - 1];
      OwedByDebtors(front);
      if last.net < 0 {
        NegatedDebt(last.net);
        if last.net != MIN { Negated(last.net); }
        OwingAppend(Debtors(front), Entry(last.userId, Wrap(0 - last.net)));
      } else {
        assert Debtors(front) + [] == Debtors(front);
      }
    }
  }

  // ---------- the sign of the transfers ----------

  ghost predicate HasMinimum(ds: seq<Entry>) {
    exists i :: 0 <= i < |ds| && ds[i].amount == MIN
  }

  lemma {:induction false} OnlyMinima(ds: seq<Entry>)
    requires forall i :: 0 <= i < |ds| ==> ds[i].amount == MIN
    ensures TotalOwing(ds) == 0
  {
    if ds != [] { OnlyMinima(ds[..|ds| - 1]); }
  }

  lemma ReducedOwing(es: seq<Entry>, amount: int64)
    requires es != [] && 0 < amount <= es[0].amount
    ensures TotalOwing(Reduced(es[0], amount) + es[1..]) == TotalOwing(es) - amount
  {
    var rest := Reduced(es[0], amount) + es[1..];
    OwingFirst(es);
    if amount < es[0].amount {
      OwingFirst(rest);
      assert rest[1..] == es[1..];
    } else {
      assert rest == es[1..];
    }
  }

  /** With a debt of 2^63 last, the transfers stay positive exactly if the other debts already use up the credits. */
  lemma {:induction false} GreedyIsPositiveIff(ds: seq<Entry>, cs: seq<Entry>)
    requires MinimaLast(ds) && HasMinimum(ds) && Positive(cs)
    ensures PositiveTransfers(Greedy(ds, cs)) <==> Total(cs) <= TotalOwing(ds)
    decreases |ds| + |cs|
  {
    hide Wrap, Total, TotalOwing;
    if cs == [] {
      NoEntries("");
    } else if ds[0].amount == MIN {
      assert Greedy(ds, cs)[0].amountMinor == MIN;
      assert forall i :: 0 <= i < |ds| ==> ds[i].amount == MIN;
      OnlyMinima(ds);
      PositiveTotal(cs);
    } else {
      hide Reduced, MinimaLast, Positive;
      assert ds[0].amount > 0 && cs[0].amount > 0 by { PositiveHeads(ds, cs); }
      var amount := Min(ds[0].amount, cs[0].amount);
      var ds', cs' := Reduced(ds[0], amount) + ds[1..], Reduced(cs[0], amount) + cs[1..];
      ReducedMinima(ds, amount);
      MinimumStays(ds, amount);
      ReducedPositive(cs, amount);
      ReducedAmounts(cs, amount, "");
      ReducedOwing(ds, amount);
      RoundUsesUp(ds, cs);
      GreedyIsPositiveIff(ds', cs');
      FirstTransfer(Settlement(ds[0].user, cs[0].user, amount), Greedy(ds', cs'));
    }
  }

  lemma PositiveHeads(ds: seq<Entry>, cs: seq<Entry>)
    requires MinimaLast(ds) && Positive(cs) && ds != [] && cs != [] && ds[0].amount != MIN
    ensures ds[0].amount > 0 && cs[0].amount > 0
  {}

  lemma FirstTransfer(t: Settlement, ts: seq<Settlement>)
    requires t.amountMinor > 0
    ensures PositiveTransfers([t] + ts) <==> PositiveTransfers(ts)
  {
    assert forall i :: 0 <= i < |ts| ==> ([t] + ts)[i + 1] == ts[i];
  }

  /**
   * For every sheet, the suggested transfers are all positive exactly if no net is -2^63, whose negation
   * overflows, or the members who owe less than that owe as much as all creditors are due.
   */
  lemma SuggestionsArePositiveIff(rows: seq<MemberBalance>, ts: seq<Settlement>)
    requires IsSuggestion(rows, ts)
    ensures PositiveTransfers(ts) <==> NoMinimum(rows) || Total(Creditors(rows)) <= Owed(rows)
  {
    hide Wrap, Debtors, Creditors, Greedy, Total, TotalOwing, Owed, SortedFrom, MinimaLast, Positive, NoMinimum, PositiveTransfers;
    var ds: seq<Entry>, cs: seq<Entry> :| SortedFrom(Debtors(rows), ds) && SortedFrom(Creditors(rows), cs) && ts == Greedy(ds, cs);
    DebtAmounts(rows);
    SortedKeeps(Debtors(rows), ds, "");
    SortedKeeps(Creditors(rows), cs, "");
    if NoMinimum(rows) {
      SidesArePositive(rows);
      GreedyIsPositive(ds, cs);
    } else {
      MinimumAmongDebtors(rows);
      SortedDebtors(Debtors(rows), ds);
      SortedOwing(rows, ds);
      GreedyIsPositiveIff(ds, cs);
    }
  }

  lemma MinimumAmongDebtors(rows: seq<MemberBalance>)
    requires !NoMinimum(rows)
    ensures HasMinimum(Debtors(rows))
  {
    hide Debtors;
    var k :| 0 <= k < |rows| && rows[k].net == MIN;
    MinimumShows(rows, k);
  }

  lemma SortedOwing(rows: seq<MemberBalance>, ds: seq<Entry>)
    requires SortedFrom(Debtors(rows), ds)
    ensures TotalOwing(ds) == Owed(rows)
  {
    OwingPermutation(Debtors(rows), ds);
    OwedByDebtors(rows);
  }

  // ---------- sheets that sum to zero ----------

  /** Credits and debts differ by the nets' sum and by 2^63 for every net of -2^63. */
  lemma {:induction false} CreditsExceedDebts(rows: seq<MemberBalance>)
    ensures if NoMinimum(rows) then Total(Creditors(rows)) == Owed(rows) + Total(Nets(rows))
            else Total(Creditors(rows)) >= Owed(rows) + Total(Nets(rows)) - MIN
  {
    if rows == [] {
      NoEntries("");
    } else {
      hide Total, Nets, Creditors, NoMinimum;
      CreditsExceedDebts(rows[..|rows| - 1]);
      LastNet(rows, "");
      LastCreditor(rows, "");
      LastMinimum(rows);
    }
  }

  lemma LastMinimum(rows: seq<MemberBalance>)
    requires rows != []
    ensures NoMinimum(rows) <==> NoMinimum(rows[..|rows| - 1]) && rows[|rows| - 1].net != MIN
  {
    assert forall i :: 0 <= i < |rows| - 1 ==> rows[..|rows| - 1][i] == rows[i];
  }

  /** If the nets sum to zero, the transfers are all positive exactly if no net is -2^63. */
  lemma BalancedSuggestionsArePositiveIff(rows: seq<MemberBalance>, ts: seq<Settlement>)
    requires IsSuggestion(rows, ts) && Total(Nets(rows)) == 0
    ensures PositiveTransfers(ts) <==> NoMinimum(rows)
  {
    hide IsSuggestion, Nets, Creditors, Total, NoMinimum, PositiveTransfers;
    SuggestionsArePositiveIff(rows, ts);
    CreditsExceedDebts(rows);
  }

  /** With nets of -2^63, 2^63 - 1 and 1, the first suggestion is a transfer of -2^63. */
  lemma MinimumSheetSendsANegative(ts: seq<Settlement>)
    requires IsSuggestion(MinimumSheet(), ts)
    ensures ts != [] && ts[0].fromUser == "a" && ts[0].amountMinor == MIN
  {
    hide Greedy, Debtors, Creditors;
    var rows := MinimumSheet();
    var ds: seq<Entry>, cs: seq<Entry> :| SortedFrom(Debtors(rows), ds) && SortedFrom(Creditors(rows), cs) && ts == Greedy(ds, cs);
    MinimumSheetSides();
    SortedKeeps(Debtors(rows), ds, "");
    SortedKeeps(Creditors(rows), cs, "");
    Sorting.SameMembers(ds, Debtors(rows), ds[0]);
    FirstMatch(ds, cs);
  }

  lemma MinimumSheetSides()
    ensures Debtors(MinimumSheet()) == [Entry("a", MIN)] && Creditors(MinimumSheet()) == [Entry("b", MAX), Entry("c", 1)]
  {
    var rows := MinimumSheet();
    assert rows[..2][..1] == [rows[0]] && [rows[0]][..0] == [];
    assert Debtors([rows[0]]) == [Entry("a", MIN)] && Creditors([rows[0]]) == [];
    assert Debtors(rows[..2]) == [Entry("a", MIN)] && Creditors(rows[..2]) == [Entry("b", MAX)];
  }

  lemma FirstMatch(ds: seq<Entry>, cs: seq<Entry>)
    requires ds != [] && cs != []
    ensures Greedy(ds, cs) != []
    ensures Greedy(ds, cs)[0] == Settlement(ds[0].user, cs[0].user, Min(ds[0].amount, cs[0].amount))
  {}

  // ---------- who is matched first ----------

  /** A row that is not beaten: nobody owes more, or nobody is due more. */
  ghost predicate OwesMost(rows: seq<MemberBalance>, u: string, amount: int) {
    exists i :: 0 <= i < |rows| && rows[i].userId == u && rows[i].net == -amount && forall k :: 0 <= k < |rows| ==> rows[i].net <= rows[k].net
  }

  ghost predicate IsDueMost(rows: seq<MemberBalance>, u: string, amount: int) {
    exists i :: 0 <= i < |rows| && rows[i].userId == u && rows[i].net == amount && forall k :: 0 <= k < |rows| ==> rows[k].net <= rows[i].net
  }

  ghost predicate HasNet(rows: seq<MemberBalance>, u: string, net: int) {
    exists i :: 0 <= i < |rows| && rows[i].userId == u && rows[i].net == net
  }

  lemma HasNetLast(rows: seq<MemberBalance>, u: string, net: int)
    requires rows != []
    ensures var last := rows[|rows| - 1];
            HasNet(rows, u, net) <==> HasNet(rows[..|rows| - 1], u, net) || (last.userId == u && last.net == net)
  {
    var front := rows[..|rows| - 1];
    if i :| 0 <= i < |front| && front[i].userId == u && front[i].net == net { assert rows[i] == front[i]; }
    if i :| 0 <= i < |rows| && rows[i].userId == u && rows[i].net == net { if i < |front| { assert front[i] == rows[i]; } }
  }

  lemma {:induction false} DebtsAre(rows: seq<MemberBalance>, e: Entry)
    requires NoMinimum(rows)
    ensures e in Debtors(rows) <==> e.amount > 0 && HasNet(rows, e.user, -e.amount)
  {
    if rows != [] {
      hide Wrap, HasNet;
      DebtsAre(rows[..|rows| - 1], e);
      Negated(rows[|rows| - 1].net);
      if e.amount > 0 { HasNetLast(rows, e.user, -e.amount); }
    }
  }

  lemma {:induction false} CreditsAre(rows: seq<MemberBalance>, e: Entry)
    ensures e in Creditors(rows) <==> e.amount > 0 && HasNet(rows, e.user, e.amount)
  {
    if rows != [] {
      hide HasNet;
      CreditsAre(rows[..|rows| - 1], e);
      HasNetLast(rows, e.user, e.amount);
    }
  }

  lemma FirstIsLargest(given: seq<Entry>, sorted: seq<Entry>, e: Entry)
    requires SortedFrom(given, sorted) && e in given
    ensures sorted != [] && sorted[0] in given && e.amount <= sorted[0].amount
  {
    Sorting.SameMembers(sorted, given, e);
    Sorting.SameMembers(sorted, given, sorted[0]);
    var j :| 0 <= j < |sorted| && sorted[j] == e;
    if j > 0 { assert !Larger(sorted[j], sorted[0]); }
  }

  lemma LargestDebtor(rows: seq<MemberBalance>, ds: seq<Entry>)
    requires NoMinimum(rows) && SortedFrom(Debtors(rows), ds) && ds != []
    ensures OwesMost(rows, ds[0].user, ds[0].amount) && ds[0].amount > 0
  {
    hide Debtors, SortedFrom;
    SortedMember(Debtors(rows), ds);
    DebtsAre(rows, ds[0]);
    assert ds[0].amount > 0;
    var debt: int := ds[0].amount;
    var i :| 0 <= i < |rows| && rows[i].userId == ds[0].user && rows[i].net == -debt;
    forall k | 0 <= k < |rows| ensures rows[i].net <= rows[k].net {
      assert rows[k].net != MIN;
      if rows[k].net < 0 {
        var e := Entry(rows[k].userId, -rows[k].net);
        assert HasNet(rows, e.user, -e.amount);
        DebtsAre(rows, e);
        FirstIsLargest(Debtors(rows), ds, e);
      }
    }
  }

  lemma LargestCreditor(rows: seq<MemberBalance>, cs: seq<Entry>)
    requires SortedFrom(Creditors(rows), cs) && cs != []
    ensures IsDueMost(rows, cs[0].user, cs[0].amount) && cs[0].amount > 0
  {
    hide Creditors, SortedFrom;
    SortedMember(Creditors(rows), cs);
    CreditsAre(rows, cs[0]);
    var i :| 0 <= i < |rows| && rows[i].userId == cs[0].user && rows[i].net == cs[0].amount;
    forall k | 0 <= k < |rows| ensures rows[k].net <= rows[i].net {
      if rows[k].net > 0 {
        var e := Entry(rows[k].userId, rows[k].net);
        assert HasNet(rows, e.user, e.amount);
        CreditsAre(rows, e);
        FirstIsLargest(Creditors(rows), cs, e);
      }
    }
  }

  lemma SortedMember(given: seq<Entry>, sorted: seq<Entry>)
    requires SortedFrom(given, sorted) && sorted != []
    ensures sorted[0] in given
  {
    Sorting.SameMembers(sorted, given, sorted[0]);
  }

  lemma FirstOfGreedy(ds: seq<Entry>, cs: seq<Entry>)
    requires Greedy(ds, cs) != []
    ensures ds != [] && cs != [] && Greedy(ds, cs)[0] == Settlement(ds[0].user, cs[0].user, Min(ds[0].amount, cs[0].amount))
  {}

  /** The first suggestion is from a member who owes most to one who is due most, as far as the smaller of the two goes. */
  lemma LargestAreMatchedFirst(rows: seq<MemberBalance>, ts: seq<Settlement>)
    requires IsSuggestion(rows, ts) && NoMinimum(rows) && ts != []
    ensures exists debt, credit ::
              && OwesMost(rows, ts[0].fromUser, debt) && IsDueMost(rows, ts[0].toUser, credit)
              && ts[0].amountMinor == if debt < credit then debt else credit
  {
    hide Debtors, Creditors, Greedy, SortedFrom, OwesMost, IsDueMost, NoMinimum;
    var ds: seq<Entry>, cs: seq<Entry> :| SortedFrom(Debtors(rows), ds) && SortedFrom(Creditors(rows), cs) && ts == Greedy(ds, cs);
    FirstOfGreedy(ds, cs);
    LargestDebtor(rows, ds);
    LargestCreditor(rows, cs);
    var debt: int, credit: int := ds[0].amount, cs[0].amount;
    assert OwesMost(rows, ts[0].fromUser, debt) && IsDueMost(rows, ts[0].toUser, credit);
  }
}
