/** When suggested settlements clear a sheet, and when somebody is left over. */
module Clearing {
  import opened Balances
  import opened Entries
  import opened Int64
  import opened Suggestions
  import opened Sums
  import Sorting

  // ---------- without a net of -2^63 ----------

  lemma FrontRows(rows: seq<MemberBalance>)
    requires DistinctRows(rows) && NoMinimum(rows) && rows != []
    ensures var front, last := rows[..|rows| - 1], rows[|rows| - 1];
            DistinctRows(front) && NoMinimum(front) && last.net != MIN && Of(Nets(front), last.userId) == 0
  {
    hide Of, Nets;
    NobodyElse(rows[..|rows| - 1], rows[|rows| - 1].userId);
  }

  /** A member's net shows up on one side only, in full. */
  lemma {:induction false} OneSide(rows: seq<MemberBalance>, u: string)
    requires DistinctRows(rows) && NoMinimum(rows)
    ensures var net := Of(Nets(rows), u);
            && -MAX <= net <= MAX
            && Of(Creditors(rows), u) == (if net > 0 then net else 0)
            && Of(Debtors(rows), u) == (if net < 0 then -net else 0)
  {
    if rows == [] {
      NoEntries(u);
    } else {
      hide Of, Nets, Debtors, Creditors, DistinctRows, NoMinimum, Total;
      var front, last := rows[..|rows| - 1], rows[|rows| - 1];
      FrontRows(rows);
      OneSide(front, u);
      LastNet(rows, u);
      LastDebtor(rows, u);
      LastCreditor(rows, u);
    }
  }

  /** What the suggestions leave of a member's net lies between it and zero, so int64 stores it as it is. */
  lemma LeftoverFits(rows: seq<MemberBalance>, ts: seq<Settlement>, u: string)
    requires IsSuggestion(rows, ts) && DistinctRows(rows) && NoMinimum(rows)
    ensures Fits(Of(Nets(rows), u) + Sent(ts, u) - Got(ts, u))
  {
    hide Of, Sent, Got, Nets, Debtors, Creditors, Greedy, DistinctRows, NoMinimum, SortedFrom;
    var ds: seq<Entry>, cs: seq<Entry> :| SortedFrom(Debtors(rows), ds) && SortedFrom(Creditors(rows), cs) && ts == Greedy(ds, cs);
    SidesArePositive(rows);
    SortedKeeps(Debtors(rows), ds, u);
    SortedKeeps(Creditors(rows), cs, u);
    GreedyBounded(ds, cs, u);
    OneSide(rows, u);
  }

  /** Transfers move money around: if they bring everybody to zero, the nets summed to zero. */
  lemma ClearedMeansBalanced(nets: seq<Entry>, ts: seq<Settlement>)
    requires forall u :: Of(nets, u) + Sent(ts, u) - Got(ts, u) == 0
    ensures Total(nets) == 0
  {
    hide Of, Total, Outgoing, Incoming, SumOver;
    var o, i := Outgoing(ts), Incoming(ts);
    var all := Users(nets) + Users(o) + Users(i);
    SumOfUsers(nets, all);
    SumOfUsers(o, all);
    SumOfUsers(i, all);
    SumOverAdd(all, OfEach(nets), OfEach(o), OfEach(i));
    LegsAgree(ts);
  }

  // ---------- the one net position that cannot be settled ----------

  ghost predicate MinimaLast(ds: seq<Entry>) {
    && (forall i :: 0 <= i < |ds| ==> ds[i].amount > 0 || ds[i].amount == MIN)
    && (forall i, j :: 0 <= i < j < |ds| && ds[i].amount == MIN ==> ds[j].amount == MIN)
  }

  /** A first creditor that meets only such debtors is flipped by 2^63 each time and never reaches zero. */
  lemma {:induction false} NeverReachesZero(ds: seq<Entry>, cs: seq<Entry>)
    requires cs != [] && cs[0].amount != 0 && cs[0].amount != MIN
    requires forall i :: 0 <= i < |ds| ==> ds[i].amount == MIN
    ensures Wrap(cs[0].amount - Got(Greedy(ds, cs), cs[0].user)) != 0
    decreases |ds|
  {
    hide Wrap;
    var u, a := cs[0].user, cs[0].amount;
    if ds == [] {
      assert Wrap(a) == a;
      assert Got([], u) == 0;
    } else {
      FlippedStaysAway(a);
      var cs' := [Entry(u, Wrap(a - MIN))] + cs[1..];
      assert Reduced(ds[0], MIN) + ds[1..] == ds[1..];
      var ts := Greedy(ds[1..], cs');
      assert Greedy(ds, cs) == [Settlement(ds[0].user, u, MIN)] + ts;
      NeverReachesZero(ds[1..], cs');
      LegsFirst(Settlement(ds[0].user, u, MIN), ts, u);
      WrapLeft(a - MIN, -Got(ts, u));
    }
  }

  lemma FlippedStaysAway(a: int64)
    requires a != 0 && a != MIN
    ensures Wrap(a - MIN) != 0 && Wrap(a - MIN) != MIN && Min(MIN, a) == MIN && Wrap(MIN - MIN) == 0
  {}

  ghost predicate OwesMinimum(ds: seq<Entry>, u: string) {
    exists i :: 0 <= i < |ds| && ds[i].amount == MIN && ds[i].user == u
  }

  /** Debts, one of them of 2^63, and credits; -2^63, which negation leaves unchanged, marks that debt. */
  ghost predicate Unpayable(ds: seq<Entry>, cs: seq<Entry>) {
    && MinimaLast(ds) && DistinctUsers(ds) && (exists i :: 0 <= i < |ds| && ds[i].amount == MIN)
    && Positive(cs) && DistinctUsers(cs)
  }

  /** One round of matching leaves the same situation, with fewer entries. */
  lemma StaysUnpayable(ds: seq<Entry>, cs: seq<Entry>, amount: int64)
    requires Unpayable(ds, cs) && ds != [] && cs != []
    requires 0 < amount <= ds[0].amount && amount <= cs[0].amount && (amount == ds[0].amount || amount == cs[0].amount)
    ensures var ds', cs' := Reduced(ds[0], amount) + ds[1..], Reduced(cs[0], amount) + cs[1..];
            Unpayable(ds', cs') && |ds'| + |cs'| < |ds| + |cs|
  {
    hide Reduced, MinimaLast, Positive, DistinctUsers;
    ReducedPositive(cs, amount);
    ReducedMinima(ds, amount);
    MinimumStays(ds, amount);
    ReducedDistinct(ds, amount);
    ReducedDistinct(cs, amount);
  }

  lemma ReducedMinima(ds: seq<Entry>, amount: int64)
    requires MinimaLast(ds) && ds != [] && 0 < amount <= ds[0].amount
    ensures MinimaLast(Reduced(ds[0], amount) + ds[1..])
  {}

  lemma MinimumStays(ds: seq<Entry>, amount: int64)
    requires ds != [] && 0 < amount <= ds[0].amount && (exists i :: 0 <= i < |ds| && ds[i].amount == MIN)
    ensures var rest := Reduced(ds[0], amount) + ds[1..];
            && (exists i :: 0 <= i < |rest| && rest[i].amount == MIN)
            && |rest| == |ds| - (if amount == ds[0].amount then 1 else 0)
  {
    var rest := Reduced(ds[0], amount) + ds[1..];
    var i :| 0 <= i < |ds| && ds[i].amount == MIN;
    assert rest[i - (|ds| - |rest|)] == ds[i];
  }

  lemma ReducedDistinct(cs: seq<Entry>, amount: int64)
    requires DistinctUsers(cs) && cs != []
    ensures DistinctUsers(Reduced(cs[0], amount) + cs[1..])
  {}

  /** A creditor who is not brought to zero, or a debtor of 2^63 from whom nothing is taken. */
  ghost predicate IsLeft(ds: seq<Entry>, cs: seq<Entry>, u: string) {
    || (u in Users(cs) && Wrap(Of(cs, u) - Got(Greedy(ds, cs), u)) != 0)
    || (OwesMinimum(ds, u) && Sent(Greedy(ds, cs), u) == 0)
  }

  lemma FirstIsLeft(ds: seq<Entry>, cs: seq<Entry>)
    requires Unpayable(ds, cs) && ds != [] && cs != [] && ds[0].amount == MIN
    ensures IsLeft(ds, cs, cs[0].user)
  {
    hide Wrap, Of, Got, Greedy, DistinctUsers;
    NeverReachesZero(ds, cs);
    OneUser(cs, 0);
    UsersAre(cs);
  }

  /** Who is left after one round of matching was left before it. */
  lemma LeftBefore(ds: seq<Entry>, cs: seq<Entry>, u: string)
    requires DistinctUsers(ds) && ds != [] && cs != [] && ds[0].amount > 0 && cs[0].amount > 0
    requires var amount := Min(ds[0].amount, cs[0].amount);
             IsLeft(Reduced(ds[0], amount) + ds[1..], Reduced(cs[0], amount) + cs[1..], u)
    ensures IsLeft(ds, cs, u)
  {
    hide Wrap, Of, Got, Sent, Greedy, Users;
    var amount := Min(ds[0].amount, cs[0].amount);
    var ds', cs' := Reduced(ds[0], amount) + ds[1..], Reduced(cs[0], amount) + cs[1..];
    if OwesMinimum(ds', u) && Sent(Greedy(ds', cs'), u) == 0 {
      SameMinimum(ds, amount, u);
      RoundSends(ds, cs, u);
    } else {
      hide Reduced;
      UsersLeft(cs, amount, u);
      RoundBalances(ds, cs, u);
    }
  }

  lemma SameMinimum(ds: seq<Entry>, amount: int64, u: string)
    requires DistinctUsers(ds) && ds != [] && 0 < amount <= ds[0].amount
    requires OwesMinimum(Reduced(ds[0], amount) + ds[1..], u)
    ensures OwesMinimum(ds, u) && u != ds[0].user
  {
    var rest := Reduced(ds[0], amount) + ds[1..];
    var i :| 0 <= i < |rest| && rest[i].amount == MIN && rest[i].user == u;
    assert ds[i + (|ds| - |rest|)] == rest[i];
  }

  lemma RoundSends(ds: seq<Entry>, cs: seq<Entry>, u: string)
    requires ds != [] && cs != [] && ds[0].amount > 0 && cs[0].amount > 0 && u != ds[0].user
    ensures var amount := Min(ds[0].amount, cs[0].amount);
            Sent(Greedy(ds, cs), u)
            == Sent(Greedy(Reduced(ds[0], amount) + ds[1..], Reduced(cs[0], amount) + cs[1..]), u)
  {
    hide Of, Reduced;
    var amount := Min(ds[0].amount, cs[0].amount);
    LegsFirst(Settlement(ds[0].user, cs[0].user, amount),
              Greedy(Reduced(ds[0], amount) + ds[1..], Reduced(cs[0], amount) + cs[1..]), u);
  }

  /** A debt of 2^63 always leaves somebody over. */
  lemma {:induction false} SomeoneIsLeft(ds: seq<Entry>, cs: seq<Entry>) returns (u: string)
    requires Unpayable(ds, cs)
    ensures IsLeft(ds, cs, u)
    decreases |ds| + |cs|
  {
    if cs == [] {
      var i :| 0 <= i < |ds| && ds[i].amount == MIN;
      u := ds[i].user;
      NoEntries(u);
      assert Greedy(ds, cs) == [];
    } else {
      hide Reduced, IsLeft, DistinctUsers;
      assert ds != [] && cs[0].amount > 0;
      if ds[0].amount == MIN {
        u := cs[0].user;
        FirstIsLeft(ds, cs);
      } else {
        var amount := Min(ds[0].amount, cs[0].amount);
        StaysUnpayable(ds, cs, amount);
        u := SomeoneIsLeft(Reduced(ds[0], amount) + ds[1..], Reduced(cs[0], amount) + cs[1..]);
        LeftBefore(ds, cs, u);
      }
    }
  }

  lemma UsersLeft(cs: seq<Entry>, amount: int64, u: string)
    requires cs != [] && 0 < amount <= cs[0].amount && u in Users(Reduced(cs[0], amount) + cs[1..])
    ensures u in Users(cs)
  {
    hide Reduced;
    ReducedUsers(cs, amount);
    UsersAre(Reduced(cs[0], amount) + cs[1..]);
    UsersAre(cs);
  }

  /** One round of matching takes as much from a creditor as it sends there. */
  lemma RoundBalances(ds: seq<Entry>, cs: seq<Entry>, u: string)
    requires ds != [] && cs != [] && ds[0].amount > 0 && cs[0].amount > 0
    ensures var amount := Min(ds[0].amount, cs[0].amount);
            var ds', cs' := Reduced(ds[0], amount) + ds[1..], Reduced(cs[0], amount) + cs[1..];
            Of(cs, u) - Got(Greedy(ds, cs), u) == Of(cs', u) - Got(Greedy(ds', cs'), u)
  {
    var amount := Min(ds[0].amount, cs[0].amount);
    var ds', cs' := Reduced(ds[0], amount) + ds[1..], Reduced(cs[0], amount) + cs[1..];
    hide Of, Got, Reduced, Total;
    ReducedAmounts(cs, amount, u);
    LegsFirst(Settlement(ds[0].user, cs[0].user, amount), Greedy(ds', cs'), u);
  }

  lemma NegatedDebt(net: int64)
    requires net < 0
    ensures Wrap(0 - net) > 0 || Wrap(0 - net) == MIN
    ensures Wrap(0 - net) == MIN <==> net == MIN
  {}

  lemma {:induction false} DebtAmounts(rows: seq<MemberBalance>)
    ensures forall i :: 0 <= i < |Debtors(rows)| ==> Debtors(rows)[i].amount > 0 || Debtors(rows)[i].amount == MIN
    ensures Positive(Creditors(rows))
  {
    hide Wrap;
    if rows != [] {
      DebtAmounts(rows[..|rows| - 1]);
      if rows[|rows| - 1].net < 0 { NegatedDebt(rows[|rows| - 1].net); }
    }
  }

  lemma {:induction false} MinimumShows(rows: seq<MemberBalance>, k: nat)
    requires k < |rows| && rows[k].net == MIN
    ensures exists i :: 0 <= i < |Debtors(rows)| && Debtors(rows)[i].amount == MIN
  {
    hide Wrap;
    var front, ds := rows[..|rows| - 1], Debtors(rows);
    if k == |rows| - 1 {
      NegatedDebt(rows[k].net);
      assert ds[|ds| - 1].amount == MIN;
    } else {
      MinimumShows(front, k);
      var i :| 0 <= i < |Debtors(front)| && Debtors(front)[i].amount == MIN;
      assert ds[i] == Debtors(front)[i];
    }
  }

  lemma SortedDebtors(given: seq<Entry>, sorted: seq<Entry>)
    requires SortedFrom(given, sorted)
    requires forall i :: 0 <= i < |given| ==> given[i].amount > 0 || given[i].amount == MIN
    requires exists i :: 0 <= i < |given| && given[i].amount == MIN
    ensures MinimaLast(sorted) && exists i :: 0 <= i < |sorted| && sorted[i].amount == MIN
  {
    forall i | 0 <= i < |sorted| ensures sorted[i].amount > 0 || sorted[i].amount == MIN {
      Sorting.SameMembers(sorted, given, sorted[i]);
    }
    forall i, j | 0 <= i < j < |sorted| && sorted[i].amount == MIN ensures sorted[j].amount == MIN {
      assert !Larger(sorted[j], sorted[i]);
    }
    var i :| 0 <= i < |given| && given[i].amount == MIN;
    Sorting.SameMembers(sorted, given, given[i]);
  }

  lemma SortedCreditors(rows: seq<MemberBalance>, cs: seq<Entry>)
    requires DistinctRows(rows) && SortedFrom(Creditors(rows), cs)
    ensures DistinctUsers(cs)
  {
    CreditorsAreDistinct(rows);
    var given := Creditors(rows);
    Sorting.DistinctPermutation(given, cs);
    forall i, j | 0 <= i < j < |cs| ensures cs[i].user != cs[j].user {
      Sorting.SameMembers(cs, given, cs[i]);
      Sorting.SameMembers(cs, given, cs[j]);
    }
  }

  ghost predicate IsDebt(rows: seq<MemberBalance>, e: Entry) {
    exists j :: 0 <= j < |rows| && rows[j].userId == e.user && rows[j].net < 0 && Wrap(0 - rows[j].net) == e.amount
  }

  lemma DebtGrows(front: seq<MemberBalance>, last: MemberBalance, e: Entry)
    ensures IsDebt(front, e) ==> IsDebt(front + [last], e)
    ensures last.net < 0 ==> IsDebt(front + [last], Entry(last.userId, Wrap(0 - last.net)))
  {
    hide Wrap;
    var rows := front + [last];
    if IsDebt(front, e) {
      var j :| 0 <= j < |front| && front[j].userId == e.user && front[j].net < 0 && Wrap(0 - front[j].net) == e.amount;
      assert rows[j] == front[j];
    }
    assert rows[|front|] == last;
  }

  lemma {:induction false} DebtorsAreDistinct(rows: seq<MemberBalance>)
    requires DistinctRows(rows)
    ensures DistinctUsers(Debtors(rows))
    ensures forall e :: e in Debtors(rows) ==> IsDebt(rows, e)
  {
    hide Wrap;
    if rows != [] {
      var front, last := rows[..|rows| - 1], rows[|rows| - 1];
      assert rows == front + [last];
      DebtorsAreDistinct(front);
      forall e | e in Debtors(rows) ensures IsDebt(rows, e) {
        hide DistinctRows, DistinctUsers;
        DebtGrows(front, last, e);
      }
      assert forall e :: e in Debtors(front) ==> e.user != last.userId;
      hide IsDebt;
    }
  }

  lemma SortedDebtorsDistinct(rows: seq<MemberBalance>, ds: seq<Entry>)
    requires DistinctRows(rows) && SortedFrom(Debtors(rows), ds)
    ensures DistinctUsers(ds)
  {
    DebtorsAreDistinct(rows);
    hide Debtors, Wrap;
    var given := Debtors(rows);
    Sorting.DistinctPermutation(given, ds);
    forall i, j | 0 <= i < j < |ds| ensures ds[i].user != ds[j].user {
      Sorting.SameMembers(ds, given, ds[i]);
      Sorting.SameMembers(ds, given, ds[j]);
    }
  }

  lemma CreditorsSendNothing(rows: seq<MemberBalance>, ds: seq<Entry>, cs: seq<Entry>, u: string)
    requires DistinctRows(rows) && SortedFrom(Debtors(rows), ds) && SortedFrom(Creditors(rows), cs) && u in Users(cs)
    ensures Sent(Greedy(ds, cs), u) == 0 && Of(Nets(rows), u) == Of(cs, u)
  {
    UsersAre(cs);
    var i :| 0 <= i < |cs| && cs[i].user == u;
    CreditorsAreDistinct(rows);
    Sorting.SameMembers(cs, Creditors(rows), cs[i]);
    var k :| 0 <= k < |Creditors(rows)| && Creditors(rows)[k] == cs[i];
    var j :| 0 <= j < |rows| && rows[j].userId == u && rows[j].net == cs[i].amount;
    SortedCreditors(rows, cs);
    OneUser(cs, i);
    NetOfRow(rows, j);
    forall d | d in ds ensures d.user != u {
      Sorting.SameMembers(ds, Debtors(rows), d);
      Sides(rows, d);
      Sides(rows, cs[i]);
    }
    SendersAreDebtors(ds, cs, u);
  }

  lemma {:induction false} SendersAreDebtors(ds: seq<Entry>, cs: seq<Entry>, u: string)
    requires forall d :: d in ds ==> d.user != u
    ensures Sent(Greedy(ds, cs), u) == 0
    decreases |ds| + |cs|
  {
    if ds != [] && cs != [] {
      var amount := Min(ds[0].amount, cs[0].amount);
      MinReduces(ds[0].amount, cs[0].amount);
      var ds', cs' := Reduced(ds[0], amount) + ds[1..], Reduced(cs[0], amount) + cs[1..];
      SendersAreDebtors(ds', cs', u);
      LegsFirst(Settlement(ds[0].user, cs[0].user, amount), Greedy(ds', cs'), u);
    } else {
      assert Greedy(ds, cs) == [];
    }
  }

  /** The net of the debtor whose negated net is -2^63 is itself -2^63, and nobody pays a debtor. */
  lemma MinimumGetsNothing(rows: seq<MemberBalance>, ds: seq<Entry>, cs: seq<Entry>, u: string)
    requires DistinctRows(rows) && SortedFrom(Debtors(rows), ds) && SortedFrom(Creditors(rows), cs) && OwesMinimum(ds, u)
    ensures Got(Greedy(ds, cs), u) == 0 && Of(Nets(rows), u) == MIN
  {
    hide Wrap, Debtors, Creditors, Greedy, Got, Of, Nets;
    var i :| 0 <= i < |ds| && ds[i].amount == MIN && ds[i].user == u;
    DebtorsAreDistinct(rows);
    Sorting.SameMembers(ds, Debtors(rows), ds[i]);
    assert IsDebt(rows, ds[i]);
    var j :| 0 <= j < |rows| && rows[j].userId == u && rows[j].net < 0 && Wrap(0 - rows[j].net) == MIN;
    NegatedDebt(rows[j].net);
    NetOfRow(rows, j);
    forall c | c in cs ensures c.user != u {
      Sorting.SameMembers(cs, Creditors(rows), c);
      Sides(rows, c);
    }
    ReceiversAreCreditors(ds, cs, u);
  }

  lemma {:induction false} ReceiversAreCreditors(ds: seq<Entry>, cs: seq<Entry>, u: string)
    requires forall c :: c in cs ==> c.user != u
    ensures Got(Greedy(ds, cs), u) == 0
    decreases |ds| + |cs|
  {
    if ds != [] && cs != [] {
      var amount := Min(ds[0].amount, cs[0].amount);
      MinReduces(ds[0].amount, cs[0].amount);
      var ds', cs' := Reduced(ds[0], amount) + ds[1..], Reduced(cs[0], amount) + cs[1..];
      ReceiversAreCreditors(ds', cs', u);
      LegsFirst(Settlement(ds[0].user, cs[0].user, amount), Greedy(ds', cs'), u);
    } else {
      assert Greedy(ds, cs) == [];
    }
  }

  lemma SortedSidesUnpayable(rows: seq<MemberBalance>, ds: seq<Entry>, cs: seq<Entry>)
    requires DistinctRows(rows) && !NoMinimum(rows)
    requires SortedFrom(Debtors(rows), ds) && SortedFrom(Creditors(rows), cs)
    ensures Unpayable(ds, cs)
  {
    hide Debtors, Creditors, SortedFrom, DistinctUsers, MinimaLast;
    var k :| 0 <= k < |rows| && rows[k].net == MIN;
    DebtAmounts(rows);
    MinimumShows(rows, k);
    SortedDebtors(Debtors(rows), ds);
    SortedDebtorsDistinct(rows, ds);
    SortedCreditors(rows, cs);
    SortedKeeps(Creditors(rows), cs, "");
  }

  /** The suggestions leave somebody unsettled as soon as one net position is -2^63, whatever the nets sum to. */
  lemma MinimumIsNotSettled(rows: seq<MemberBalance>, ts: seq<Settlement>)
    requires IsSuggestion(rows, ts) && DistinctRows(rows) && !NoMinimum(rows)
    ensures !Clears(rows, ts)
  {
    hide Wrap, Of, Sent, Got, Greedy, Nets, Users, Debtors, Creditors, SortedFrom, Unpayable, DistinctRows, OwesMinimum;
    var ds: seq<Entry>, cs: seq<Entry> :| SortedFrom(Debtors(rows), ds) && SortedFrom(Creditors(rows), cs) && ts == Greedy(ds, cs);
    SortedSidesUnpayable(rows, ds, cs);
    var u := SomeoneIsLeft(ds, cs);
    if OwesMinimum(ds, u) && Sent(ts, u) == 0 {
      MinimumGetsNothing(rows, ds, cs, u);
      assert Wrap(MIN) == MIN;
    } else {
      CreditorsSendNothing(rows, ds, cs, u);
    }
    assert Wrap(Of(Nets(rows), u) + Sent(ts, u) - Got(ts, u)) != 0;
  }

  // ---------- exactly when a sheet is cleared ----------

  /**
   * For every sheet with one row per user, the suggestions clear the group exactly when no net position is
   * -2^63, whose negation overflows, and the displayed nets sum to zero mathematically.
   */
  lemma ClearsExactly(rows: seq<MemberBalance>, ts: seq<Settlement>)
    requires IsSuggestion(rows, ts) && DistinctRows(rows)
    ensures Clears(rows, ts) <==> NoMinimum(rows) && Total(Nets(rows)) == 0
  {
    hide Wrap, Of, Sent, Got, IsSuggestion, Nets, Total, DistinctRows;
    if !NoMinimum(rows) {
      MinimumIsNotSettled(rows, ts);
    } else if Total(Nets(rows)) == 0 {
      assert Wrap(0) == 0;
      forall u ensures Wrap(Of(Nets(rows), u) + Sent(ts, u) - Got(ts, u)) == 0 { SuggestionsSettle(rows, ts, u); }
    } else if Clears(rows, ts) {
      forall u ensures Of(Nets(rows), u) + Sent(ts, u) - Got(ts, u) == 0 { LeftoverFits(rows, ts, u); }
      ClearedMeansBalanced(Nets(rows), ts);
    }
  }

  /** A sheet of three members: one net wrapped around to -2, and two of -(2^63 - 1). */
  function WrappedSheet(): (r: seq<MemberBalance>) {
    [MemberBalance("a", -2, 0, 0, 0, -2), MemberBalance("b", 0, MAX, 0, 0, -MAX), MemberBalance("c", 0, MAX, 0, 0, -MAX)]
  }

  lemma WrappedSheetTotal()
    ensures Total(Nets(WrappedSheet())) == -TWO_64
  {
    var rows := WrappedSheet();
    hide Total, Nets;
    LastNet(rows, "");
    LastNet(rows[..2], "");
    LastNet(rows[..2][..1], "");
    assert rows[..2][..1][..0] == [];
    NoNets();
  }

  lemma NoNets()
    ensures Total(Nets([])) == 0
  {}

  lemma WrappedSheetDebtors()
    ensures Debtors(WrappedSheet()) == [Entry("a", 2), Entry("b", MAX), Entry("c", MAX)] && Creditors(WrappedSheet()) == []
  {
    var rows := WrappedSheet();
    assert rows[..2][..1] == [rows[0]] && [rows[0]][..0] == [];
    assert Debtors([rows[0]]) == [Entry("a", 2)] && Creditors([rows[0]]) == [];
    assert Debtors(rows[..2]) == [Entry("a", 2), Entry("b", MAX)] && Creditors(rows[..2]) == [];
  }

  lemma NothingSuggested(rows: seq<MemberBalance>)
    requires Debtors(rows) == [Entry("a", 2), Entry("b", MAX), Entry("c", MAX)] && Creditors(rows) == []
    ensures IsSuggestion(rows, [])
  {
    hide Debtors, Creditors;
    var ds: seq<Entry> := [Entry("b", MAX), Entry("c", MAX), Entry("a", 2)];
    assert SortedFrom(Debtors(rows), ds) && SortedFrom(Creditors(rows), []) && Greedy(ds, []) == [];
  }

  /**
   * What two expenses of 2^63 - 1 paid by one member for two others leave: the wrapped nets pass the balance
   * check and none is -2^63, but there is no creditor, so nothing is suggested and nobody is cleared.
   */
  lemma WrappedNetIsNotCleared()
    ensures var rows := WrappedSheet();
            && DistinctRows(rows) && NoMinimum(rows) && Wrap(Total(Nets(rows))) == 0
            && IsSuggestion(rows, []) && !Clears(rows, [])
  {
    var rows := WrappedSheet();
    WrappedSheetTotal();
    WrapShift(-TWO_64);
    WrappedSheetDebtors();
    assert DistinctRows(rows) && NoMinimum(rows);
    hide Nets, Total, Debtors, Creditors, IsSuggestion, Clears;
    NothingSuggested(rows);
    ClearsExactly(rows, []);
  }

  /** A sheet of three members whose nets sum to zero, one of them -2^63. */
  function MinimumSheet(): (r: seq<MemberBalance>) {
    [MemberBalance("a", 0, MIN, 0, 0, MIN), MemberBalance("b", MAX, 0, 0, 0, MAX), MemberBalance("c", 1, 0, 0, 0, 1)]
  }

  /** With nets of -2^63, 2^63 - 1 and 1 it is the -2^63 alone that keeps the suggestions from clearing the group. */
  lemma MinimumSheetIsNotCleared(ts: seq<Settlement>)
    ensures var rows := MinimumSheet();
            && DistinctRows(rows) && !NoMinimum(rows) && Total(Nets(rows)) == 0
            && (IsSuggestion(rows, ts) ==> !Clears(rows, ts))
  {
    var rows := MinimumSheet();
    assert DistinctRows(rows) && rows[0].net == MIN;
    hide Total, Nets, IsSuggestion, Clears, DistinctRows;
    LastNet(rows, "");
    LastNet(rows[..2], "");
    LastNet(rows[..2][..1], "");
    assert rows[..2][..1][..0] == [];
    NoNets();
    if IsSuggestion(rows, ts) { ClearsExactly(rows, ts); }
  }

  ghost predicate AllZero(rows: seq<MemberBalance>) {
    forall i :: 0 <= i < |rows| ==> rows[i].net == 0
  }

  lemma {:induction false} ZeroNets(rows: seq<MemberBalance>, u: string)
    requires AllZero(rows)
    ensures Of(Nets(rows), u) == 0
  {
    if rows != [] {
      assert forall k :: 0 <= k < |rows| - 1 ==> rows[..|rows| - 1][k] == rows[k];
      ZeroNets(rows[..|rows| - 1], u);
      LastNet(rows, u);
    }
  }

  lemma NetAfterPaid(b: Book, rows: seq<MemberBalance>, ts: seq<Settlement>, u: string)
    requires IsSheet(b, rows)
    ensures Wrap(Net(b.(settlements := b.settlements + ts), u)) == Wrap(Of(Nets(rows), u) + Sent(ts, u) - Got(ts, u))
  {
    hide Wrap, Net, Of, Sent, Got, Nets, IsSheet;
    NetAfterBooking(b, ts, u);
    StoredNet(b, rows, u);
    WrapLeft(Net(b, u), Sent(ts, u) - Got(ts, u));
  }

  /**
   * Recomputing the balances with the suggestions booked as settlements gives every member a net of zero,
   * exactly when no net was -2^63 and the nets summed to zero mathematically.
   */
  lemma BookedSuggestionsClearIff(b: Book, rows: seq<MemberBalance>, ts: seq<Settlement>, after: seq<MemberBalance>)
    requires IsSheet(b, rows) && IsSuggestion(rows, ts) && IsSheet(b.(settlements := b.settlements + ts), after)
    ensures AllZero(after) <==> NoMinimum(rows) && Total(Nets(rows)) == 0
  {
    hide Wrap, Net, Of, Sent, Got, IsSuggestion, Nets, Total, IsSheet, NoMinimum, DistinctRows;
    SheetIsDistinct(b, rows);
    SheetIsDistinct(b.(settlements := b.settlements + ts), after);
    ClearsExactly(rows, ts);
    forall u ensures Of(Nets(after), u) == Wrap(Of(Nets(rows), u) + Sent(ts, u) - Got(ts, u)) {
      NetAfterPaid(b, rows, ts, u);
      StoredNet(b.(settlements := b.settlements + ts), after, u);
    }
    if AllZero(after) {
      forall u ensures Of(Nets(after), u) == 0 { ZeroNets(after, u); }
    }
    if Clears(rows, ts) {
      forall i | 0 <= i < |after| ensures after[i].net == 0 { NetOfRow(after, i); }
    }
  }
}
