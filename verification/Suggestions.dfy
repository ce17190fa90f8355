/** Which transfers would settle a group: SuggestSettlements. */
module Suggestions {
  import opened Balances
  import opened Entries
  import opened Int64
  import opened Sums
  import Sorting
  import Strings

  datatype Suggestion = Suggestion(transfer: Settlement, currency: string)

  predicate Larger(a: Entry, b: Entry) {
    a.amount > b.amount
  }

  function Debtors(rows: seq<MemberBalance>): (r: seq<Entry>) {
    if rows == [] then []
    else
      var last := rows[|rows| - 1];
      Debtors(rows[..|rows| - 1]) + if last.net < 0 then [Entry(last.userId, Wrap(0 - last.net))] else []
  }

  function Creditors(rows: seq<MemberBalance>): (r: seq<Entry>) {
    if rows == [] then []
    else
      var last := rows[|rows| - 1];
      Creditors(rows[..|rows| - 1]) + if last.net > 0 then [Entry(last.userId, last.net)] else []
  }

  /** The net positions of a sheet, as entries. */
  function Nets(rows: seq<MemberBalance>): (r: seq<Entry>) {
    if rows == [] then [] else Nets(rows[..|rows| - 1]) + [Entry(rows[|rows| - 1].userId, rows[|rows| - 1].net)]
  }

  function Min(x: int64, y: int64): (r: int64) {
    if x < y then x else y
  }

  /** An entry with part of its amount taken away; nothing at all once the amount is used up. */
  function Reduced(e: Entry, amount: int64): (r: seq<Entry>) {
    if Wrap(e.amount - amount) == 0 then [] else [Entry(e.user, Wrap(e.amount - amount))]
  }

  /** Match the first debtor with the first creditor, as far as the smaller amount goes, until one side is used up. */
  function Greedy(ds: seq<Entry>, cs: seq<Entry>): (r: seq<Settlement>)
    decreases |ds| + |cs|
  {
    if ds == [] || cs == [] then []
    else
      var amount := Min(ds[0].amount, cs[0].amount);
      [Settlement(ds[0].user, cs[0].user, amount)] + Greedy(Reduced(ds[0], amount) + ds[1..], Reduced(cs[0], amount) + cs[1..])
  }

  /** transfers come from some order of the debtors and creditors that sorting by amount allows. */
  ghost predicate IsSuggestion(rows: seq<MemberBalance>, transfers: seq<Settlement>) {
    exists ds, cs :: SortedFrom(Debtors(rows), ds) && SortedFrom(Creditors(rows), cs) && transfers == Greedy(ds, cs)
  }

  ghost predicate SortedFrom(given: seq<Entry>, sorted: seq<Entry>) {
    multiset(sorted) == multiset(given) && Sorting.Sorted(sorted, Larger)
  }

  function Transfers(suggestions: seq<Suggestion>): (r: seq<Settlement>) {
    seq(|suggestions|, i requires 0 <= i < |suggestions| => suggestions[i].transfer)
  }

  method SuggestSettlements(balances: seq<MemberBalance>, currency: string) returns (suggestions: seq<Suggestion>)
    ensures IsSuggestion(balances, Transfers(suggestions))
    ensures forall i :: 0 <= i < |suggestions| ==> suggestions[i].currency == currency
  {
    hide Wrap;
    var debtors: seq<Entry>, creditors: seq<Entry> := [], [];
    for i := 0 to |balances|
      invariant debtors == Debtors(balances[..i]) && creditors == Creditors(balances[..i])
    {
      var balance := balances[i];
      assert balances[..i + 1][..i] == balances[..i];
      if balance.net < 0 {
        debtors := debtors + [Entry(balance.userId, Wrap(0 - balance.net))];
      } else if balance.net > 0 {
        creditors := creditors + [Entry(balance.userId, balance.net)];
      }
    }
    assert balances[..|balances|] == balances;
    debtors := Sorting.Slice(debtors, Larger);
    creditors := Sorting.Slice(creditors, Larger);
    suggestions := MatchInOrder(debtors, creditors, currency);
  }

  /** The two-pointer loop, reducing the amounts in place. */
  method MatchInOrder(ds: seq<Entry>, cs: seq<Entry>, currency: string) returns (suggestions: seq<Suggestion>)
    ensures Transfers(suggestions) == Greedy(ds, cs)
    ensures forall i :: 0 <= i < |suggestions| ==> suggestions[i].currency == currency
  {
    hide Wrap, Greedy, Reduced;
    var debtors, creditors := ds, cs;
    var debtorIndex, creditorIndex := 0, 0;
    suggestions := [];
    NothingMatchedYet(ds, cs);
    while debtorIndex < |debtors| && creditorIndex < |creditors|
      invariant 0 <= debtorIndex <= |debtors| && 0 <= creditorIndex <= |creditors|
      invariant Transfers(suggestions) + Greedy(debtors[debtorIndex..], creditors[creditorIndex..]) == Greedy(ds, cs)
      invariant forall i :: 0 <= i < |suggestions| ==> suggestions[i].currency == currency
      decreases |debtors| - debtorIndex + |creditors| - creditorIndex
    {
      var amount := Min(debtors[debtorIndex].amount, creditors[creditorIndex].amount);
      var transfer := Settlement(debtors[debtorIndex].user, creditors[creditorIndex].user, amount);
      MinReduces(debtors[debtorIndex].amount, creditors[creditorIndex].amount);
      GreedyStep(debtors, debtorIndex, creditors, creditorIndex, Transfers(suggestions), Greedy(ds, cs));
      AfterReduction(debtors, debtorIndex, amount);
      AfterReduction(creditors, creditorIndex, amount);
      assert Transfers(suggestions + [Suggestion(transfer, currency)]) == Transfers(suggestions) + [transfer];
      suggestions := suggestions + [Suggestion(transfer, currency)];
      debtors := debtors[debtorIndex := debtors[debtorIndex].(amount := Wrap(debtors[debtorIndex].amount - amount))];
      creditors := creditors[creditorIndex := creditors[creditorIndex].(amount := Wrap(creditors[creditorIndex].amount - amount))];
      if debtors[debtorIndex].amount == 0 {
        debtorIndex := debtorIndex + 1;
      }
      if creditors[creditorIndex].amount == 0 {
        creditorIndex := creditorIndex + 1;
      }
    }
    NothingLeft(debtors[debtorIndex..], creditors[creditorIndex..]);
  }

  lemma NothingMatchedYet(ds: seq<Entry>, cs: seq<Entry>)
    ensures Transfers([]) + Greedy(ds[0..], cs[0..]) == Greedy(ds, cs)
  {
    assert ds[0..] == ds && cs[0..] == cs;
  }

  lemma NothingLeft(ds: seq<Entry>, cs: seq<Entry>)
    requires ds == [] || cs == []
    ensures Greedy(ds, cs) == []
  {}

  /** One round of the loop takes the next transfer off the greedy matching. */
  lemma GreedyStep(debtors: seq<Entry>, d: nat, creditors: seq<Entry>, c: nat, before: seq<Settlement>, whole: seq<Settlement>)
    requires d < |debtors| && c < |creditors|
    requires before + Greedy(debtors[d..], creditors[c..]) == whole
    ensures var amount := Min(debtors[d].amount, creditors[c].amount);
            before + [Settlement(debtors[d].user, creditors[c].user, amount)]
            + Greedy(Reduced(debtors[d], amount) + debtors[d + 1..], Reduced(creditors[c], amount) + creditors[c + 1..])
            == whole
  {
    assert debtors[d..][1..] == debtors[d + 1..] && creditors[c..][1..] == creditors[c + 1..];
  }

  /** Reducing an entry in place and stepping over it once it is zero leaves the reduced rest. */
  lemma AfterReduction(es: seq<Entry>, i: nat, amount: int64)
    requires i < |es|
    ensures var left := Wrap(es[i].amount - amount);
            es[i := es[i].(amount := left)][if left == 0 then i + 1 else i..] == Reduced(es[i], amount) + es[i + 1..]
  {
    hide Wrap;
  }

  lemma MinReduces(x: int64, y: int64)
    ensures Wrap(x - Min(x, y)) == 0 || Wrap(y - Min(x, y)) == 0
    ensures 0 <= x && 0 <= y ==> Wrap(x - Min(x, y)) == x - Min(x, y) && Wrap(y - Min(x, y)) == y - Min(x, y)
  {}

  // ---------- what the greedy matching does, for any lists of positive amounts ----------

  ghost predicate Positive(es: seq<Entry>) {
    forall i :: 0 <= i < |es| ==> es[i].amount > 0
  }

  function Sent(ts: seq<Settlement>, u: string): (r: int) {
    Of(Outgoing(ts), u)
  }

  function Got(ts: seq<Settlement>, u: string): (r: int) {
    Of(Incoming(ts), u)
  }

  function Moved(ts: seq<Settlement>): (r: int) {
    Total(Outgoing(ts))
  }

  lemma LegsFirst(t: Settlement, ts: seq<Settlement>, u: string)
    ensures Sent([t] + ts, u) == Leg(u, t.fromUser, t.amountMinor) + Sent(ts, u)
    ensures Got([t] + ts, u) == Leg(u, t.toUser, t.amountMinor) + Got(ts, u)
    ensures Moved([t] + ts) == t.amountMinor + Moved(ts)
  {
    LegsConcat([t], ts);
    assert Outgoing([t]) == [Entry(t.fromUser, t.amountMinor)] && Incoming([t]) == [Entry(t.toUser, t.amountMinor)];
    var o, i := Outgoing([t] + ts), Incoming([t] + ts);
    assert o[1..] == Outgoing(ts) && i[1..] == Incoming(ts);
    First(o, u);
    First(i, u);
  }

  lemma ReducedAmounts(es: seq<Entry>, amount: int64, u: string)
    requires es != [] && 0 < amount <= es[0].amount
    ensures var rest := Reduced(es[0], amount) + es[1..];
            Total(rest) == Total(es) - amount && Of(rest, u) == Of(es, u) - Leg(u, es[0].user, amount)
  {
    var rest := Reduced(es[0], amount) + es[1..];
    hide Of, Total;
    First(es, u);
    if amount < es[0].amount {
      assert rest[1..] == es[1..];
      First(rest, u);
    } else {
      assert rest == es[1..];
    }
  }

  lemma ReducedUsers(es: seq<Entry>, amount: int64)
    requires es != []
    ensures var rest := Reduced(es[0], amount) + es[1..];
            forall i :: 0 <= i < |rest| ==> exists j :: 0 <= j < |es| && es[j].user == rest[i].user
  {
    var rest := Reduced(es[0], amount) + es[1..];
    var shift := |es| - |rest|;
    forall i | 0 <= i < |rest| ensures exists j :: 0 <= j < |es| && es[j].user == rest[i].user {
      assert es[i + shift].user == rest[i].user;
    }
  }

  lemma ReducedPositive(es: seq<Entry>, amount: int64)
    requires es != [] && Positive(es) && 0 < amount <= es[0].amount
    ensures var rest := Reduced(es[0], amount) + es[1..];
            Positive(rest) && |rest| == |es| - (if amount == es[0].amount then 1 else 0)
  {}

  /** Taking an amount from the first entry takes it from that user and from the total, and keeps the list positive. */
  lemma ReducedFirst(es: seq<Entry>, amount: int64, u: string)
    requires es != [] && Positive(es) && 0 < amount <= es[0].amount
    ensures var rest := Reduced(es[0], amount) + es[1..];
            && Positive(rest) && Total(rest) == Total(es) - amount
            && Of(rest, u) == Of(es, u) - Leg(u, es[0].user, amount)
            && (forall i :: 0 <= i < |rest| ==> exists j :: 0 <= j < |es| && es[j].user == rest[i].user)
            && |rest| == |es| - (if amount == es[0].amount then 1 else 0)
  {
    hide Of, Total, Positive, Reduced, Leg;
    ReducedAmounts(es, amount, u);
    ReducedUsers(es, amount);
    ReducedPositive(es, amount);
  }

  lemma {:induction false} PositiveTotal(es: seq<Entry>)
    requires Positive(es)
    ensures Total(es) >= |es|
  {
    if es != [] { PositiveTotal(es[..|es| - 1]); }
  }

  /** Every debtor sends exactly its debt and every creditor receives exactly its credit, when the totals agree. */
  lemma {:induction false} GreedySettles(ds: seq<Entry>, cs: seq<Entry>, u: string)
    requires Positive(ds) && Positive(cs) && Total(ds) == Total(cs)
    ensures Sent(Greedy(ds, cs), u) == Of(ds, u) && Got(Greedy(ds, cs), u) == Of(cs, u)
    ensures Moved(Greedy(ds, cs)) == Total(ds)
    decreases |ds| + |cs|
  {
    PositiveTotal(ds);
    PositiveTotal(cs);
    if ds != [] {
      var amount := Min(ds[0].amount, cs[0].amount);
      ReducedFirst(ds, amount, u);
      ReducedFirst(cs, amount, u);
      GreedySettles(Reduced(ds[0], amount) + ds[1..], Reduced(cs[0], amount) + cs[1..], u);
      LegsFirst(Settlement(ds[0].user, cs[0].user, amount),
                Greedy(Reduced(ds[0], amount) + ds[1..], Reduced(cs[0], amount) + cs[1..]), u);
    }
  }

  ghost predicate Between(ts: seq<Settlement>, ds: seq<Entry>, cs: seq<Entry>) {
    forall i :: 0 <= i < |ts| ==>
      && (exists j :: 0 <= j < |ds| && ds[j].user == ts[i].fromUser)
      && (exists j :: 0 <= j < |cs| && cs[j].user == ts[i].toUser)
  }

  ghost predicate PositiveTransfers(ts: seq<Settlement>) {
    forall i :: 0 <= i < |ts| ==> ts[i].amountMinor > 0
  }

  /** A round of matching uses up an entry on one of the sides, whatever the amounts. */
  lemma RoundUsesUp(ds: seq<Entry>, cs: seq<Entry>)
    requires ds != [] && cs != []
    ensures var amount := Min(ds[0].amount, cs[0].amount);
            |Reduced(ds[0], amount) + ds[1..]| + |Reduced(cs[0], amount) + cs[1..]| < |ds| + |cs|
  {
    hide Wrap;
    MinReduces(ds[0].amount, cs[0].amount);
  }

  /** From debtors to creditors only, and fewer transfers than there are people involved, whatever the amounts. */
  lemma {:induction false} GreedyIsEconomical(ds: seq<Entry>, cs: seq<Entry>)
    ensures Between(Greedy(ds, cs), ds, cs)
    ensures |Greedy(ds, cs)| <= if ds == [] || cs == [] then 0 else |ds| + |cs| - 1
    decreases |ds| + |cs|
  {
    if ds != [] && cs != [] {
      hide Reduced, Between;
      var amount := Min(ds[0].amount, cs[0].amount);
      var ds', cs' := Reduced(ds[0], amount) + ds[1..], Reduced(cs[0], amount) + cs[1..];
      RoundUsesUp(ds, cs);
      ReducedUsers(ds, amount);
      ReducedUsers(cs, amount);
      GreedyIsEconomical(ds', cs');
      var ts := Greedy(ds', cs');
      assert Greedy(ds, cs) == [Settlement(ds[0].user, cs[0].user, amount)] + ts;
      BetweenFirst(Settlement(ds[0].user, cs[0].user, amount), ts, ds, cs, ds', cs');
    }
  }

  /** Positive debts and credits are matched by positive transfers. */
  lemma {:induction false} GreedyIsPositive(ds: seq<Entry>, cs: seq<Entry>)
    requires Positive(ds) && Positive(cs)
    ensures PositiveTransfers(Greedy(ds, cs))
    decreases |ds| + |cs|
  {
    hide Reduced;
    if ds != [] && cs != [] {
      var amount := Min(ds[0].amount, cs[0].amount);
      ReducedPositive(ds, amount);
      ReducedPositive(cs, amount);
      GreedyIsPositive(Reduced(ds[0], amount) + ds[1..], Reduced(cs[0], amount) + cs[1..]);
    }
  }

  /** Nobody sends more than their debt or receives more than their credit, whatever the totals. */
  lemma {:induction false} GreedyBounded(ds: seq<Entry>, cs: seq<Entry>, u: string)
    requires Positive(ds) && Positive(cs)
    ensures 0 <= Sent(Greedy(ds, cs), u) <= Of(ds, u) && 0 <= Got(Greedy(ds, cs), u) <= Of(cs, u)
    decreases |ds| + |cs|
  {
    hide Of, Total, Reduced;
    if ds != [] && cs != [] {
      var amount := Min(ds[0].amount, cs[0].amount);
      var ds', cs' := Reduced(ds[0], amount) + ds[1..], Reduced(cs[0], amount) + cs[1..];
      ReducedFirst(ds, amount, u);
      ReducedFirst(cs, amount, u);
      GreedyBounded(ds', cs', u);
      LegsFirst(Settlement(ds[0].user, cs[0].user, amount), Greedy(ds', cs'), u);
    } else {
      NoEntries(u);
      NonNegative(ds, u);
      NonNegative(cs, u);
    }
  }

  lemma BetweenFirst(t: Settlement, ts: seq<Settlement>, ds: seq<Entry>, cs: seq<Entry>, ds': seq<Entry>, cs': seq<Entry>)
    requires ds != [] && cs != [] && t.fromUser == ds[0].user && t.toUser == cs[0].user
    requires Between(ts, ds', cs')
    requires forall i :: 0 <= i < |ds'| ==> exists j :: 0 <= j < |ds| && ds[j].user == ds'[i].user
    requires forall i :: 0 <= i < |cs'| ==> exists j :: 0 <= j < |cs| && cs[j].user == cs'[i].user
    ensures Between([t] + ts, ds, cs)
  {
    var all := [t] + ts;
    forall i | 0 <= i < |all|
      ensures exists j :: 0 <= j < |ds| && ds[j].user == all[i].fromUser
      ensures exists j :: 0 <= j < |cs| && cs[j].user == all[i].toUser
    {
      if i > 0 { assert all[i] == ts[i - 1]; }
    }
  }

  // ---------- what the suggestions do for a group ----------

  ghost predicate NoMinimum(rows: seq<MemberBalance>) {
    forall i :: 0 <= i < |rows| ==> rows[i].net != MIN
  }

  /** After the transfers, as int64 arithmetic stores it, nobody owes or is owed anything. */
  ghost predicate Clears(rows: seq<MemberBalance>, ts: seq<Settlement>) {
    forall u :: Wrap(Of(Nets(rows), u) + Sent(ts, u) - Got(ts, u)) == 0
  }

  lemma Negated(x: int64)
    requires x != MIN
    ensures Wrap(0 - x) == -x
  {}

  lemma PositiveAppend(es: seq<Entry>, e: Entry)
    requires Positive(es) && e.amount > 0
    ensures Positive(es + [e]) && Positive(es + [])
  {}

  lemma {:induction false} SidesArePositive(rows: seq<MemberBalance>)
    requires NoMinimum(rows)
    ensures Positive(Debtors(rows)) && Positive(Creditors(rows))
  {
    if rows != [] {
      hide Wrap, Positive;
      var front, last := rows[..|rows| - 1], rows[|rows| - 1];
      SidesArePositive(front);
      Negated(last.net);
      if last.net < 0 { PositiveAppend(Debtors(front), Entry(last.userId, Wrap(0 - last.net))); }
      if last.net > 0 { PositiveAppend(Creditors(front), Entry(last.userId, last.net)); }
      assert Debtors(front) + [] == Debtors(front) && Creditors(front) + [] == Creditors(front);
    }
  }

  lemma LastNet(rows: seq<MemberBalance>, u: string)
    requires rows != []
    ensures var front, last := rows[..|rows| - 1], rows[|rows| - 1];
            && Of(Nets(rows), u) == Of(Nets(front), u) + Leg(u, last.userId, last.net)
            && Total(Nets(rows)) == Total(Nets(front)) + last.net
  {
    Append(Nets(rows[..|rows| - 1]), Entry(rows[|rows| - 1].userId, rows[|rows| - 1].net), u);
  }

  lemma LastCreditor(rows: seq<MemberBalance>, u: string)
    requires rows != []
    ensures var front, last := rows[..|rows| - 1], rows[|rows| - 1];
            var credit := if last.net > 0 then last.net else 0;
            && Of(Creditors(rows), u) == Of(Creditors(front), u) + Leg(u, last.userId, credit)
            && Total(Creditors(rows)) == Total(Creditors(front)) + credit
  {
    var front, last := rows[..|rows| - 1], rows[|rows| - 1];
    Append(Creditors(front), Entry(last.userId, last.net), u);
    assert Creditors(front) + [] == Creditors(front);
  }

  lemma LastDebtor(rows: seq<MemberBalance>, u: string)
    requires rows != [] && rows[|rows| - 1].net != MIN
    ensures var front, last := rows[..|rows| - 1], rows[|rows| - 1];
            var debt := if last.net < 0 then -last.net else 0;
            && Of(Debtors(rows), u) == Of(Debtors(front), u) + Leg(u, last.userId, debt)
            && Total(Debtors(rows)) == Total(Debtors(front)) + debt
  {
    hide Wrap;
    var front, last := rows[..|rows| - 1], rows[|rows| - 1];
    Negated(last.net);
    Append(Debtors(front), Entry(last.userId, Wrap(0 - last.net)), u);
    assert Debtors(front) + [] == Debtors(front);
  }

  lemma {:induction false} NetsSplit(rows: seq<MemberBalance>, u: string)
    requires NoMinimum(rows)
    ensures Of(Nets(rows), u) == Of(Creditors(rows), u) - Of(Debtors(rows), u)
    ensures Total(Nets(rows)) == Total(Creditors(rows)) - Total(Debtors(rows))
  {
    if rows == [] {
      NoEntries(u);
    } else {
      hide Of, Total, Nets, Debtors, Creditors;
      assert forall i :: 0 <= i < |rows| - 1 ==> rows[..|rows| - 1][i] == rows[i];
      NetsSplit(rows[..|rows| - 1], u);
      LastNet(rows, u);
      LastDebtor(rows, u);
      LastCreditor(rows, u);
    }
  }

  lemma SortedKeeps(given: seq<Entry>, sorted: seq<Entry>, u: string)
    requires SortedFrom(given, sorted)
    ensures Total(sorted) == Total(given) && Of(sorted, u) == Of(given, u) && |sorted| == |given|
    ensures Positive(given) ==> Positive(sorted)
  {
    Permutation(given, sorted, u);
    assert |multiset(given)| == |given| && |multiset(sorted)| == |sorted|;
    if Positive(given) {
      forall i | 0 <= i < |sorted| ensures sorted[i].amount > 0 { Sorting.SameMembers(sorted, given, sorted[i]); }
    }
  }

  /** Whatever order the sorts chose, every net position becomes exactly zero. */
  lemma SuggestionsSettle(rows: seq<MemberBalance>, ts: seq<Settlement>, u: string)
    requires IsSuggestion(rows, ts) && Total(Nets(rows)) == 0 && NoMinimum(rows)
    ensures Of(Nets(rows), u) + Sent(ts, u) - Got(ts, u) == 0
    ensures Moved(ts) == Total(Creditors(rows))
  {
    var ds: seq<Entry>, cs: seq<Entry> :| SortedFrom(Debtors(rows), ds) && SortedFrom(Creditors(rows), cs) && ts == Greedy(ds, cs);
    SidesArePositive(rows);
    NetsSplit(rows, u);
    SortedKeeps(Debtors(rows), ds, u);
    SortedKeeps(Creditors(rows), cs, u);
    GreedySettles(ds, cs, u);
  }

  ghost predicate From(rows: seq<MemberBalance>, u: string, debtor: bool) {
    exists i :: 0 <= i < |rows| && rows[i].userId == u && if debtor then rows[i].net < 0 else rows[i].net > 0
  }

  lemma {:induction false} Sides(rows: seq<MemberBalance>, e: Entry)
    ensures e in Debtors(rows) ==> From(rows, e.user, true)
    ensures e in Creditors(rows) ==> From(rows, e.user, false)
  {
    if rows != [] {
      var front, last := rows[..|rows| - 1], rows[|rows| - 1];
      Sides(front, e);
      assert forall i :: 0 <= i < |front| ==> front[i] == rows[i];
    }
  }

  /** Only debtors send, only creditors receive, and one transfer fewer than people suffices, for every sheet. */
  lemma SuggestionsAreEconomical(rows: seq<MemberBalance>, ts: seq<Settlement>)
    requires IsSuggestion(rows, ts)
    ensures |ts| <= if Debtors(rows) == [] || Creditors(rows) == [] then 0 else |Debtors(rows)| + |Creditors(rows)| - 1
    ensures forall t: Settlement :: t in ts ==> From(rows, t.fromUser, true) && From(rows, t.toUser, false)
  {
    hide Greedy, Debtors, Creditors, From, Between, SortedFrom;
    var ds: seq<Entry>, cs: seq<Entry> :| SortedFrom(Debtors(rows), ds) && SortedFrom(Creditors(rows), cs) && ts == Greedy(ds, cs);
    SortedKeeps(Debtors(rows), ds, "");
    SortedKeeps(Creditors(rows), cs, "");
    GreedyIsEconomical(ds, cs);
    forall t: Settlement | t in ts ensures From(rows, t.fromUser, true) && From(rows, t.toUser, false) {
      TransferSides(rows, ds, cs, ts, t);
    }
  }

  lemma TransferSides(rows: seq<MemberBalance>, ds: seq<Entry>, cs: seq<Entry>, ts: seq<Settlement>, t: Settlement)
    requires SortedFrom(Debtors(rows), ds) && SortedFrom(Creditors(rows), cs) && Between(ts, ds, cs) && t in ts
    ensures From(rows, t.fromUser, true) && From(rows, t.toUser, false)
  {
    hide Debtors, Creditors, From;
    var i :| 0 <= i < |ts| && ts[i] == t;
    var j :| 0 <= j < |ds| && ds[j].user == t.fromUser;
    var k :| 0 <= k < |cs| && cs[k].user == t.toUser;
    Sorting.SameMembers(ds, Debtors(rows), ds[j]);
    Sorting.SameMembers(cs, Creditors(rows), cs[k]);
    Sides(rows, ds[j]);
    Sides(rows, cs[k]);
  }

  // ---------- no other way of settling moves less money ----------

  ghost predicate DistinctRows(rows: seq<MemberBalance>) {
    forall i, j :: 0 <= i < j < |rows| ==> rows[i].userId != rows[j].userId
  }

  lemma {:induction false} CreditorsAreDistinct(rows: seq<MemberBalance>)
    requires DistinctRows(rows)
    ensures DistinctUsers(Creditors(rows))
    ensures forall i :: 0 <= i < |Creditors(rows)| ==>
              exists j :: 0 <= j < |rows| && rows[j].userId == Creditors(rows)[i].user && rows[j].net == Creditors(rows)[i].amount
  {
    if rows != [] {
      var front, last := rows[..|rows| - 1], rows[|rows| - 1];
      assert forall j :: 0 <= j < |front| ==> front[j] == rows[j];
      CreditorsAreDistinct(front);
      var cs := Creditors(rows);
      forall i | 0 <= i < |cs|
        ensures exists j :: 0 <= j < |rows| && rows[j].userId == cs[i].user && rows[j].net == cs[i].amount
      {
        if i < |Creditors(front)| {
          var j :| 0 <= j < |front| && front[j].userId == Creditors(front)[i].user && front[j].net == Creditors(front)[i].amount;
          assert rows[j] == front[j];
        } else {
          assert rows[|rows| - 1] == last;
        }
      }
    }
  }

  lemma {:induction false} NetOfRow(rows: seq<MemberBalance>, j: nat)
    requires DistinctRows(rows) && j < |rows|
    ensures Of(Nets(rows), rows[j].userId) == rows[j].net
  {
    var front, last := rows[..|rows| - 1], rows[|rows| - 1];
    assert forall k :: 0 <= k < |front| ==> front[k] == rows[k];
    Append(Nets(front), Entry(last.userId, last.net), rows[j].userId);
    if j < |front| {
      NetOfRow(front, j);
    } else {
      NobodyElse(front, last.userId);
    }
  }

  lemma {:induction false} NobodyElse(rows: seq<MemberBalance>, u: string)
    requires forall j :: 0 <= j < |rows| ==> rows[j].userId != u
    ensures Of(Nets(rows), u) == 0
  {
    if rows != [] {
      var front, last := rows[..|rows| - 1], rows[|rows| - 1];
      NobodyElse(front, u);
      Append(Nets(front), Entry(last.userId, last.net), u);
    }
  }

  lemma {:induction false} LegAmounts(ts: seq<Settlement>)
    requires forall i :: 0 <= i < |ts| ==> ts[i].amountMinor >= 0
    ensures |Outgoing(ts)| == |ts| == |Incoming(ts)|
    ensures forall i :: 0 <= i < |ts| ==> Outgoing(ts)[i].amount >= 0 && Incoming(ts)[i].amount >= 0
  {
    if ts != [] { LegAmounts(ts[..|ts| - 1]); }
  }

  /** A member's credit is what is positive of the net. */
  lemma {:induction false} CreditOf(rows: seq<MemberBalance>, u: string)
    requires DistinctRows(rows)
    ensures var net := Of(Nets(rows), u); Fits(net) && Of(Creditors(rows), u) == if net > 0 then net else 0
  {
    if rows == [] {
      NoEntries(u);
    } else {
      hide Of, Total, Nets, Creditors;
      var front, last := rows[..|rows| - 1], rows[|rows| - 1];
      CreditOf(front, u);
      LastNet(rows, u);
      LastCreditor(rows, u);
      if u == last.userId { NobodyElse(front, u); }
    }
  }

  /** A member whom int64 arithmetic shows at zero has moved at least the net: the next such sum is 2^64 away. */
  lemma MovesTheNet(net: int, sent: int, got: int)
    requires Fits(net) && sent >= 0 && got >= 0 && Wrap(net + sent - got) == 0
    ensures 2 * (if net > 0 then net else 0) <= net + sent + got
  {
    hide Wrap;
    WrapIsModular(net + sent - got, 0);
    assert Wrap(0) == 0;
    var left := net + sent - got;
    assert left == 0 || left >= TWO_64 || left <= -TWO_64;
  }

  /**
   * Any transfers after which the group shows zero for everybody move at least the sum of the positive
   * positions, if the nets sum to zero.
   */
  lemma NothingMovesLess(rows: seq<MemberBalance>, other: seq<Settlement>)
    requires DistinctRows(rows) && Total(Nets(rows)) == 0 && Clears(rows, other)
    requires forall i :: 0 <= i < |other| ==> other[i].amountMinor >= 0
    ensures Moved(other) >= Total(Creditors(rows))
  {
    hide Of, Total, Outgoing, Incoming, Creditors, Nets, Wrap;
    var cs, nets, out, back := Creditors(rows), Nets(rows), Outgoing(other), Incoming(other);
    var all := Users(cs) + Users(nets) + Users(out) + Users(back);
    LegAmounts(other);
    forall u | u in all ensures 2 * OfEach(cs)(u) <= OfEach(nets)(u) + OfEach(out)(u) + OfEach(back)(u) {
      CreditOf(rows, u);
      NonNegative(out, u);
      NonNegative(back, u);
      MovesTheNet(Of(nets, u), Sent(other, u), Got(other, u));
    }
    SumOverTwice(all, OfEach(cs), OfEach(nets), OfEach(out), OfEach(back));
    SumOfUsers(cs, all);
    SumOfUsers(nets, all);
    SumOfUsers(out, all);
    SumOfUsers(back, all);
    LegsAgree(other);
  }

  // ---------- the sheet of a book ----------

  lemma SheetIsDistinct(b: Book, rows: seq<MemberBalance>)
    requires IsSheet(b, rows)
    ensures DistinctRows(rows)
  {
    forall i, j | 0 <= i < j < |rows| ensures rows[i].userId != rows[j].userId {
      Strings.LessTotal(rows[i].userId, rows[j].userId);
    }
  }

  lemma NetAfterBooking(b: Book, ts: seq<Settlement>, u: string)
    ensures Net(b.(settlements := b.settlements + ts), u) == Net(b, u) + Sent(ts, u) - Got(ts, u)
  {
    LegsConcat(b.settlements, ts);
    Concat(Outgoing(b.settlements), Outgoing(ts), u);
    Concat(Incoming(b.settlements), Incoming(ts), u);
  }

  /** The net position in the sheet is the stored net of the book, also for users it does not mention. */
  lemma StoredNet(b: Book, rows: seq<MemberBalance>, u: string)
    requires IsSheet(b, rows)
    ensures Of(Nets(rows), u) == Wrap(Net(b, u))
  {
    SheetIsDistinct(b, rows);
    if u in Mentioned(b) {
      assert Row(b, u) in rows;
      var j :| 0 <= j < |rows| && rows[j] == Row(b, u);
      NetOfRow(rows, j);
    } else {
      NobodyElse(rows, u);
      Absent(b.payments, u);
      Absent(b.splits, u);
      Absent(Outgoing(b.settlements), u);
      Absent(Incoming(b.settlements), u);
      assert Wrap(0) == 0;
    }
  }
}
