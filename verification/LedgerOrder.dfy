/** The sheet of a ledger does not depend on the order in which its rows are listed. */
module LedgerOrder {
  import opened Balances
  import opened Entries
  import opened Int64
  import opened Ledger
  import opened Wrappers
  import Sorting

  lemma {:induction false} FlowConcat(ts: seq<GroupTransaction>, ts': seq<GroupTransaction>, payments: bool, kind: Option<TransactionType>)
    ensures Flow(ts + ts', payments, kind) == Flow(ts, payments, kind) + Flow(ts', payments, kind)
  {
    hide FlowOf;
    if ts' == [] {
      assert ts + ts' == ts;
    } else {
      FlowConcat(ts, ts'[..|ts'| - 1], payments, kind);
      assert (ts + ts')[..|ts + ts'| - 1] == ts + ts'[..|ts'| - 1];
    }
  }

  lemma FlowWithout(ts: seq<GroupTransaction>, i: nat, payments: bool, kind: Option<TransactionType>, u: string)
    requires i < |ts|
    ensures var rest := ts[..i] + ts[i + 1..];
            && Of(Flow(ts, payments, kind), u) == Of(FlowOf(ts[i], payments, kind), u) + Of(Flow(rest, payments, kind), u)
            && Users(Flow(ts, payments, kind)) == Users(FlowOf(ts[i], payments, kind)) + Users(Flow(rest, payments, kind))
  {
    hide Of, Users, FlowOf;
    assert ts == ts[..i + 1] + ts[i + 1..] && ts[..i + 1] == ts[..i] + [ts[i]];
    FlowAppend(ts[..i], ts[i], payments, kind, u);
    FlowConcat(ts[..i + 1], ts[i + 1..], payments, kind);
    FlowConcat(ts[..i], ts[i + 1..], payments, kind);
    Concat(Flow(ts[..i + 1], payments, kind), Flow(ts[i + 1..], payments, kind), u);
    Concat(Flow(ts[..i], payments, kind), Flow(ts[i + 1..], payments, kind), u);
    UsersConcat(Flow(ts[..i + 1], payments, kind), Flow(ts[i + 1..], payments, kind));
    UsersConcat(Flow(ts[..i], payments, kind), Flow(ts[i + 1..], payments, kind));
  }

  lemma {:induction false} FlowPermutation(ts: seq<GroupTransaction>, ts': seq<GroupTransaction>, payments: bool,
                                           kind: Option<TransactionType>, u: string)
    requires multiset(ts) == multiset(ts')
    ensures Of(Flow(ts, payments, kind), u) == Of(Flow(ts', payments, kind), u)
    ensures Users(Flow(ts, payments, kind)) == Users(Flow(ts', payments, kind))
  {
    hide Of, Users, Flow, FlowOf;
    if ts == [] {
      assert |multiset(ts')| == |ts'|;
    } else {
      assert ts[0] in multiset(ts');
      var i :| 0 <= i < |ts'| && ts'[i] == ts[0];
      Sorting.MultisetPeel(ts, 0, ts', i);
      FlowPermutation(ts[..0] + ts[1..], ts'[..i] + ts'[i + 1..], payments, kind, u);
      FlowWithout(ts, 0, payments, kind, u);
      FlowWithout(ts', i, payments, kind, u);
    }
  }

  lemma LegsWithout(ss: seq<Settlement>, i: nat, u: string)
    requires i < |ss|
    ensures var rest := ss[..i] + ss[i + 1..];
            && Of(Outgoing(ss), u) == Leg(u, ss[i].fromUser, ss[i].amountMinor) + Of(Outgoing(rest), u)
            && Of(Incoming(ss), u) == Leg(u, ss[i].toUser, ss[i].amountMinor) + Of(Incoming(rest), u)
            && Users(Outgoing(ss)) == {ss[i].fromUser} + Users(Outgoing(rest))
            && Users(Incoming(ss)) == {ss[i].toUser} + Users(Incoming(rest))
  {
    hide Of, Users, Outgoing, Incoming;
    assert ss == ss[..i + 1] + ss[i + 1..] && ss[..i + 1] == ss[..i] + [ss[i]];
    SettlementLegs(ss[..i], ss[i], u);
    LegsConcat(ss[..i + 1], ss[i + 1..]);
    LegsConcat(ss[..i], ss[i + 1..]);
    Concat(Outgoing(ss[..i + 1]), Outgoing(ss[i + 1..]), u);
    Concat(Outgoing(ss[..i]), Outgoing(ss[i + 1..]), u);
    Concat(Incoming(ss[..i + 1]), Incoming(ss[i + 1..]), u);
    Concat(Incoming(ss[..i]), Incoming(ss[i + 1..]), u);
    UsersConcat(Outgoing(ss[..i + 1]), Outgoing(ss[i + 1..]));
    UsersConcat(Outgoing(ss[..i]), Outgoing(ss[i + 1..]));
    UsersConcat(Incoming(ss[..i + 1]), Incoming(ss[i + 1..]));
    UsersConcat(Incoming(ss[..i]), Incoming(ss[i + 1..]));
  }

  lemma {:induction false} LegsPermutation(ss: seq<Settlement>, ss': seq<Settlement>, u: string)
    requires multiset(ss) == multiset(ss')
    ensures Of(Outgoing(ss), u) == Of(Outgoing(ss'), u) && Of(Incoming(ss), u) == Of(Incoming(ss'), u)
    ensures Users(Outgoing(ss)) == Users(Outgoing(ss')) && Users(Incoming(ss)) == Users(Incoming(ss'))
  {
    hide Of, Users, Outgoing, Incoming;
    if ss == [] {
      assert |multiset(ss')| == |ss'|;
    } else {
      assert ss[0] in multiset(ss');
      var i :| 0 <= i < |ss'| && ss'[i] == ss[0];
      Sorting.MultisetPeel(ss, 0, ss', i);
      LegsPermutation(ss[..0] + ss[1..], ss'[..i] + ss'[i + 1..], u);
      LegsWithout(ss, 0, u);
      LegsWithout(ss', i, u);
    }
  }

  lemma GroupRowPermutation(ts: seq<GroupTransaction>, ts': seq<GroupTransaction>, ss: seq<Settlement>, ss': seq<Settlement>, u: string)
    requires multiset(ts) == multiset(ts') && multiset(ss) == multiset(ss')
    ensures GroupRow(ts, ss, u) == GroupRow(ts', ss', u)
    ensures GroupMentioned(ts, ss) == GroupMentioned(ts', ss')
  {
    hide Of, Users, Flow, Wrap, Outgoing, Incoming;
    FlowPermutation(ts, ts', true, None, u);
    FlowPermutation(ts, ts', false, None, u);
    FlowPermutation(ts, ts', true, Some(Expense), u);
    FlowPermutation(ts, ts', false, Some(Expense), u);
    FlowPermutation(ts, ts', true, Some(Income), u);
    FlowPermutation(ts, ts', false, Some(Income), u);
    LegsPermutation(ss, ss', u);
  }

  /** A sheet of the ledger listed in one order is its sheet in any other order. */
  lemma SheetPermutation(ts: seq<GroupTransaction>, ts': seq<GroupTransaction>, ss: seq<Settlement>, ss': seq<Settlement>,
                         rows: seq<MemberBalance>)
    requires multiset(ts) == multiset(ts') && multiset(ss) == multiset(ss')
    requires IsGroupSheet(ts, ss, rows)
    ensures IsGroupSheet(ts', ss', rows)
  {
    hide GroupRow, GroupMentioned;
    GroupRowPermutation(ts, ts', ss, ss', "");
    forall u ensures GroupRow(ts, ss, u) == GroupRow(ts', ss', u) { GroupRowPermutation(ts, ts', ss, ss', u); }
  }
}
