/** What is listed of a ledger, and what each operation does to the nets of each group and currency. */
module LedgerEffects {
  import opened Balances
  import opened Entries
  import opened Int64
  import opened Ledger
  import opened LedgerService
  import opened Wrappers

  // ---------- what is listed ----------

  lemma LastTransaction(ts: seq<GroupTransaction>, groupId: string, currency: string, t: GroupTransaction)
    requires ts != []
    ensures var front, last := ts[..|ts| - 1], ts[|ts| - 1];
            && multiset(ts)[t] == multiset(front)[t] + (if last == t then 1 else 0)
            && multiset(LiveTransactions(ts, groupId, currency))[t]
               == multiset(LiveTransactions(front, groupId, currency))[t]
                  + if last == t && t.groupId == groupId && t.currency == currency && !t.deleted then 1 else 0
  {
    assert ts == ts[..|ts| - 1] + [ts[|ts| - 1]];
  }

  /** A transaction is listed as often as it is stored if it is of the group and currency and not deleted, and otherwise never. */
  lemma {:induction false} ListedTransactions(ts: seq<GroupTransaction>, groupId: string, currency: string, t: GroupTransaction)
    ensures multiset(LiveTransactions(ts, groupId, currency))[t]
            == if t.groupId == groupId && t.currency == currency && !t.deleted then multiset(ts)[t] else 0
  {
    if ts != [] {
      LastTransaction(ts, groupId, currency, t);
      hide LiveTransactions;
      ListedTransactions(ts[..|ts| - 1], groupId, currency, t);
    }
  }

  predicate SettlesHere(r: SettlementRow, groupId: string, currency: string, s: Settlement) {
    r.groupId == groupId && r.currency == currency && r.transfer == s
  }

  /** The places of the rows of one group and currency that move the given amount between the given members. */
  function PlacesOf(rows: seq<SettlementRow>, groupId: string, currency: string, s: Settlement): (r: set<nat>) {
    set i: nat | i < |rows| && SettlesHere(rows[i], groupId, currency, s)
  }

  lemma LastPlace(rows: seq<SettlementRow>, groupId: string, currency: string, s: Settlement)
    requires rows != []
    ensures var n := |rows| - 1;
            |PlacesOf(rows, groupId, currency, s)|
            == |PlacesOf(rows[..n], groupId, currency, s)| + if SettlesHere(rows[n], groupId, currency, s) then 1 else 0
  {
    hide SettlesHere;
    var n := |rows| - 1;
    var places := PlacesOf(rows[..n], groupId, currency, s);
    assert PlacesOf(rows, groupId, currency, s) == places + if SettlesHere(rows[n], groupId, currency, s) then {n} else {};
    assert n !in places;
  }

  lemma LastListed(rows: seq<SettlementRow>, groupId: string, currency: string, s: Settlement)
    requires rows != []
    ensures var n := |rows| - 1;
            multiset(LiveSettlements(rows, groupId, currency))[s]
            == multiset(LiveSettlements(rows[..n], groupId, currency))[s] + if SettlesHere(rows[n], groupId, currency, s) then 1 else 0
  {}

  /** A transfer is listed once for every settlement of the group and currency with that transfer. */
  lemma {:induction false} ListedSettlements(rows: seq<SettlementRow>, groupId: string, currency: string, s: Settlement)
    ensures multiset(LiveSettlements(rows, groupId, currency))[s] == |PlacesOf(rows, groupId, currency, s)|
  {
    if rows == [] {
      assert PlacesOf(rows, groupId, currency, s) == {};
    } else {
      hide LiveSettlements, PlacesOf, SettlesHere;
      ListedSettlements(rows[..|rows| - 1], groupId, currency, s);
      LastPlace(rows, groupId, currency, s);
      LastListed(rows, groupId, currency, s);
    }
  }

  // ---------- the nets of a group ----------

  /** The net of a member in the ledger of a group and currency. */
  function NetIn(s: LedgerState, groupId: string, currency: string, u: string): (r: int) {
    GroupNet(LiveTransactions(s.transactions, groupId, currency), LiveSettlements(s.settlements, groupId, currency), u)
  }

  /** What one stored transaction adds to that net. */
  function Share(t: GroupTransaction, groupId: string, currency: string, u: string): (r: int) {
    if t.groupId == groupId && t.currency == currency && !t.deleted then Net(BookOf(t), u) else 0
  }

  /** What one stored settlement adds: the sender's net rises by what was sent, the receiver's falls. */
  function Settles(r: SettlementRow, groupId: string, currency: string, u: string): (x: int) {
    if r.groupId == groupId && r.currency == currency
    then (if r.transfer.fromUser == u then r.transfer.amountMinor else 0) - (if r.transfer.toUser == u then r.transfer.amountMinor else 0)
    else 0
  }

  lemma NetOfParts(ts: seq<GroupTransaction>, ss: seq<Settlement>, u: string)
    ensures GroupNet(ts, ss, u) == GroupNet(ts, [], u) + GroupNet([], ss, u)
    ensures GroupNet([], ss, u) == Of(Outgoing(ss), u) - Of(Incoming(ss), u)
  {
    hide Of, Flow, Outgoing, Incoming;
    NoFlow(u);
  }

  lemma NoFlow(u: string)
    ensures forall payments, kind :: Of(Flow([], payments, kind), u) == 0
    ensures Of(Outgoing([]), u) == 0 && Of(Incoming([]), u) == 0
  {}

  lemma SettledByOne(ss: seq<Settlement>, s: Settlement, u: string)
    ensures GroupNet([], ss + [s], u)
            == GroupNet([], ss, u) + (if s.fromUser == u then s.amountMinor else 0) - (if s.toUser == u then s.amountMinor else 0)
  {
    hide Of, Outgoing, Incoming, Flow;
    NetOfParts([], ss, u);
    NetOfParts([], ss + [s], u);
    LastLegs(ss, s);
    Append(Outgoing(ss), Entry(s.fromUser, s.amountMinor), u);
    Append(Incoming(ss), Entry(s.toUser, s.amountMinor), u);
  }

  lemma LastLegs(ss: seq<Settlement>, s: Settlement)
    ensures Outgoing(ss + [s]) == Outgoing(ss) + [Entry(s.fromUser, s.amountMinor)]
    ensures Incoming(ss + [s]) == Incoming(ss) + [Entry(s.toUser, s.amountMinor)]
  {
    assert (ss + [s])[..|ss|] == ss;
  }

  lemma LiveAppend(ts: seq<GroupTransaction>, t: GroupTransaction, groupId: string, currency: string, u: string)
    ensures GroupNet(LiveTransactions(ts + [t], groupId, currency), [], u)
            == GroupNet(LiveTransactions(ts, groupId, currency), [], u) + Share(t, groupId, currency, u)
  {
    hide GroupNet, Net;
    assert (ts + [t])[..|ts|] == ts;
    var live := LiveTransactions(ts, groupId, currency);
    GroupNetAppend(live, t, u);
    assert live + [] == live;
  }

  /** Replacing one stored transaction replaces its share. */
  lemma {:induction false} LiveUpdate(ts: seq<GroupTransaction>, i: nat, t: GroupTransaction, groupId: string, currency: string, u: string)
    requires i < |ts|
    ensures GroupNet(LiveTransactions(ts[i := t], groupId, currency), [], u)
            == GroupNet(LiveTransactions(ts, groupId, currency), [], u) - Share(ts[i], groupId, currency, u) + Share(t, groupId, currency, u)
  {
    hide GroupNet, LiveTransactions, Share;
    var n := |ts| - 1;
    var front, last := ts[..n], ts[n];
    assert ts == front + [last];
    LiveAppend(front, last, groupId, currency, u);
    if i == n {
      assert ts[i := t] == front + [t];
      LiveAppend(front, t, groupId, currency, u);
    } else {
      assert ts[i := t] == front[i := t] + [last];
      LiveUpdate(front, i, t, groupId, currency, u);
      LiveAppend(front[i := t], last, groupId, currency, u);
    }
  }

  lemma SettlementAppend(rows: seq<SettlementRow>, row: SettlementRow, groupId: string, currency: string, u: string)
    ensures GroupNet([], LiveSettlements(rows + [row], groupId, currency), u)
            == GroupNet([], LiveSettlements(rows, groupId, currency), u) + Settles(row, groupId, currency, u)
  {
    hide GroupNet;
    assert (rows + [row])[..|rows|] == rows;
    var live := LiveSettlements(rows, groupId, currency);
    SettledByOne(live, row.transfer, u);
    assert live + [] == live;
  }

  // ---------- what the operations do ----------

  lemma RowIsNew(input: TransactionInput, group: Group, defaultCurrency: string, id: string, row: GroupTransaction)
    requires RowFor(input, group, defaultCurrency, id, row)
    ensures !row.deleted && row.kind == input.kind
  {}

  lemma NetSpelled(row: GroupTransaction, u: string)
    ensures Net(BookOf(row), u)
            == if row.kind == Income then Of(row.splits, u) - Of(row.payments, u) else Of(row.payments, u) - Of(row.splits, u)
  {
    NoFlow(u);
    hide Of;
  }

  /**
   * A created transaction adds to every member's net what the member paid less the share - the other way round
   * for income - in its own group and currency, and nothing anywhere else.
   */
  lemma CreatingAdds(s: LedgerState, t: LedgerState, input: TransactionInput, group: Group, defaultCurrency: string, id: string,
                     row: GroupTransaction, groupId: string, currency: string, u: string)
    requires Created(s, t, input, group, defaultCurrency, id, row)
    ensures NetIn(t, groupId, currency, u)
            == NetIn(s, groupId, currency, u) + if row.groupId == groupId && row.currency == currency then Net(BookOf(row), u) else 0
    ensures Net(BookOf(row), u)
            == if input.kind == Income then Of(row.splits, u) - Of(row.payments, u) else Of(row.payments, u) - Of(row.splits, u)
  {
    hide RowFor, GroupNet, LiveTransactions, LiveSettlements, Of, Net;
    RowIsNew(input, group, defaultCurrency, id, row);
    NetSpelled(row, u);
    LiveAppend(s.transactions, row, groupId, currency, u);
    NetOfParts(LiveTransactions(s.transactions, groupId, currency), LiveSettlements(s.settlements, groupId, currency), u);
    NetOfParts(LiveTransactions(t.transactions, groupId, currency), LiveSettlements(s.settlements, groupId, currency), u);
  }

  /**
   * Deleting a transaction takes from every member's net what it had added, in its own group and currency, and
   * nothing anywhere else; the row stays as it is, except that it is marked, and so do all other rows.
   */
  lemma DeletingTakesBack(s: LedgerState, t: LedgerState, i: nat, groupId: string, currency: string, u: string)
    requires Deleted(s, t, i)
    ensures var row := s.transactions[i];
            NetIn(t, groupId, currency, u)
            == NetIn(s, groupId, currency, u) - if row.groupId == groupId && row.currency == currency then Net(BookOf(row), u) else 0
    ensures |t.transactions| == |s.transactions| && t.transactions[i] == s.transactions[i].(deleted := true)
    ensures forall k :: 0 <= k < |s.transactions| && k != i ==> t.transactions[k] == s.transactions[k]
    ensures t.settlements == s.settlements
  {
    hide GroupNet, LiveTransactions, LiveSettlements, Net;
    LiveUpdate(s.transactions, i, t.transactions[i], groupId, currency, u);
    NetOfParts(LiveTransactions(s.transactions, groupId, currency), LiveSettlements(s.settlements, groupId, currency), u);
    NetOfParts(LiveTransactions(t.transactions, groupId, currency), LiveSettlements(s.settlements, groupId, currency), u);
  }

  /**
   * A settlement raises the sender's net by its amount and lowers the receiver's, in its own group and currency,
   * and changes nothing else.
   */
  lemma SettlingMoves(s: LedgerState, t: LedgerState, input: SettlementInput, group: Group, defaultCurrency: string, id: string,
                      row: SettlementRow, groupId: string, currency: string, u: string)
    requires Settled(s, t, input, group, defaultCurrency, id, row)
    ensures NetIn(t, groupId, currency, u)
            == NetIn(s, groupId, currency, u)
               + if row.groupId != groupId || row.currency != currency then 0
                 else (if row.transfer.fromUser == u then row.transfer.amountMinor else 0)
                      - (if row.transfer.toUser == u then row.transfer.amountMinor else 0)
    ensures t.transactions == s.transactions
  {
    hide GroupNet, LiveTransactions, LiveSettlements, SettlementRowFor;
    SettlementAppend(s.settlements, row, groupId, currency, u);
    NetOfParts(LiveTransactions(s.transactions, groupId, currency), LiveSettlements(s.settlements, groupId, currency), u);
    NetOfParts(LiveTransactions(s.transactions, groupId, currency), LiveSettlements(t.settlements, groupId, currency), u);
  }

  /** A transaction that is created and then deleted leaves every net of every group and currency as it was. */
  lemma CreatingAndDeleting(s: LedgerState, t: LedgerState, t': LedgerState, input: TransactionInput, group: Group,
                            defaultCurrency: string, id: string, row: GroupTransaction, groupId: string, currency: string, u: string)
    requires Created(s, t, input, group, defaultCurrency, id, row) && Deleted(t, t', |s.transactions|)
    ensures NetIn(t', groupId, currency, u) == NetIn(s, groupId, currency, u)
  {
    hide NetIn, Net, RowFor;
    CreatingAdds(s, t, input, group, defaultCurrency, id, row, groupId, currency, u);
    DeletingTakesBack(t, t', |s.transactions|, groupId, currency, u);
  }

  // ---------- the fields of the rows shown ----------

  /** The row of a member in the ledger of a group and currency. */
  function RowShown(s: LedgerState, groupId: string, currency: string, u: string): (r: MemberBalance) {
    GroupRow(LiveTransactions(s.transactions, groupId, currency), LiveSettlements(s.settlements, groupId, currency), u)
  }

  lemma FieldsOf(ts: seq<GroupTransaction>, ss: seq<Settlement>, u: string)
    ensures var r := GroupRow(ts, ss, u);
            && r.userId == u && r.net == Wrap(GroupNet(ts, ss, u))
            && r.paid == GroupRow(ts, [], u).paid && r.share == GroupRow(ts, [], u).share
            && r.sent == GroupRow([], ss, u).sent && r.received == GroupRow([], ss, u).received
  {
    hide Of, Flow, Wrap, GroupNet;
  }

  lemma LiveRowAppend(ts: seq<GroupTransaction>, t: GroupTransaction, groupId: string, currency: string, u: string)
    requires t.groupId == groupId && t.currency == currency && !t.deleted
    ensures var before, after := GroupRow(LiveTransactions(ts, groupId, currency), [], u), GroupRow(LiveTransactions(ts + [t], groupId, currency), [], u);
            after.paid == Wrap(before.paid + Of(t.payments, u)) && after.share == Wrap(before.share + Of(t.splits, u))
  {
    hide GroupNet, Wrap, Flow, Of;
    assert (ts + [t])[..|ts|] == ts;
    var live := LiveTransactions(ts, groupId, currency);
    FlowAppend(live, t, true, None, u);
    FlowAppend(live, t, false, None, u);
    WrapLeft(Of(Flow(live, true, None), u), Of(t.payments, u));
    WrapLeft(Of(Flow(live, false, None), u), Of(t.splits, u));
  }

  /** A created transaction shows as paid what the member paid, and as share what the member's share is. */
  lemma CreatingShows(s: LedgerState, t: LedgerState, input: TransactionInput, group: Group, defaultCurrency: string, id: string,
                      row: GroupTransaction, u: string)
    requires Created(s, t, input, group, defaultCurrency, id, row)
    ensures var before, after := RowShown(s, row.groupId, row.currency, u), RowShown(t, row.groupId, row.currency, u);
            && after.userId == u
            && after.paid == Wrap(before.paid + Of(row.payments, u)) && after.share == Wrap(before.share + Of(row.splits, u))
            && after.sent == before.sent && after.received == before.received
            && after.net == Wrap(before.net + Net(BookOf(row), u))
  {
    hide RowFor, GroupRow, GroupNet, LiveTransactions, LiveSettlements, Of, Net, Wrap;
    RowIsNew(input, group, defaultCurrency, id, row);
    CreatingAdds(s, t, input, group, defaultCurrency, id, row, row.groupId, row.currency, u);
    var ss := LiveSettlements(s.settlements, row.groupId, row.currency);
    FieldsOf(LiveTransactions(s.transactions, row.groupId, row.currency), ss, u);
    FieldsOf(LiveTransactions(t.transactions, row.groupId, row.currency), ss, u);
    LiveRowAppend(s.transactions, row, row.groupId, row.currency, u);
    WrapLeft(NetIn(s, row.groupId, row.currency, u), Net(BookOf(row), u));
  }

  lemma SettledRowAppend(rows: seq<SettlementRow>, row: SettlementRow, u: string)
    ensures var before, after := GroupRow([], LiveSettlements(rows, row.groupId, row.currency), u),
                                 GroupRow([], LiveSettlements(rows + [row], row.groupId, row.currency), u);
            && after.sent == Wrap(before.sent + if row.transfer.fromUser == u then row.transfer.amountMinor else 0)
            && after.received == Wrap(before.received + if row.transfer.toUser == u then row.transfer.amountMinor else 0)
  {
    hide GroupNet, Wrap, Flow, Of, Outgoing, Incoming;
    assert (rows + [row])[..|rows|] == rows;
    var live, s := LiveSettlements(rows, row.groupId, row.currency), row.transfer;
    SettlementLegs(live, s, u);
    WrapLeft(Of(Outgoing(live), u), Leg(u, s.fromUser, s.amountMinor));
    WrapLeft(Of(Incoming(live), u), Leg(u, s.toUser, s.amountMinor));
  }

  /** A settlement shows as sent with the sender and as received with the receiver, and leaves what was paid and shared. */
  lemma SettlingShows(s: LedgerState, t: LedgerState, input: SettlementInput, group: Group, defaultCurrency: string, id: string,
                      row: SettlementRow, u: string)
    requires Settled(s, t, input, group, defaultCurrency, id, row)
    ensures var before, after := RowShown(s, row.groupId, row.currency, u), RowShown(t, row.groupId, row.currency, u);
            && after.userId == u && after.paid == before.paid && after.share == before.share
            && after.sent == Wrap(before.sent + if row.transfer.fromUser == u then row.transfer.amountMinor else 0)
            && after.received == Wrap(before.received + if row.transfer.toUser == u then row.transfer.amountMinor else 0)
  {
    hide SettlementRowFor, GroupRow, GroupNet, LiveTransactions, LiveSettlements, Of, Wrap;
    var ts := LiveTransactions(s.transactions, row.groupId, row.currency);
    FieldsOf(ts, LiveSettlements(s.settlements, row.groupId, row.currency), u);
    FieldsOf(ts, LiveSettlements(t.settlements, row.groupId, row.currency), u);
    SettledRowAppend(s.settlements, row, u);
  }
}
