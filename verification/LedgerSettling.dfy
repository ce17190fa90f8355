/** Paying a group's suggested settlements: what GetGroupBalances shows afterwards. */
module LedgerSettling {
  import opened Balances
  import opened Clearing
  import opened Entries
  import opened Int64
  import opened Ledger
  import opened Suggestions
  import opened Sums
  import opened Wrappers
  import Strings

  lemma GroupSheetIsDistinct(ts: seq<GroupTransaction>, ss: seq<Settlement>, rows: seq<MemberBalance>)
    requires IsGroupSheet(ts, ss, rows)
    ensures DistinctRows(rows)
  {
    forall i, j | 0 <= i < j < |rows| ensures rows[i].userId != rows[j].userId {
      Strings.LessTotal(rows[i].userId, rows[j].userId);
    }
  }

  lemma {:induction false} UnmentionedInFlow(ts: seq<GroupTransaction>, u: string)
    requires u !in Users(Flow(ts, true, None)) && u !in Users(Flow(ts, false, None))
    ensures GroupNet(ts, [], u) == 0
  {
    NoEntries(u);
    if ts != [] {
      var front, t := ts[..|ts| - 1], ts[|ts| - 1];
      assert ts == front + [t];
      hide Of, Flow, GroupNet;
      FlowAppend(front, t, true, None, u);
      FlowAppend(front, t, false, None, u);
      UnmentionedInFlow(front, u);
      GroupNetAppend(front, t, u);
      Absent(t.payments, u);
      Absent(t.splits, u);
    }
  }

  lemma UnmentionedNet(ts: seq<GroupTransaction>, ss: seq<Settlement>, u: string)
    requires u !in GroupMentioned(ts, ss)
    ensures GroupNet(ts, ss, u) == 0
  {
    hide Of, Flow;
    NoEntries(u);
    UnmentionedInFlow(ts, u);
    Absent(Outgoing(ss), u);
    Absent(Incoming(ss), u);
  }

  /** The net positions of a sheet are the stored nets of the ledger, also for users it does not mention. */
  lemma StoredGroupNet(ts: seq<GroupTransaction>, ss: seq<Settlement>, rows: seq<MemberBalance>, u: string)
    requires IsGroupSheet(ts, ss, rows)
    ensures Of(Nets(rows), u) == Wrap(GroupNet(ts, ss, u))
  {
    hide Of, Wrap, Flow, GroupNet;
    GroupSheetIsDistinct(ts, ss, rows);
    if u in GroupMentioned(ts, ss) {
      assert GroupRow(ts, ss, u) in rows;
      var j :| 0 <= j < |rows| && rows[j] == GroupRow(ts, ss, u);
      NetOfRow(rows, j);
    } else {
      NobodyElse(rows, u);
      UnmentionedNet(ts, ss, u);
      assert Wrap(0) == 0;
    }
  }

  lemma GroupNetAfterBooking(ts: seq<GroupTransaction>, ss: seq<Settlement>, paid: seq<Settlement>, u: string)
    ensures GroupNet(ts, ss + paid, u) == GroupNet(ts, ss, u) + Sent(paid, u) - Got(paid, u)
  {
    hide Of, Flow;
    LegsConcat(ss, paid);
    Concat(Outgoing(ss), Outgoing(paid), u);
    Concat(Incoming(ss), Incoming(paid), u);
  }

  lemma NetAfterPaying(ts: seq<GroupTransaction>, ss: seq<Settlement>, rows: seq<MemberBalance>, paid: seq<Settlement>, u: string)
    requires IsGroupSheet(ts, ss, rows)
    ensures Wrap(GroupNet(ts, ss + paid, u)) == Wrap(Of(Nets(rows), u) + Sent(paid, u) - Got(paid, u))
  {
    hide Of, Wrap, Flow, GroupNet, Sent, Got, Nets, IsGroupSheet;
    StoredGroupNet(ts, ss, rows, u);
    GroupNetAfterBooking(ts, ss, paid, u);
    WrapLeft(GroupNet(ts, ss, u), Sent(paid, u) - Got(paid, u));
  }

  lemma ZeroMeansCleared(ts: seq<GroupTransaction>, ss: seq<Settlement>, rows: seq<MemberBalance>, paid: seq<Settlement>,
                         after: seq<MemberBalance>)
    requires IsGroupSheet(ts, ss, rows) && IsGroupSheet(ts, ss + paid, after)
    ensures AllZero(after) <==> Clears(rows, paid)
  {
    hide Of, Wrap, Flow, GroupNet, Sent, Got, Nets;
    forall u ensures Of(Nets(after), u) == Wrap(Of(Nets(rows), u) + Sent(paid, u) - Got(paid, u)) {
      StoredGroupNet(ts, ss + paid, after, u);
      NetAfterPaying(ts, ss, rows, paid, u);
    }
    GroupSheetIsDistinct(ts, ss + paid, after);
    if AllZero(after) {
      forall u ensures Of(Nets(after), u) == 0 { ZeroNets(after, u); }
    }
    if Clears(rows, paid) {
      forall i | 0 <= i < |after| ensures after[i].net == 0 { NetOfRow(after, i); }
    }
  }

  /**
   * A group shows zero for everybody once the suggested settlements are booked, exactly when no displayed
   * net is -2^63 and the displayed nets sum to zero mathematically.
   */
  lemma PayingSuggestionsClearsIff(ts: seq<GroupTransaction>, ss: seq<Settlement>, rows: seq<MemberBalance>,
                                   paid: seq<Settlement>, after: seq<MemberBalance>)
    requires IsGroupSheet(ts, ss, rows) && IsSuggestion(rows, paid) && IsGroupSheet(ts, ss + paid, after)
    ensures AllZero(after) <==> NoMinimum(rows) && Total(Nets(rows)) == 0
  {
    GroupSheetIsDistinct(ts, ss, rows);
    hide IsGroupSheet, IsSuggestion, Nets, Total, Clears;
    ZeroMeansCleared(ts, ss, rows, paid, after);
    ClearsExactly(rows, paid);
  }

  lemma {:induction false} NetUsers(rows: seq<MemberBalance>)
    ensures Users(Nets(rows)) == RowUsers(rows)
  {
    if rows != [] { NetUsers(rows[..|rows| - 1]); }
  }

  /** What int64 loses of a member's net. */
  ghost function LostEach(ts: seq<GroupTransaction>, ss: seq<Settlement>): (r: string -> int) {
    u => GroupNet(ts, ss, u) - Wrap(GroupNet(ts, ss, u))
  }

  lemma SheetUsers(ts: seq<GroupTransaction>, ss: seq<Settlement>, rows: seq<MemberBalance>)
    requires IsGroupSheet(ts, ss, rows)
    ensures Users(Nets(rows)) == GroupMentioned(ts, ss)
  {
    hide GroupRow, Nets;
    NetUsers(rows);
    RowUsersAre(rows);
    forall u ensures u in RowUsers(rows) <==> u in GroupMentioned(ts, ss) {
      if u in GroupMentioned(ts, ss) {
        assert GroupRow(ts, ss, u) in rows;
        GroupRowKey(ts, ss, u);
      }
    }
  }

  /** The displayed nets of a group sum to the imbalance of its transactions, less what int64 loses of each net. */
  lemma DisplayedNetsSum(ts: seq<GroupTransaction>, ss: seq<Settlement>, rows: seq<MemberBalance>)
    requires IsGroupSheet(ts, ss, rows)
    ensures Total(Nets(rows)) == Imbalance(ts) - SumOver(GroupMentioned(ts, ss), LostEach(ts, ss))
  {
    hide Of, Flow, GroupNet, Total, SumOver, Wrap, GroupRow, GroupMentioned, IsGroupSheet;
    var users := GroupMentioned(ts, ss);
    SheetUsers(ts, ss, rows);
    forall u ensures OfEach(Nets(rows))(u) + LostEach(ts, ss)(u) == GroupNetEach(ts, ss)(u) {
      StoredGroupNet(ts, ss, rows, u);
    }
    SumOfUsers(Nets(rows), users);
    SumOverAdd(users, OfEach(Nets(rows)), LostEach(ts, ss), GroupNetEach(ts, ss));
    GroupNetsSum(ts, ss, users);
  }

  lemma {:induction false} NothingLost(users: set<string>, lost: string -> int)
    requires forall u :: u in users ==> lost(u) == 0
    ensures SumOver(users, lost) == 0
  {
    SumOverAdd(users, lost, lost, lost);
  }

  /** When the net of every member fits int64, the displayed nets sum to exactly the imbalance of the transactions. */
  lemma DisplayedNetsShowImbalance(ts: seq<GroupTransaction>, ss: seq<Settlement>, rows: seq<MemberBalance>)
    requires IsGroupSheet(ts, ss, rows) && forall u :: Fits(GroupNet(ts, ss, u))
    ensures Total(Nets(rows)) == Imbalance(ts)
  {
    hide Of, Flow, GroupNet, Total, SumOver, Wrap, GroupMentioned, IsGroupSheet;
    DisplayedNetsSum(ts, ss, rows);
    forall u ensures LostEach(ts, ss)(u) == 0 { assert Wrap(GroupNet(ts, ss, u)) == GroupNet(ts, ss, u); }
    NothingLost(GroupMentioned(ts, ss), LostEach(ts, ss));
  }

  /** When no total overflows either, the displayed nets of a group sum to zero. */
  lemma DisplayedNetsCancel(ts: seq<GroupTransaction>, ss: seq<Settlement>, rows: seq<MemberBalance>)
    requires IsGroupSheet(ts, ss, rows) && AllBalanced(ts)
    requires forall i :: 0 <= i < |ts| ==> Fits(Total(ts[i].payments)) && Fits(Total(ts[i].splits))
    requires forall u :: Fits(GroupNet(ts, ss, u))
    ensures Total(Nets(rows)) == 0
  {
    hide GroupNet, Total, IsGroupSheet, AllBalanced, Nets;
    DisplayedNetsShowImbalance(ts, ss, rows);
    ImbalanceIsZero(ts);
  }

  lemma GroupRowKey(ts: seq<GroupTransaction>, ss: seq<Settlement>, u: string)
    ensures GroupRow(ts, ss, u).userId == u
  {}
}
