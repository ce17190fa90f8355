/** Over every run: which ledgers can be read, and that a fixed split locks its group's ledger for good. */
module LedgerLocks {
  import opened Balances
  import opened Entries
  import opened Ledger
  import opened LedgerReading
  import opened LedgerService
  import opened Sums
  import opened Wrappers
  import Allocation
  import LedgerNets
  import Money
  import Strings

  // ---------- which ledgers can be read ----------

  ghost predicate FixedIsUnreadable(ts: seq<GroupTransaction>) {
    forall k :: 0 <= k < |ts| ==> (ReadsBack(ts[k]) <==> !HasFixed(ts[k]))
  }

  lemma NextKeepsUnreadable(s: LedgerState, t: LedgerState)
    requires FixedIsUnreadable(s.transactions) && Next(s, t)
    ensures FixedIsUnreadable(t.transactions)
  {
    hide RowFor, ReadValue;
    if input, group, currency, id, row :| Created(s, t, input, group, currency, id, row) {
      RowReadsBackIff(input, group, currency, id, row);
    } else if i :| Deleted(s, t, i) {
      assert forall k :: 0 <= k < |s.transactions| ==> t.transactions[k].values == s.transactions[k].values;
    }
  }

  lemma {:induction false} RunReadsIff(states: seq<LedgerState>, i: nat)
    requires Run(states) && i < |states|
    ensures FixedIsUnreadable(states[i].transactions)
  {
    hide Next, FixedIsUnreadable;
    if i > 0 {
      RunReadsIff(states, i - 1);
      NextKeepsUnreadable(states[i - 1], states[i]);
    } else {
      assert FixedIsUnreadable([]) by { NothingUnreadable(); }
    }
  }

  lemma NothingUnreadable()
    ensures FixedIsUnreadable([])
  {}

  lemma {:induction false} LiveReads(ts: seq<GroupTransaction>, groupId: string, currency: string)
    requires FixedIsUnreadable(ts)
    ensures FixedIsUnreadable(LiveTransactions(ts, groupId, currency))
  {
    hide ReadsBack, HasFixed;
    if ts != [] {
      assert forall k :: 0 <= k < |ts| - 1 ==> ts[..|ts| - 1][k] == ts[k];
      LiveReads(ts[..|ts| - 1], groupId, currency);
    }
  }

  /** In every state of every run, the ledger of a group and currency can be read exactly if no live transaction has a fixed split. */
  lemma LedgerReadsIff(states: seq<LedgerState>, i: nat, groupId: string, currency: string)
    requires Run(states) && i < |states|
    ensures var ts := LiveTransactions(states[i].transactions, groupId, currency);
            AllReadBack(ts) <==> forall k :: 0 <= k < |ts| ==> !HasFixed(ts[k])
  {
    hide ReadsBack, HasFixed, Next;
    RunReadsIff(states, i);
    LiveReads(states[i].transactions, groupId, currency);
  }

  // ---------- a fixed split is there to stay ----------

  lemma NextKeepsUnread(s: LedgerState, t: LedgerState, k: nat)
    requires Next(s, t) && k < |s.transactions| && !ReadsBack(s.transactions[k])
    ensures k < |t.transactions| && t.transactions[k] == s.transactions[k]
  {
    hide RowFor, ReadsBack;
  }

  lemma {:induction false} UnreadStays(states: seq<LedgerState>, i: nat, j: nat, k: nat)
    requires Run(states) && i <= j < |states| && k < |states[i].transactions| && !ReadsBack(states[i].transactions[k])
    ensures k < |states[j].transactions| && states[j].transactions[k] == states[i].transactions[k]
  {
    hide Next, ReadsBack;
    if i < j {
      UnreadStays(states, i, j - 1, k);
      NextKeepsUnread(states[j - 1], states[j], k);
    }
  }

  lemma {:induction false} LiveIsListed(ts: seq<GroupTransaction>, k: nat)
    requires k < |ts| && !ts[k].deleted
    ensures ts[k] in LiveTransactions(ts, ts[k].groupId, ts[k].currency)
  {
    if k < |ts| - 1 {
      LiveIsListed(ts[..|ts| - 1], k);
    }
  }

  /**
   * In every run, once a transaction with a fixed split is stored, it is never deleted, and the balances of its
   * group and currency can never be read again.
   */
  lemma FixedSplitLocksTheLedger(states: seq<LedgerState>, i: nat, j: nat, k: nat)
    requires Run(states) && i <= j < |states| && k < |states[i].transactions|
    requires HasFixed(states[i].transactions[k]) && !states[i].transactions[k].deleted
    ensures var t := states[i].transactions[k];
            && k < |states[j].transactions| && states[j].transactions[k] == t
            && !AllReadBack(LiveTransactions(states[j].transactions, t.groupId, t.currency))
  {
    hide Next, ReadsBack, HasFixed;
    RunReadsIff(states, i);
    UnreadStays(states, i, j, k);
    LiveIsListed(states[j].transactions, k);
  }

  // ---------- fixed splits are accepted ----------

  /** An expense of one minor unit, paid by one member for themselves, with a fixed split. */
  function FixedInput(): (r: TransactionInput) {
    TransactionInput("g", Expense, "t", Money.FormatMoney(1), "", "a", "", [PaymentInput("a", Money.FormatMoney(1))],
                     [SplitInput("a", Allocation.Fixed, Money.FormatMoney(1))])
  }

  lemma OneFixedSplit(given: seq<Allocation.SplitAllocation>)
    requires given == [Allocation.SplitAllocation("a", Allocation.Fixed, 1, 0)]
    ensures Allocation.Splittable(1, given)
  {
    assert Allocation.Values(given) == [1];
    assert [1][..0] == [];
    assert Sum([1]) == 1;
    assert Allocation.EntryError(given, 0) == None;
  }

  lemma OnePayment()
    ensures ValidPayments(1, [Entry("a", 1)])
  {
    Append([], Entry("a", 1), "");
    assert [] + [Entry("a", 1)] == [Entry("a", 1)];
    NoEntries("");
  }

  /** Fixed splits are accepted like any other, so the runs in which one is stored are there. */
  lemma FixedInputIsAccepted(around: Surroundings)
    requires around.role.Ok? && around.group.Ok? && around.group.value.active && around.members == Ok(["a"])
    requires around.users == None && around.stored == None
    ensures Acceptable(FixedInput(), around, "VND") && !NoneFixed(FixedInput().splits)
  {
    hide PositiveMoney, Strings.TrimSpace, Currency, Money.FormatMoney, ValidPayments, Allocation.Splittable;
    var input := FixedInput();
    LedgerNets.PrintedAmount(1);
    LedgerNets.FieldsTrim();
    LedgerNets.CurrencyRead();
    OnePayment();
    assert PaymentsGiven(input.payments) == [Entry("a", 1)];
    assert AllocationsGiven(input.splits) == [Allocation.SplitAllocation("a", Allocation.Fixed, 1, 0)];
    OneFixedSplit(AllocationsGiven(input.splits));
    assert input.splits[0].splitType.Fixed?;
  }
}
