/** What the displayed nets of a group sum to, over every run, and a ledger in which they do not cancel. */
module LedgerNets {
  import opened Balances
  import opened Clearing
  import opened Entries
  import opened Int64
  import opened Ledger
  import opened LedgerService
  import opened LedgerSettling
  import opened Suggestions
  import opened Wrappers
  import Allocation
  import LargestRemainder
  import Money
  import Strings
  import Sums

  /**
   * In every state of every run, for every group and currency: as long as each member's net fits int64, the
   * displayed nets sum to 2^64 times the overflows of the expenses' payments less those of the income's. They
   * sum to zero exactly when these are as many, in particular when the payments of no transaction overflow.
   */
  lemma DisplayedNetsCancelIff(states: seq<LedgerState>, i: nat, groupId: string, currency: string, rows: seq<MemberBalance>)
    requires Run(states) && i < |states|
    requires var ts := LiveTransactions(states[i].transactions, groupId, currency);
             var ss := LiveSettlements(states[i].settlements, groupId, currency);
             IsGroupSheet(ts, ss, rows) && forall u :: Fits(GroupNet(ts, ss, u))
    ensures var ts := LiveTransactions(states[i].transactions, groupId, currency);
            && Total(Nets(rows)) == Imbalance(ts) == TWO_64 * (Overflows(ts, false) - Overflows(ts, true))
            && (Total(Nets(rows)) == 0 <==> Overflows(ts, false) == Overflows(ts, true))
            && ((forall k :: 0 <= k < |ts| ==> Total(ts[k].payments) <= MAX) ==> Total(Nets(rows)) == 0)
  {
    hide IsGroupSheet, GroupNet, Total, Nets, Imbalance, Overflows, SoundRow, Wrap;
    EveryRunStaysBalanced(states, i, groupId, currency);
    var ts := LiveTransactions(states[i].transactions, groupId, currency);
    ImbalanceCountsOverflows(ts);
    DisplayedNetsShowImbalance(ts, LiveSettlements(states[i].settlements, groupId, currency), rows);
  }

  // ---------- a ledger whose nets do not cancel ----------

  const PAYERS: nat := 19

  /** The largest amount that a numeric(18,2) column holds, in minor units. */
  const LARGEST: int64 := 999_999_999_999_999_999

  /** The ratio 1, with six places after the point. */
  const WEIGHT: int64 := 1_000_000

  function Payer(k: nat): (r: string)
    requires k < PAYERS
  {
    [('a' as int + k) as char]
  }

  /** Eighteen times the largest amount, and what is missing to 2^64 + 1. */
  function Paid(k: nat): (r: int64) {
    if k < PAYERS - 1 then LARGEST else 446_744_073_709_551_635
  }

  function PaymentInputs(): (r: seq<PaymentInput>)
    ensures |r| == PAYERS
  {
    seq(PAYERS, k requires 0 <= k < PAYERS => PaymentInput(Payer(k), Money.FormatMoney(Paid(k))))
  }

  function PaymentRows(): (r: seq<Payment>)
    ensures |r| == PAYERS
  {
    seq(PAYERS, k requires 0 <= k < PAYERS => Entry(Payer(k), Paid(k)))
  }

  function Input(): (r: TransactionInput) {
    TransactionInput("g", Expense, "t", Money.FormatMoney(1), "", "a", "", PaymentInputs(),
                     [SplitInput("a", Allocation.Ratio, Money.FormatRatio(WEIGHT))])
  }

  /** An expense of one minor unit, whose nineteen payments add up to 2^64 + 1. */
  function Stored(): (r: GroupTransaction) {
    GroupTransaction("id", "g", Expense, 1, "VND", "a", PaymentRows(), [Entry("a", 1)],
                     [StoredValue(Allocation.Ratio, Money.FormatRatio(WEIGHT))], false)
  }

  function Answers(): (r: Surroundings) {
    Surroundings(Ok(Owner), Ok(Group("g", true)), Ok(seq(PAYERS, k requires 0 <= k < PAYERS => Payer(k))), None, Ok(true), None, None)
  }

  lemma LetterTrims(s: string)
    requires |s| == 1 && 'a' <= s[0] <= 't'
    ensures Strings.TrimSpace(s) == s
  {
    assert !Strings.IsSpace(s[0]);
  }

  lemma PrintedAmount(m: int64)
    requires m > 0
    ensures PositiveMoney(Money.FormatMoney(m)) == Some(m)
  {
    hide Money.ParseMoney, Money.FormatMoney;
    Money.RoundTrips(m);
  }

  lemma PaymentsRead()
    ensures PaymentsParse(PaymentInputs()) && PaymentsGiven(PaymentInputs()) == PaymentRows()
  {
    hide PositiveMoney, Strings.TrimSpace, Money.FormatMoney;
    forall k: nat | k < PAYERS
      ensures PositiveMoney(PaymentInputs()[k].amount) == Some(Paid(k))
      ensures Strings.TrimSpace(PaymentInputs()[k].userId) == Payer(k)
    {
      PrintedAmount(Paid(k));
      LetterTrims(Payer(k));
    }
    forall k: nat | k < PAYERS ensures PaymentsGiven(PaymentInputs())[k] == PaymentRows()[k] {
      assert PositiveMoney(PaymentInputs()[k].amount) == Some(Paid(k));
    }
  }

  lemma {:induction false} PaidSoFar(n: nat)
    requires n < PAYERS
    ensures Total(PaymentRows()[..n]) == n * LARGEST
  {
    if n > 0 {
      hide Total;
      PaidSoFar(n - 1);
      Prefix(PaymentRows(), n - 1);
    } else {
      assert PaymentRows()[..0] == [];
    }
  }

  lemma PaidInAll()
    ensures Total(PaymentRows()) == TWO_64 + 1
  {
    hide Total;
    PaidSoFar(PAYERS - 1);
    Prefix(PaymentRows(), PAYERS - 1);
    assert PaymentRows()[..PAYERS] == PaymentRows();
  }

  lemma PaymentsAccepted()
    ensures ValidPayments(1, PaymentRows())
  {
    hide Total, Wrap;
    PaidInAll();
    ValidIsCongruent(1, PaymentRows());
  }

  lemma SplitRead()
    ensures var inputs := Input().splits;
            && SplitsAccepted(1, inputs) && SharesAsked(1, inputs, [Entry("a", 1)])
            && SplitsParse(inputs) && Stored().values == ValuesStored(AllocationsGiven(inputs))
  {
    hide PositiveMoney, Strings.TrimSpace, Money.FormatMoney, Money.ParseRatio, Money.FormatRatio, PaymentRows, PaymentInputs;
    var inputs := Input().splits;
    Money.RoundTrips(WEIGHT);
    assert Money.ParseRatio(Money.FormatRatio(WEIGHT)) == Some(WEIGHT);
    LetterTrims("a");
    var given := AllocationsGiven(inputs);
    assert given == [Allocation.SplitAllocation("a", Allocation.Ratio, WEIGHT, 0)];
    var result := [Allocation.SplitAllocation("a", Allocation.Ratio, WEIGHT, 1)];
    OneRatioSplit(given, result);
    assert SplitsOf(result) == [Entry("a", 1)];
    Allocation.AllocationSucceedsIff(1, given, Ok(result));
  }

  lemma OneRatioSplit(given: seq<Allocation.SplitAllocation>, result: seq<Allocation.SplitAllocation>)
    requires given == [Allocation.SplitAllocation("a", Allocation.Ratio, WEIGHT, 0)]
    requires result == [Allocation.SplitAllocation("a", Allocation.Ratio, WEIGHT, 1)]
    ensures Allocation.Answer(1, given, Ok(result))
  {
    assert Allocation.Values(given) == [WEIGHT] && Allocation.Shares(result) == [1];
    assert [WEIGHT][..0] == [];
    assert Sums.Sum([WEIGHT]) == WEIGHT;
    assert Allocation.EntryError(given, 0) == None;
    WholeShareOfOne();
  }

  lemma WholeShareOfOne()
    ensures Sums.Sum([WEIGHT]) > 0 && LargestRemainder.IsLargestRemainder(1, [WEIGHT], [1])
  {
    assert [WEIGHT][..0] == [];
    assert Sums.Sum([WEIGHT]) == WEIGHT;
    assert LargestRemainder.Quotas(1, [WEIGHT]) == [1] && [1][..0] == [];
    assert LargestRemainder.Chosen(1, [WEIGHT], {}) && LargestRemainder.SharesFor(1, [WEIGHT], {}, [1]);
  }

  lemma CurrencyRead()
    ensures Currency("", "VND") == Some("VND")
  {
    assert ToUpper(Strings.TrimSpace("")) == "";
  }

  lemma RowIsStored()
    ensures RowFor(Input(), Group("g", true), "VND", "id", Stored())
  {
    hide PositiveMoney, Strings.TrimSpace, Currency, PaymentsGiven, PaymentsParse, PaymentInputs, PaymentRows, ValidPayments,
      SharesAsked, Money.FormatMoney;
    PaymentsRead();
    PaymentsAccepted();
    SplitRead();
    CurrencyRead();
    PrintedAmount(1);
    FieldsTrim();
  }

  lemma InputIsAccepted()
    ensures Acceptable(Input(), Answers(), "VND")
  {
    hide PositiveMoney, Strings.TrimSpace, Currency, PaymentsGiven, PaymentsParse, PaymentInputs, PaymentRows, ValidPayments,
      SplitsAccepted, Money.FormatMoney, UsersAreMembers, Payer;
    PaymentsRead();
    PaymentsAccepted();
    SplitRead();
    CurrencyRead();
    PrintedAmount(1);
    FieldsTrim();
    UsersAreListed();
  }

  lemma FieldsTrim()
    ensures Strings.TrimSpace("a") == "a" && Strings.TrimSpace("g") == "g" && Strings.TrimSpace("t") == "t"
    ensures Strings.TrimSpace("") == ""
  {
    LetterTrims("a");
    LetterTrims("g");
    LetterTrims("t");
  }

  lemma UsersAreListed()
    ensures UsersAreMembers(Input(), Answers().members.value)
  {
    hide Strings.TrimSpace, Money.FormatMoney;
    var members := Answers().members.value;
    LetterTrims("a");
    assert members[0] == "a";
    forall k: nat | k < PAYERS ensures Strings.TrimSpace(PaymentInputs()[k].userId) in members {
      LetterTrims(Payer(k));
      assert members[k] == Payer(k);
    }
  }

  /** Nothing in the row exceeds its database column. */
  predicate Storable(t: GroupTransaction) {
    && 0 < t.amountMinor <= LARGEST
    && (forall k :: 0 <= k < |t.payments| ==> 0 < t.payments[k].amount <= LARGEST)
    && (forall k :: 0 <= k < |t.splits| ==> 0 < t.splits[k].amount <= LARGEST)
  }

  lemma StoredFits()
    ensures Storable(Stored()) && ReadsBack(Stored())
  {
    hide Money.FormatMoney, Money.FormatRatio, Money.ParseRatio, PaymentRows;
    Money.RoundTrips(WEIGHT);
    assert forall k: nat :: k < PAYERS ==> PaymentRows()[k].amount == Paid(k);
  }

  // ---------- its sheet ----------

  function Rows(): (r: seq<MemberBalance>)
    ensures |r| == PAYERS
  {
    seq(PAYERS, k requires 0 <= k < PAYERS => GroupRow([Stored()], [], Payer(k)))
  }

  ghost predicate Pays(u: string) {
    exists k: nat :: k < PAYERS && Payer(k) == u
  }

  lemma PayersDistinct()
    ensures DistinctUsers(PaymentRows())
    ensures forall u :: u in Users(PaymentRows()) <==> Pays(u)
  {
    UsersAre(PaymentRows());
    hide Users;
    forall i, j | 0 <= i < j < PAYERS ensures PaymentRows()[i].user != PaymentRows()[j].user {
      assert Payer(i)[0] != Payer(j)[0];
    }
    forall u ensures u in Users(PaymentRows()) <==> Pays(u) {
      if u in Users(PaymentRows()) {
        var i :| 0 <= i < PAYERS && PaymentRows()[i].user == u;
        assert Payer(i) == u;
      }
      if k: nat :| k < PAYERS && Payer(k) == u { assert PaymentRows()[k].user == u; }
    }
  }

  lemma PaidBound(u: string)
    ensures 0 <= Of(PaymentRows(), u) <= LARGEST
  {
    hide Of, Users, DistinctUsers;
    PayersDistinct();
    UsersAre(PaymentRows());
    if u in Users(PaymentRows()) {
      var i :| 0 <= i < PAYERS && PaymentRows()[i].user == u;
      OneUser(PaymentRows(), i);
    } else {
      Absent(PaymentRows(), u);
    }
  }

  lemma NetBound(u: string)
    ensures -1 <= GroupNet([Stored()], [], u) <= LARGEST
  {
    PaidBound(u);
    SharedBound(u);
    GroupNetAppend([], Stored(), u);
    assert [] + [Stored()] == [Stored()];
    EmptyLedger(u);
    NoEntries(u);
    hide GroupNet, Of, PaymentRows;
  }

  lemma SharedBound(u: string)
    ensures 0 <= Of([Entry("a", 1)], u) <= 1
  {
    NonNegative([Entry("a", 1)], u);
    Append([], Entry("a", 1), u);
    assert [] + [Entry("a", 1)] == [Entry("a", 1)];
    NoEntries(u);
  }

  lemma EmptyLedger(u: string)
    ensures GroupNet([], [], u) == 0 && GroupMentioned([], []) == {}
  {}

  lemma MentionedPay()
    ensures forall u :: u in GroupMentioned([Stored()], []) <==> Pays(u)
  {
    hide PaymentRows, GroupMentioned, Users, Mentioned, Pays;
    PayersDistinct();
    EmptyLedger("");
    GroupMentionedAppend([], Stored());
    assert [] + [Stored()] == [Stored()];
    SharerPays();
  }

  lemma RowOf(k: nat)
    requires k < PAYERS
    ensures Rows()[k] == GroupRow([Stored()], [], Payer(k)) && Rows()[k].userId == Payer(k)
  {
    hide GroupRow, Stored, Payer;
    GroupRowKey([Stored()], [], Payer(k));
  }

  lemma PayersIncrease(i: nat, j: nat)
    requires i < j < PAYERS
    ensures Strings.Less(Payer(i), Payer(j))
  {}

  lemma RowsAreTheSheet()
    ensures IsGroupSheet([Stored()], [], Rows())
  {
    hide GroupRow, GroupMentioned, Stored, Rows, Payer;
    MentionedPay();
    forall i, j | 0 <= i < j < PAYERS ensures Strings.Less(Rows()[i].userId, Rows()[j].userId) {
      RowOf(i);
      RowOf(j);
      PayersIncrease(i, j);
    }
    forall i | 0 <= i < PAYERS
      ensures Rows()[i].userId in GroupMentioned([Stored()], []) && Rows()[i] == GroupRow([Stored()], [], Rows()[i].userId)
    {
      RowOf(i);
      assert Pays(Payer(i));
    }
    forall u | u in GroupMentioned([Stored()], []) ensures GroupRow([Stored()], [], u) in Rows() {
      var k: nat :| k < PAYERS && Payer(k) == u;
      RowOf(k);
      assert Rows()[k] in Rows();
    }
  }

  lemma SharerPays()
    ensures Mentioned(BookOf(Stored())) == Users(PaymentRows())
  {
    PayersDistinct();
    UsersAre([Entry("a", 1)]);
    assert Payer(0) == "a";
    assert Outgoing([]) == [] && Incoming([]) == [];
    hide PaymentRows;
  }

  /**
   * A run of the service, with amounts that the database columns hold, after which the displayed nets of a group
   * sum to 2^64 instead of zero. The row can be read back, so GetGroupBalances answers them all the same, and paying
   * what it suggests does not clear the group, although no net is -2^63.
   */
  lemma NetsNeedNotCancel() returns (states: seq<LedgerState>, rows: seq<MemberBalance>)
    ensures Acceptable(Input(), Answers(), "VND") && Storable(Stored())
    ensures Run(states) && |states| == 2
    ensures Created(states[0], states[1], Input(), Group("g", true), "VND", "id", Stored())
    ensures var ts := LiveTransactions(states[1].transactions, "g", "VND");
            var ss := LiveSettlements(states[1].settlements, "g", "VND");
            && ts == [Stored()] && ss == [] && AllReadBack(ts)
            && IsGroupSheet(ts, ss, rows) && Total(Nets(rows)) == TWO_64 && NoMinimum(rows)
            && forall paid, after :: IsSuggestion(rows, paid) && IsGroupSheet(ts, ss + paid, after) ==> !AllZero(after)
  {
    hide Acceptable, Storable, ReadsBack, RowFor, Stored, Input, Answers, IsGroupSheet, IsSuggestion, LiveTransactions, LiveSettlements,
      Rows, GroupNet, Total, Nets, NoMinimum, AllZero;
    states, rows := [LedgerState([], []), LedgerState([Stored()], [])], Rows();
    OneRowLives();
    InputIsAccepted();
    StoredFits();
    RowIsStored();
    OneStepRun(states[0], states[1]);
    RowsAreTheSheet();
    RowsSum();
    forall paid, after | IsSuggestion(rows, paid) && IsGroupSheet([Stored()], [] + paid, after) ensures !AllZero(after) {
      PayingSuggestionsClearsIff([Stored()], [], rows, paid, after);
    }
  }

  lemma OneStepRun(s: LedgerState, t: LedgerState)
    requires s == LedgerState([], []) && t == LedgerState([Stored()], [])
    requires RowFor(Input(), Group("g", true), "VND", "id", Stored())
    ensures Created(s, t, Input(), Group("g", true), "VND", "id", Stored()) && Run([s, t])
  {
    hide RowFor, Stored, Input;
    assert Created(s, t, Input(), Group("g", true), "VND", "id", Stored());
    assert Next(s, t);
  }

  lemma OneRowLives()
    ensures LiveTransactions([Stored()], "g", "VND") == [Stored()] && LiveSettlements([], "g", "VND") == []
  {
    hide PaymentRows;
    assert [Stored()][..0] == [];
  }

  lemma RowsSum()
    ensures Total(Nets(Rows())) == TWO_64 && NoMinimum(Rows())
  {
    forall u ensures Fits(GroupNet([Stored()], [], u)) { NetBound(u); }
    RowsAreTheSheet();
    StoredImbalance();
    NetsAboveMinimum();
    hide GroupNet, Total, Nets, IsGroupSheet, NoMinimum, Imbalance, Stored;
    DisplayedNetsShowImbalance([Stored()], [], Rows());
  }

  lemma StoredImbalance()
    ensures Imbalance([Stored()]) == TWO_64
  {
    hide Total;
    PaidInAll();
    assert [Stored()][..0] == [];
    Append([], Entry("a", 1), "");
    assert [] + [Entry("a", 1)] == [Entry("a", 1)];
    NoEntries("");
    hide PaymentRows;
  }

  lemma NetsAboveMinimum()
    ensures NoMinimum(Rows())
  {
    hide GroupNet, Wrap, Of, Flow, Stored;
    forall k: nat | k < PAYERS ensures Rows()[k].net != MIN {
      NetBound(Payer(k));
      assert Wrap(GroupNet([Stored()], [], Payer(k))) == GroupNet([Stored()], [], Payer(k));
    }
  }
}
