/** The transaction service as a store that its operations change, and the invariant that no run can break. */
module LedgerService {
  import opened Balances
  import opened Entries
  import opened Int64
  import opened Ledger
  import opened LedgerReading
  import opened Sums
  import opened Wrappers
  import Allocation
  import LedgerOrder
  import Sorting
  import Strings
  import Suggestions

  // ---------- the ledger as a state machine ----------

  predicate FreshTransaction(s: LedgerState, id: string) {
    forall i :: 0 <= i < |s.transactions| ==> s.transactions[i].id != id
  }

  /** Every stored transaction is sound, and so balanced, and no two have the same id. */
  ghost predicate ValidLedger(s: LedgerState) {
    && AllSound(s.transactions)
    && forall i, j :: 0 <= i < j < |s.transactions| ==> s.transactions[i].id != s.transactions[j].id
  }

  ghost predicate Created(s: LedgerState, t: LedgerState, input: TransactionInput, group: Group, defaultCurrency: string,
                          id: string, row: GroupTransaction) {
    && FreshTransaction(s, id) && RowFor(input, group, defaultCurrency, id, row)
    && t == s.(transactions := s.transactions + [row])
  }

  function Delete(s: LedgerState, i: nat): (r: LedgerState)
    requires i < |s.transactions|
  {
    s.(transactions := s.transactions[i := s.transactions[i].(deleted := true)])
  }

  /** A row is read before it is deleted. */
  ghost predicate Deleted(s: LedgerState, t: LedgerState, i: nat) {
    i < |s.transactions| && !s.transactions[i].deleted && ReadsBack(s.transactions[i]) && t == Delete(s, i)
  }

  ghost predicate Settled(s: LedgerState, t: LedgerState, input: SettlementInput, group: Group, defaultCurrency: string,
                          id: string, row: SettlementRow) {
    SettlementRowFor(input, group, defaultCurrency, id, row) && t == s.(settlements := s.settlements + [row])
  }

  /** One operation: a transaction created or deleted, a settlement created, or nothing changed. */
  ghost predicate Next(s: LedgerState, t: LedgerState) {
    || s == t
    || (exists input, group, currency, id, row :: Created(s, t, input, group, currency, id, row))
    || (exists i :: Deleted(s, t, i))
    || (exists input, group, currency, id, row :: Settled(s, t, input, group, currency, id, row))
  }

  ghost predicate Run(states: seq<LedgerState>) {
    && states != [] && states[0] == LedgerState([], [])
    && forall i :: 0 <= i < |states| - 1 ==> Next(states[i], states[i + 1])
  }

  lemma {:induction false} SplitsTotal(allocations: seq<Allocation.SplitAllocation>)
    ensures Total(SplitsOf(allocations)) == Sum(Allocation.Shares(allocations))
  {
    if allocations != [] {
      var n := |allocations| - 1;
      SplitsTotal(allocations[..n]);
      assert SplitsOf(allocations)[..n] == SplitsOf(allocations[..n]);
      assert Allocation.Shares(allocations)[..n] == Allocation.Shares(allocations[..n]);
    }
  }

  lemma SharesAreExact(amount: int64, inputs: seq<SplitInput>, splits: seq<Split>)
    requires SharesAsked(amount, inputs, splits)
    ensures amount > 0 && Total(splits) == amount
  {
    hide Total, AllocationsGiven;
    var result :| Allocation.Answer(amount, AllocationsGiven(inputs), Ok(result)) && splits == SplitsOf(result);
    Allocation.AllocationIsExact(amount, AllocationsGiven(inputs), result);
    SplitsTotal(result);
  }

  lemma PaymentsAreCongruent(amount: int64, payments: seq<Payment>)
    requires ValidPayments(amount, payments)
    ensures Total(payments) >= amount && (Total(payments) - amount) % TWO_64 == 0
  {
    hide Wrap, Total;
    ValidIsCongruent(amount, payments);
    NonNegative(payments, "");
  }

  /** A stored transaction has shares that add up to its amount, payments that do so modulo 2^64, and so is balanced. */
  lemma StoredRowsAreBalanced(input: TransactionInput, group: Group, defaultCurrency: string, id: string, row: GroupTransaction)
    requires RowFor(input, group, defaultCurrency, id, row)
    ensures SoundRow(row) && Balanced(BookOf(row))
  {
    hide Total, Balanced, ValidPayments, SharesAsked, PaymentsGiven, PaymentsParse, PositiveMoney, Currency;
    SharesAreExact(row.amountMinor, input.splits, row.splits);
    PaymentsAreCongruent(row.amountMinor, row.payments);
    SoundIsBalanced(row);
  }

  /** A stored transaction balances in mathematical integers exactly when its payments do not overflow int64. */
  lemma StoredRowIsExactIff(input: TransactionInput, group: Group, defaultCurrency: string, id: string, row: GroupTransaction)
    requires RowFor(input, group, defaultCurrency, id, row)
    ensures Total(row.payments) == Total(row.splits) <==> Total(row.payments) <= MAX
  {
    hide Balanced;
    StoredRowsAreBalanced(input, group, defaultCurrency, id, row);
    PaymentsExactIff(row.amountMinor, row.payments);
  }

  lemma CreateKeepsValid(s: LedgerState, t: LedgerState, input: TransactionInput, group: Group, currency: string, id: string,
                         row: GroupTransaction)
    requires ValidLedger(s) && Created(s, t, input, group, currency, id, row)
    ensures ValidLedger(t)
  {
    hide Balanced, RowFor, SoundRow;
    StoredRowsAreBalanced(input, group, currency, id, row);
    RowId(input, group, currency, id, row);
  }

  lemma RowId(input: TransactionInput, group: Group, currency: string, id: string, row: GroupTransaction)
    requires RowFor(input, group, currency, id, row)
    ensures row.id == id
  {}

  lemma DeleteKeepsValid(s: LedgerState, i: nat)
    requires ValidLedger(s) && i < |s.transactions|
    ensures ValidLedger(Delete(s, i))
  {
    hide Total;
    var t := Delete(s, i);
    forall k | 0 <= k < |t.transactions| ensures SoundRow(t.transactions[k]) {
      assert SoundRow(s.transactions[k]);
    }
  }

  lemma NextKeepsValid(s: LedgerState, t: LedgerState)
    requires ValidLedger(s) && Next(s, t)
    ensures ValidLedger(t)
  {
    if input, group, currency, id, row :| Created(s, t, input, group, currency, id, row) {
      CreateKeepsValid(s, t, input, group, currency, id, row);
    } else if i :| Deleted(s, t, i) {
      DeleteKeepsValid(s, i);
    } else if s != t {
      var input, group, currency, id, row :| Settled(s, t, input, group, currency, id, row);
    }
  }

  lemma NothingHappened(s: LedgerState)
    ensures Next(s, s)
  {}

  lemma CreatedIsNext(s: LedgerState, t: LedgerState, input: TransactionInput, group: Group, currency: string, id: string,
                      row: GroupTransaction)
    requires Created(s, t, input, group, currency, id, row)
    ensures Next(s, t)
  {
    hide RowFor;
  }

  /** What the caller gets once a row is committed: the row read back, or why it cannot be. */
  function ReadAnswer(row: GroupTransaction, failure: Option<LedgerError>): (r: Result<GroupTransaction, LedgerError>) {
    if failure.Some? then Err(failure.value) else if !ReadsBack(row) then Err(Unreadable) else Ok(row)
  }

  /** The live transactions of one group and currency. */
  function LiveTransactions(ts: seq<GroupTransaction>, groupId: string, currency: string): (r: seq<GroupTransaction>) {
    if ts == [] then []
    else
      var t := ts[|ts| - 1];
      LiveTransactions(ts[..|ts| - 1], groupId, currency)
      + if t.groupId == groupId && t.currency == currency && !t.deleted then [t] else []
  }

  function LiveSettlements(rows: seq<SettlementRow>, groupId: string, currency: string): (r: seq<Settlement>) {
    if rows == [] then []
    else
      var r := rows[|rows| - 1];
      LiveSettlements(rows[..|rows| - 1], groupId, currency)
      + if r.groupId == groupId && r.currency == currency then [r.transfer] else []
  }

  lemma {:induction false} LiveAreSound(ts: seq<GroupTransaction>, groupId: string, currency: string)
    requires AllSound(ts)
    ensures AllSound(LiveTransactions(ts, groupId, currency)) && AllBalanced(LiveTransactions(ts, groupId, currency))
  {
    hide SoundRow, Balanced;
    if ts != [] {
      assert forall i :: 0 <= i < |ts| - 1 ==> ts[..|ts| - 1][i] == ts[i];
      LiveAreSound(ts[..|ts| - 1], groupId, currency);
      SoundIsBalanced(ts[|ts| - 1]);
    }
  }

  /**
   * In every state of every run, for every group and currency, the ledger passes the balance checks of
   * GetGroupBalances, and the nets of all its users cancel as int64 adds them up.
   */
  lemma {:induction false} EveryRunStaysBalanced(states: seq<LedgerState>, i: nat, groupId: string, currency: string)
    requires Run(states) && i < |states|
    ensures ValidLedger(states[i])
    ensures var ts := LiveTransactions(states[i].transactions, groupId, currency);
            var ss := LiveSettlements(states[i].settlements, groupId, currency);
            && AllSound(ts) && AllBalanced(ts)
            && Wrap(SumOver(GroupMentioned(ts, ss), GroupNetEach(ts, ss))) == 0
  {
    hide Wrap, Balanced, SoundRow;
    if i > 0 {
      EveryRunStaysBalanced(states, i - 1, groupId, currency);
      NextKeepsValid(states[i - 1], states[i]);
    }
    var ts := LiveTransactions(states[i].transactions, groupId, currency);
    var ss := LiveSettlements(states[i].settlements, groupId, currency);
    LiveAreSound(states[i].transactions, groupId, currency);
    GroupNetsSum(ts, ss, GroupMentioned(ts, ss));
    ImbalanceWraps(ts);
  }

  // ---------- the service ----------

  class TransactionService {
    var transactions: seq<GroupTransaction>
    var settlements: seq<SettlementRow>
    const defaultCurrency: string

    function State(): (r: LedgerState)
      reads this
    {
      LedgerState(transactions, settlements)
    }

    ghost predicate Valid()
      reads this
    {
      ValidLedger(State())
    }

    constructor (defaultCurrency: string)
      ensures Valid() && State() == LedgerState([], []) && this.defaultCurrency == defaultCurrency
    {
      transactions, settlements := [], [];
      this.defaultCurrency := defaultCurrency;
    }

    /** The row is committed before it is read back, so an error may leave it stored. */
    method CreateGroupTransaction(input: TransactionInput, around: Surroundings, id: string)
        returns (r: Result<GroupTransaction, LedgerError>)
      requires Valid() && FreshTransaction(State(), id)
      modifies this
      ensures Valid() && Next(old(State()), State())
      ensures Refusal(input, around, defaultCurrency) == None <==> Acceptable(input, around, defaultCurrency)
      ensures match Refusal(input, around, defaultCurrency)
              case Some(error) => r == Err(error) && State() == old(State())
              case None =>
                exists row :: Created(old(State()), State(), input, around.group.value, defaultCurrency, id, row)
                              && r == ReadAnswer(row, around.readBack)
      ensures r.Ok? <==> Acceptable(input, around, defaultCurrency) && around.readBack == None && NoneFixed(input.splits)
    {
      AcceptedIff(input, around, defaultCurrency);
      hide Acceptable, NoneFixed, ReadsBack, Next;
      var row := PrepareTransaction(input, around, defaultCurrency, id);
      if row.Err? {
        assert Next(old(State()), State()) by { NothingHappened(State()); }
        return row;
      }
      transactions := transactions + [row.value];
      CreateKeepsValid(old(State()), State(), input, around.group.value, defaultCurrency, id, row.value);
      CreatedIsNext(old(State()), State(), input, around.group.value, defaultCurrency, id, row.value);
      RowReadsBackIff(input, around.group.value, defaultCurrency, id, row.value);
      if around.readBack.Some? {
        return Err(around.readBack.value);
      }
      if !ReadsBack(row.value) {
        return Err(Unreadable);
      }
      return row;
    }

    method DeleteGroupTransaction(id: string, userId: string, around: DeletionAnswers) returns (error: Option<LedgerError>)
      requires Valid()
      modifies this
      ensures Valid() && Next(old(State()), State())
      ensures error == DeleteRefusal(old(State()), id, userId, around)
      ensures if error == None then exists i :: Deletable(old(State()), id, userId, around, i) && State() == Delete(old(State()), i)
              else State() == old(State())
    {
      hide Strings.TrimSpace;
      if Strings.TrimSpace(id) == "" || Strings.TrimSpace(userId) == "" {
        return Some(Validation);
      }
      if around.read.Some? {
        return around.read;
      }
      var found := FindLive(id);
      if found == None {
        return Some(NotFound);
      }
      var i := found.value;
      if !ReadsBack(transactions[i]) {
        return Some(Unreadable);
      }
      if around.membership.Err? {
        return Some(around.membership.error);
      }
      if around.role.Err? {
        return Some(around.role.error);
      }
      if transactions[i].createdBy != userId && around.role.value != Owner {
        return Some(Forbidden);
      }
      assert Deletable(old(State()), id, userId, around, i);
      if around.stored.Some? {
        return around.stored;
      }
      DeleteKeepsValid(State(), i);
      transactions := transactions[i := transactions[i].(deleted := true)];
      assert Deleted(old(State()), State(), i);
      return None;
    }

    method FindLive(id: string) returns (r: Option<nat>)
      requires Valid()
      ensures match r
              case Some(i) => i < |transactions| && transactions[i].id == id && !transactions[i].deleted
              case None => forall i :: 0 <= i < |transactions| ==> transactions[i].id != id || transactions[i].deleted
    {
      for i := 0 to |transactions|
        invariant forall j :: 0 <= j < i ==> transactions[j].id != id || transactions[j].deleted
      {
        if transactions[i].id == id && !transactions[i].deleted {
          return Some(i);
        }
      }
      return None;
    }

    method CreateSettlement(input: SettlementInput, around: Surroundings, id: string) returns (r: Result<SettlementRow, LedgerError>)
      requires Valid()
      modifies this
      ensures Valid() && Next(old(State()), State())
      ensures match SettlementRefusal(input, around, defaultCurrency)
              case Some(error) => r == Err(error) && State() == old(State())
              case None => r.Ok? && Settled(old(State()), State(), input, around.group.value, defaultCurrency, id, r.value)
      ensures r.Ok? <==> SettlementAcceptable(input, around, defaultCurrency)
    {
      SettlementAcceptedIff(input, around, defaultCurrency);
      hide SettlementAcceptable, Strings.TrimSpace, PositiveMoney, Currency;
      var groupId, sender := Strings.TrimSpace(input.groupId), Strings.TrimSpace(input.fromUser);
      var receiver, creator := Strings.TrimSpace(input.toUser), Strings.TrimSpace(input.createdBy);
      if groupId == "" || sender == "" || receiver == "" || creator == "" {
        return Err(Validation);
      }
      if sender == receiver {
        return Err(Validation);
      }
      if around.role.Err? {
        return Err(around.role.error);
      }
      if creator != sender && around.role.value != Owner {
        return Err(Forbidden);
      }
      if around.group.Err? {
        return Err(around.group.error);
      }
      if around.members.Err? {
        return Err(around.members.error);
      }
      if sender !in around.members.value || receiver !in around.members.value {
        return Err(Validation);
      }
      if around.users.Some? {
        return Err(around.users.value);
      }
      var amount := PositiveMoney(input.amount);
      var currency := Currency(input.currency, defaultCurrency);
      if amount == None || currency == None {
        return Err(Validation);
      }
      if around.stored.Some? {
        return Err(around.stored.value);
      }
      var row := SettlementRow(id, around.group.value.id, currency.value, Settlement(sender, receiver, amount.value));
      settlements := settlements + [row];
      assert Settled(old(State()), State(), input, around.group.value, defaultCurrency, id, row);
      return Ok(row);
    }

    /** The rows of one group and currency, in whatever order the database lists them; None if one of them cannot be read. */
    method GetGroupLedger(groupId: string, currency: string) returns (r: Option<(seq<GroupTransaction>, seq<Settlement>)>)
      ensures r.Some? <==> AllReadBack(LiveTransactions(transactions, groupId, currency))
      ensures r.Some? ==> multiset(r.value.0) == multiset(LiveTransactions(transactions, groupId, currency))
      ensures r.Some? ==> multiset(r.value.1) == multiset(LiveSettlements(settlements, groupId, currency))
    {
      hide ReadsBack;
      var ts := LiveTransactions(transactions, groupId, currency);
      for i := 0 to |ts|
        invariant AllReadBack(ts[..i])
      {
        if !ReadsBack(ts[i]) {
          return None;
        }
        assert ts[..i + 1] == ts[..i] + [ts[i]];
      }
      assert ts[..|ts|] == ts;
      return Some((ts, LiveSettlements(settlements, groupId, currency)));
    }

    /**
     * Never fails for want of balance: only a blank argument, a bad currency, a row that cannot be read, or an error
     * of what it asks can refuse.
     */
    method GetGroupBalances(groupId: string, userId: string, currency: string, role: Result<Role, LedgerError>,
                            read: Option<LedgerError>)
        returns (r: Result<(seq<MemberBalance>, seq<Suggestions.Suggestion>), LedgerError>)
      requires Valid()
      ensures if Strings.TrimSpace(groupId) == "" || Strings.TrimSpace(userId) == "" then r == Err(Validation)
              else if role.Err? then r == Err(role.error)
              else match Currency(currency, defaultCurrency)
                case None => r == Err(Validation)
                case Some(code) =>
                  if read.Some? then r == Err(read.value)
                  else if !AllReadBack(LiveTransactions(transactions, groupId, code)) then r == Err(Unreadable)
                  else
                    && r.Ok?
                    && IsGroupSheet(LiveTransactions(transactions, groupId, code), LiveSettlements(settlements, groupId, code),
                                    r.value.0)
                    && Suggestions.IsSuggestion(r.value.0, Suggestions.Transfers(r.value.1))
    {
      if Strings.TrimSpace(groupId) == "" || Strings.TrimSpace(userId) == "" {
        return Err(Validation);
      }
      if role.Err? {
        return Err(role.error);
      }
      var code := Currency(currency, defaultCurrency);
      if code == None {
        return Err(Validation);
      }
      if read.Some? {
        return Err(read.value);
      }
      var ledger := GetGroupLedger(groupId, code.value);
      if ledger == None {
        return Err(Unreadable);
      }
      var (ts, ss) := ledger.value;
      LiveAreSound(transactions, groupId, code.value);
      StillBalanced(LiveTransactions(transactions, groupId, code.value), ts);
      var rows := GroupBalances(ts, ss);
      LedgerOrder.SheetPermutation(ts, LiveTransactions(transactions, groupId, code.value), ss,
                                   LiveSettlements(settlements, groupId, code.value), rows.value);
      var suggestions := Suggestions.SuggestSettlements(rows.value, code.value);
      return Ok((rows.value, suggestions));
    }
  }

  lemma StillBalanced(ts: seq<GroupTransaction>, ts': seq<GroupTransaction>)
    requires AllBalanced(ts) && multiset(ts) == multiset(ts')
    ensures AllBalanced(ts')
  {
    forall i | 0 <= i < |ts'| ensures Balanced(BookOf(ts'[i])) { Sorting.SameMembers(ts', ts, ts'[i]); }
  }

  /** What is answered during a deletion: reading the row, the two lookups of the caller's role, and writing. */
  datatype DeletionAnswers = DeletionAnswers(read: Option<LedgerError>, membership: Result<Role, LedgerError>,
                                             role: Result<Role, LedgerError>, stored: Option<LedgerError>)

  ghost predicate Deletable(s: LedgerState, id: string, userId: string, around: DeletionAnswers, i: nat) {
    && i < |s.transactions| && s.transactions[i].id == id && !s.transactions[i].deleted
    && Strings.TrimSpace(id) != "" && Strings.TrimSpace(userId) != "" && ReadsBack(s.transactions[i])
    && around.role.Ok? && (s.transactions[i].createdBy == userId || around.role.value == Owner)
  }

  ghost function DeleteRefusal(s: LedgerState, id: string, userId: string, around: DeletionAnswers): (r: Option<LedgerError>) {
    if Strings.TrimSpace(id) == "" || Strings.TrimSpace(userId) == "" then Some(Validation)
    else if around.read.Some? then around.read
    else if forall i :: 0 <= i < |s.transactions| ==> s.transactions[i].id != id || s.transactions[i].deleted then Some(NotFound)
    else if forall i :: 0 <= i < |s.transactions| && s.transactions[i].id == id && !s.transactions[i].deleted
              ==> !ReadsBack(s.transactions[i])
    then Some(Unreadable)
    else if around.membership.Err? then Some(around.membership.error)
    else if around.role.Err? then Some(around.role.error)
    else if !exists i :: Deletable(s, id, userId, around, i) then Some(Forbidden)
    else around.stored
  }

  /** The checks of CreateGroupTransaction in their order, up to the row handed to the repository. */
  method PrepareTransaction(input: TransactionInput, around: Surroundings, defaultCurrency: string, id: string)
      returns (r: Result<GroupTransaction, LedgerError>)
    ensures match Refusal(input, around, defaultCurrency)
            case Some(error) => r == Err(error)
            case None => r.Ok? && RowFor(input, around.group.value, defaultCurrency, id, r.value)
  {
    hide SharesAsked, SplitsAccepted, ValidPayments, PaymentsParse, PaymentsGiven, PositiveMoney, Currency;
    var groupId, createdBy := Strings.TrimSpace(input.groupId), Strings.TrimSpace(input.createdBy);
    if groupId == "" || createdBy == "" || Strings.TrimSpace(input.title) == "" {
      return Err(Validation);
    }
    if input.kind == Unspecified {
      return Err(Validation);
    }
    if around.role.Err? {
      return Err(around.role.error);
    }
    if around.group.Err? {
      return Err(around.group.error);
    }
    if !around.group.value.active {
      return Err(Validation);
    }
    var amount := PositiveMoney(input.amount);
    if amount == None {
      return Err(Validation);
    }
    var currency := Currency(input.currency, defaultCurrency);
    if currency == None {
      return Err(Validation);
    }
    if around.members.Err? {
      return Err(around.members.error);
    }
    if !UsersAreMembers(input, around.members.value) {
      return Err(Validation);
    }
    if around.users.Some? {
      return Err(around.users.value);
    }
    var categoryError := CategoryError(input.categoryId, around);
    if categoryError.Some? {
      return Err(categoryError.value);
    }
    var payments := BuildPayments(input.payments);
    if payments == None {
      return Err(InvalidPayment);
    }
    var valid := ValidatePayments(amount.value, payments.value);
    if !valid {
      return Err(InvalidPayment);
    }
    var splits := BuildSplits(input.splits, amount.value);
    if splits == None {
      return Err(InvalidSplit);
    }
    if around.stored.Some? {
      return Err(around.stored.value);
    }
    return Ok(GroupTransaction(id, around.group.value.id, input.kind, amount.value, currency.value, createdBy,
                               payments.value, splits.value, ValuesStored(AllocationsGiven(input.splits)), false));
  }
}
