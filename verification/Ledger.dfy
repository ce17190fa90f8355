/** The group ledger: what may be written to it, and the balances read from it. */
module Ledger {
  import opened Balances
  import opened Entries
  import opened Int64
  import opened Sums
  import opened Wrappers
  import Allocation
  import Money
  import Strings
  import Suggestions

  datatype Role = Owner | Member

  datatype LedgerError =
    | Validation | Forbidden | InvalidPayment | InvalidSplit | NotFound | Upstream | Storage | Unreadable | Unbalanced

  datatype PaymentInput = PaymentInput(userId: string, amount: string)

  datatype SplitInput = SplitInput(userId: string, splitType: Allocation.SplitType, splitValue: string)

  datatype TransactionInput = TransactionInput(groupId: string, kind: TransactionType, title: string, amount: string,
                                               currency: string, createdBy: string, categoryId: string,
                                               payments: seq<PaymentInput>, splits: seq<SplitInput>)

  datatype SettlementInput = SettlementInput(groupId: string, fromUser: string, toUser: string, amount: string,
                                             currency: string, createdBy: string)

  /** A split's type and value, as the table holds it: the text its numeric column gives back. */
  datatype StoredValue = StoredValue(splitType: Allocation.SplitType, text: string)

  datatype GroupTransaction = GroupTransaction(id: string, groupId: string, kind: TransactionType, amountMinor: int64,
                                               currency: string, createdBy: string, payments: seq<Payment>,
                                               splits: seq<Split>, values: seq<StoredValue>, deleted: bool)

  datatype SettlementRow = SettlementRow(id: string, groupId: string, currency: string, transfer: Settlement)

  datatype Group = Group(id: string, active: bool)

  /**
   * What the other services and the database answer during one call: the caller's role, the group and its
   * members, whether the category is active, and the errors, if any, of looking the users up, of storing,
   * and of reading back what was stored.
   */
  datatype Surroundings = Surroundings(role: Result<Role, LedgerError>, group: Result<Group, LedgerError>,
                                       members: Result<seq<string>, LedgerError>, users: Option<LedgerError>,
                                       category: Result<bool, LedgerError>, stored: Option<LedgerError>,
                                       readBack: Option<LedgerError>)

  datatype LedgerState = LedgerState(transactions: seq<GroupTransaction>, settlements: seq<SettlementRow>)

  // ---------- reading the input ----------

  function PositiveMoney(raw: string): (r: Option<int64>) {
    match Money.ParseMoney(raw)
    case Some(v) => if v > 0 then Some(v) else None
    case None => None
  }

  function UpperChar(c: char): (r: char) {
    if 'a' <= c <= 'z' then (c as int - 32) as char
    else if c as int == 0x131 then 'I' // dotless i
    else if c as int == 0x17F then 'S' // long s
    else c
  }

  function ToUpper(s: string): (r: string)
    ensures |r| == |s|
  {
    seq(|s|, i requires 0 <= i < |s| => UpperChar(s[i]))
  }

  predicate IsCode(code: string) {
    |code| == 3 && forall i :: 0 <= i < |code| ==> 'A' <= code[i] <= 'Z'
  }

  /** The currency code, the default one if none is given; None unless it is three capital letters. */
  function Currency(value: string, defaultCurrency: string): (r: Option<string>) {
    var upper := ToUpper(Strings.TrimSpace(value));
    var code := if upper == "" then defaultCurrency else upper;
    if IsCode(code) then Some(code) else None
  }

  predicate PaymentsParse(inputs: seq<PaymentInput>) {
    forall i :: 0 <= i < |inputs| ==> PositiveMoney(inputs[i].amount).Some?
  }

  function PaymentsGiven(inputs: seq<PaymentInput>): (r: seq<Payment>)
    requires PaymentsParse(inputs)
    ensures |r| == |inputs|
  {
    seq(|inputs|, i requires 0 <= i < |inputs| =>
      Entry(Strings.TrimSpace(inputs[i].userId), PositiveMoney(inputs[i].amount).value))
  }

  function SplitValue(input: SplitInput): (r: Option<int64>) {
    match input.splitType
    case Fixed => PositiveMoney(input.splitValue)
    case Ratio =>
      var value := Money.ParseRatio(input.splitValue);
      if value.Some? && value.value > 0 then value else None
    case Other(_) => None
  }

  predicate SplitsParse(inputs: seq<SplitInput>) {
    forall i :: 0 <= i < |inputs| ==> SplitValue(inputs[i]).Some?
  }

  function AllocationsGiven(inputs: seq<SplitInput>): (r: seq<Allocation.SplitAllocation>)
    requires SplitsParse(inputs)
    ensures |r| == |inputs|
  {
    seq(|inputs|, i requires 0 <= i < |inputs| =>
      Allocation.SplitAllocation(Strings.TrimSpace(inputs[i].userId), inputs[i].splitType, SplitValue(inputs[i]).value, 0))
  }

  /** The stored splits: users and shares of an allocation. */
  function SplitsOf(allocations: seq<Allocation.SplitAllocation>): (r: seq<Split>)
    ensures |r| == |allocations|
  {
    seq(|allocations|, i requires 0 <= i < |allocations| => Entry(allocations[i].userId, allocations[i].shareMinor))
  }

  /** A column with six places after the point pads a money amount that was printed with two. */
  function ColumnText(splitType: Allocation.SplitType, value: int64): (r: string) {
    if splitType.Fixed? then Money.FormatMoney(value) + "0000" else Money.FormatRatio(value)
  }

  /** The values of the splits, as the table holds them. */
  function ValuesStored(allocations: seq<Allocation.SplitAllocation>): (r: seq<StoredValue>)
    ensures |r| == |allocations|
  {
    seq(|allocations|, i requires 0 <= i < |allocations| =>
      StoredValue(allocations[i].splitType, ColumnText(allocations[i].splitType, allocations[i].splitValue)))
  }

  /** How a stored value is read: as money if it is fixed, as a ratio otherwise. */
  function ReadValue(v: StoredValue): (r: Option<int64>) {
    if v.splitType.Fixed? then Money.ParseMoney(v.text) else Money.ParseRatio(v.text)
  }

  predicate ReadsBack(t: GroupTransaction) {
    forall i :: 0 <= i < |t.values| ==> ReadValue(t.values[i]).Some?
  }

  predicate AllReadBack(ts: seq<GroupTransaction>) {
    forall i :: 0 <= i < |ts| ==> ReadsBack(ts[i])
  }

  method BuildPayments(inputs: seq<PaymentInput>) returns (r: Option<seq<Payment>>)
    ensures r == if PaymentsParse(inputs) then Some(PaymentsGiven(inputs)) else None
  {
    hide PositiveMoney, Strings.TrimSpace;
    var result: seq<Payment> := [];
    for i := 0 to |inputs|
      invariant |result| == i
      invariant forall j :: 0 <= j < i ==>
        PositiveMoney(inputs[j].amount).Some?
        && result[j] == Entry(Strings.TrimSpace(inputs[j].userId), PositiveMoney(inputs[j].amount).value)
    {
      var amount := PositiveMoney(inputs[i].amount);
      if amount == None {
        return None;
      }
      result := result + [Entry(Strings.TrimSpace(inputs[i].userId), amount.value)];
    }
    assert result == PaymentsGiven(inputs);
    return Some(result);
  }

  /** splits are the shares of the answer to splitting the amount as the inputs ask. */
  ghost predicate SharesAsked(amount: int64, inputs: seq<SplitInput>, splits: seq<Split>) {
    && SplitsParse(inputs)
    && exists result :: Allocation.Answer(amount, AllocationsGiven(inputs), Ok(result)) && splits == SplitsOf(result)
  }

  ghost predicate SplitsAccepted(amount: int64, inputs: seq<SplitInput>) {
    SplitsParse(inputs) && Allocation.Splittable(amount, AllocationsGiven(inputs))
  }

  method ReadAllocations(inputs: seq<SplitInput>) returns (r: Option<seq<Allocation.SplitAllocation>>)
    ensures r == if SplitsParse(inputs) then Some(AllocationsGiven(inputs)) else None
  {
    hide SplitValue, Strings.TrimSpace;
    var allocations: seq<Allocation.SplitAllocation> := [];
    for i := 0 to |inputs|
      invariant |allocations| == i
      invariant forall j :: 0 <= j < i ==>
        SplitValue(inputs[j]).Some?
        && allocations[j] == Allocation.SplitAllocation(Strings.TrimSpace(inputs[j].userId), inputs[j].splitType,
                                                        SplitValue(inputs[j]).value, 0)
    {
      var value := SplitValue(inputs[i]);
      if value == None {
        return None;
      }
      allocations := allocations
        + [Allocation.SplitAllocation(Strings.TrimSpace(inputs[i].userId), inputs[i].splitType, value.value, 0)];
    }
    assert allocations == AllocationsGiven(inputs);
    return Some(allocations);
  }

  method BuildSplits(inputs: seq<SplitInput>, amount: int64) returns (r: Option<seq<Split>>)
    ensures r.Some? <==> SplitsAccepted(amount, inputs)
    ensures r.Some? ==> SharesAsked(amount, inputs, r.value) && SplitsParse(inputs)
  {
    hide AllocationsGiven, Allocation.Answer, Allocation.Splittable;
    var allocations := ReadAllocations(inputs);
    if allocations == None {
      return None;
    }
    var answer := Allocation.AllocateShares(amount, allocations.value);
    Allocation.AllocationSucceedsIff(amount, allocations.value, answer);
    if answer.Err? {
      return None;
    }
    var result: seq<Split> := [];
    for i := 0 to |answer.value|
      invariant result == SplitsOf(answer.value[..i])
    {
      assert answer.value[..i + 1] == answer.value[..i] + [answer.value[i]];
      result := result + [Entry(answer.value[i].userId, answer.value[i].shareMinor)];
    }
    assert answer.value[..|answer.value|] == answer.value;
    return Some(result);
  }

  // ---------- what may be written ----------

  predicate UsersAreMembers(input: TransactionInput, members: seq<string>) {
    && Strings.TrimSpace(input.createdBy) in members
    && (forall i :: 0 <= i < |input.payments| ==> Strings.TrimSpace(input.payments[i].userId) in members)
    && (forall i :: 0 <= i < |input.splits| ==> Strings.TrimSpace(input.splits[i].userId) in members)
  }

  /** A category, if one is named, must be found and be active. */
  function CategoryError(categoryId: string, around: Surroundings): (r: Option<LedgerError>) {
    if Strings.TrimSpace(categoryId) == "" then None
    else match around.category
      case Err(error) => Some(error)
      case Ok(active) => if active then None else Some(Validation)
  }

  /** The reason a group transaction is refused, if it is, in the order in which the reasons are looked for. */
  ghost function Refusal(input: TransactionInput, around: Surroundings, defaultCurrency: string): (r: Option<LedgerError>) {
    var amount := PositiveMoney(input.amount);
    if Strings.TrimSpace(input.groupId) == "" || Strings.TrimSpace(input.createdBy) == "" || Strings.TrimSpace(input.title) == ""
    then Some(Validation)
    else if input.kind == Unspecified then Some(Validation)
    else if around.role.Err? then Some(around.role.error)
    else if around.group.Err? then Some(around.group.error)
    else if !around.group.value.active || amount == None || Currency(input.currency, defaultCurrency) == None then Some(Validation)
    else if around.members.Err? then Some(around.members.error)
    else if !UsersAreMembers(input, around.members.value) then Some(Validation)
    else if around.users.Some? then around.users
    else if CategoryError(input.categoryId, around).Some? then CategoryError(input.categoryId, around)
    else if !PaymentsParse(input.payments) || !ValidPayments(amount.value, PaymentsGiven(input.payments))
    then Some(InvalidPayment)
    else if !SplitsAccepted(amount.value, input.splits) then Some(InvalidSplit)
    else around.stored
  }

  /** Everything an accepted group transaction must fulfil. */
  ghost predicate Acceptable(input: TransactionInput, around: Surroundings, defaultCurrency: string) {
    && Strings.TrimSpace(input.groupId) != "" && Strings.TrimSpace(input.createdBy) != "" && Strings.TrimSpace(input.title) != ""
    && input.kind != Unspecified
    && around.role.Ok? && around.group.Ok? && around.group.value.active
    && around.members.Ok? && UsersAreMembers(input, around.members.value)
    && around.users == None && CategoryError(input.categoryId, around) == None && around.stored == None
    && Currency(input.currency, defaultCurrency).Some? && PositiveMoney(input.amount).Some?
    && PaymentsParse(input.payments) && ValidPayments(PositiveMoney(input.amount).value, PaymentsGiven(input.payments))
    && SplitsAccepted(PositiveMoney(input.amount).value, input.splits)
  }

  lemma AcceptedIff(input: TransactionInput, around: Surroundings, defaultCurrency: string)
    ensures Refusal(input, around, defaultCurrency) == None <==> Acceptable(input, around, defaultCurrency)
  {
    hide PositiveMoney, Currency, ValidPayments, PaymentsParse, PaymentsGiven, SplitsAccepted, Strings.TrimSpace;
  }

  /** The row an accepted input is stored as. */
  ghost predicate RowFor(input: TransactionInput, group: Group, defaultCurrency: string, id: string, row: GroupTransaction) {
    && row.id == id && row.groupId == group.id && row.kind == input.kind
    && row.createdBy == Strings.TrimSpace(input.createdBy) && !row.deleted
    && Some(row.amountMinor) == PositiveMoney(input.amount)
    && Some(row.currency) == Currency(input.currency, defaultCurrency)
    && PaymentsParse(input.payments) && row.payments == PaymentsGiven(input.payments)
    && ValidPayments(row.amountMinor, row.payments)
    && SharesAsked(row.amountMinor, input.splits, row.splits)
    && SplitsParse(input.splits) && row.values == ValuesStored(AllocationsGiven(input.splits))
  }

  ghost function SettlementRefusal(input: SettlementInput, around: Surroundings, defaultCurrency: string): (r: Option<LedgerError>) {
    var sender, receiver := Strings.TrimSpace(input.fromUser), Strings.TrimSpace(input.toUser);
    var creator := Strings.TrimSpace(input.createdBy);
    if Strings.TrimSpace(input.groupId) == "" || sender == "" || receiver == "" || creator == "" then Some(Validation)
    else if sender == receiver then Some(Validation)
    else if around.role.Err? then Some(around.role.error)
    else if creator != sender && around.role.value != Owner then Some(Forbidden)
    else if around.group.Err? then Some(around.group.error)
    else if around.members.Err? then Some(around.members.error)
    else if sender !in around.members.value || receiver !in around.members.value then Some(Validation)
    else if around.users.Some? then around.users
    else if PositiveMoney(input.amount) == None || Currency(input.currency, defaultCurrency) == None then Some(Validation)
    else around.stored
  }

  /** Everything an accepted settlement must fulfil: two different members, reported by the sender or an owner. */
  ghost predicate SettlementAcceptable(input: SettlementInput, around: Surroundings, defaultCurrency: string) {
    var sender, receiver := Strings.TrimSpace(input.fromUser), Strings.TrimSpace(input.toUser);
    && Strings.TrimSpace(input.groupId) != "" && Strings.TrimSpace(input.createdBy) != ""
    && sender != "" && receiver != "" && sender != receiver
    && around.role.Ok? && (Strings.TrimSpace(input.createdBy) == sender || around.role.value == Owner)
    && around.group.Ok? && around.members.Ok? && sender in around.members.value && receiver in around.members.value
    && around.users == None && around.stored == None
    && PositiveMoney(input.amount).Some? && Currency(input.currency, defaultCurrency).Some?
  }

  lemma SettlementAcceptedIff(input: SettlementInput, around: Surroundings, defaultCurrency: string)
    ensures SettlementRefusal(input, around, defaultCurrency) == None <==> SettlementAcceptable(input, around, defaultCurrency)
  {
    hide PositiveMoney, Currency, Strings.TrimSpace;
  }

  ghost predicate SettlementRowFor(input: SettlementInput, group: Group, defaultCurrency: string, id: string, row: SettlementRow) {
    && row.id == id && row.groupId == group.id
    && Some(row.currency) == Currency(input.currency, defaultCurrency)
    && row.transfer.fromUser == Strings.TrimSpace(input.fromUser) && row.transfer.toUser == Strings.TrimSpace(input.toUser)
    && Some(row.transfer.amountMinor) == PositiveMoney(input.amount)
  }

  // ---------- reading balances from a ledger ----------

  function BookOf(t: GroupTransaction): (r: Book) {
    Book(t.kind, t.payments, t.splits, [])
  }

  ghost predicate AllBalanced(ts: seq<GroupTransaction>) {
    forall i :: 0 <= i < |ts| ==> Balanced(BookOf(ts[i]))
  }

  /** The payments, or the splits, of all transactions, or of those of one kind. */
  function Flow(ts: seq<GroupTransaction>, payments: bool, kind: Option<TransactionType>): (r: seq<Entry>) {
    if ts == [] then [] else Flow(ts[..|ts| - 1], payments, kind) + FlowOf(ts[|ts| - 1], payments, kind)
  }

  function FlowOf(t: GroupTransaction, payments: bool, kind: Option<TransactionType>): (r: seq<Entry>) {
    if kind.Some? && (kind.value == Income) != (t.kind == Income) then []
    else if payments then t.payments else t.splits
  }

  /**
   * Net over the whole ledger at once: expenses count paid minus share, income share minus received,
   * settlements sent minus received.
   */
  function GroupNet(ts: seq<GroupTransaction>, ss: seq<Settlement>, u: string): (r: int) {
    Of(Flow(ts, true, Some(Expense)), u) - Of(Flow(ts, false, Some(Expense)), u)
    + Of(Flow(ts, false, Some(Income)), u) - Of(Flow(ts, true, Some(Income)), u)
    + Of(Outgoing(ss), u) - Of(Incoming(ss), u)
  }

  function GroupRow(ts: seq<GroupTransaction>, ss: seq<Settlement>, u: string): (r: MemberBalance) {
    MemberBalance(u, Wrap(Of(Flow(ts, true, None), u)), Wrap(Of(Flow(ts, false, None), u)), Wrap(Of(Outgoing(ss), u)),
                  Wrap(Of(Incoming(ss), u)), Wrap(GroupNet(ts, ss, u)))
  }

  function GroupMentioned(ts: seq<GroupTransaction>, ss: seq<Settlement>): (r: set<string>) {
    Users(Flow(ts, true, None)) + Users(Flow(ts, false, None)) + Users(Outgoing(ss)) + Users(Incoming(ss))
  }

  /** rows is the sheet of the whole ledger: every user once, in order, with directly summed fields. */
  ghost predicate IsGroupSheet(ts: seq<GroupTransaction>, ss: seq<Settlement>, rows: seq<MemberBalance>) {
    && StrictlyIncreasing(rows)
    && (forall i :: 0 <= i < |rows| ==>
          rows[i].userId in GroupMentioned(ts, ss) && rows[i] == GroupRow(ts, ss, rows[i].userId))
    && (forall u :: u in GroupMentioned(ts, ss) ==> GroupRow(ts, ss, u) in rows)
  }

  function AddRow(a: MemberBalance, b: MemberBalance): (r: MemberBalance) {
    MemberBalance(a.userId, Wrap(a.paid + b.paid), Wrap(a.share + b.share), Wrap(a.sent + b.sent),
                  Wrap(a.received + b.received), Wrap(a.net + b.net))
  }

  function RowIn(rows: seq<MemberBalance>, u: string): (r: MemberBalance) {
    if rows == [] then MemberBalance(u, 0, 0, 0, 0, 0)
    else if rows[|rows| - 1].userId == u then rows[|rows| - 1]
    else RowIn(rows[..|rows| - 1], u)
  }

  function RowUsers(rows: seq<MemberBalance>): (r: set<string>) {
    if rows == [] then {} else RowUsers(rows[..|rows| - 1]) + {rows[|rows| - 1].userId}
  }

  lemma ZeroRow(r: MemberBalance, u: string)
    ensures AddRow(MemberBalance(r.userId, 0, 0, 0, 0, 0), r) == r
    ensures AddRow(r, MemberBalance(u, 0, 0, 0, 0, 0)) == r
  {}

  /** The field by field additions into an existing entry. */
  method AddFields(current: MemberBalance, balance: MemberBalance) returns (r: MemberBalance)
    ensures r == AddRow(current, balance)
  {
    hide Wrap;
    r := current;
    r := r.(paid := Wrap(r.paid + balance.paid));
    r := r.(share := Wrap(r.share + balance.share));
    r := r.(sent := Wrap(r.sent + balance.sent));
    r := r.(received := Wrap(r.received + balance.received));
    r := r.(net := Wrap(r.net + balance.net));
  }

  /** mergeBalances: missing users are copied in, present ones get every field added. */
  method MergeBalances(target: map<string, MemberBalance>, source: seq<MemberBalance>) returns (r: map<string, MemberBalance>)
    requires Suggestions.DistinctRows(source)
    requires forall u :: u in target ==> target[u].userId == u
    ensures r.Keys == target.Keys + RowUsers(source)
    ensures forall u :: Lookup(r, u) == AddRow(Lookup(target, u), RowIn(source, u))
  {
    hide Wrap, AddRow;
    r := target;
    forall u ensures Lookup(r, u) == AddRow(Lookup(target, u), RowIn(source[..0], u)) { ZeroRow(Lookup(target, u), u); }
    for i := 0 to |source|
      invariant r.Keys == target.Keys + RowUsers(source[..i])
      invariant forall u :: Lookup(r, u) == AddRow(Lookup(target, u), RowIn(source[..i], u))
    {
      var balance := source[i];
      MergeStep(r, target, source, i);
      if balance.userId !in r {
        r := r[balance.userId := balance];
      } else {
        var current := AddFields(r[balance.userId], balance);
        r := r[balance.userId := current];
      }
    }
    assert source[..|source|] == source;
  }

  lemma MergeStep(r: map<string, MemberBalance>, target: map<string, MemberBalance>, source: seq<MemberBalance>, i: nat)
    requires Suggestions.DistinctRows(source) && i < |source|
    requires forall u :: u in target ==> target[u].userId == u
    requires forall u :: Lookup(r, u) == AddRow(Lookup(target, u), RowIn(source[..i], u))
    ensures var b := source[i];
            && (forall u :: Lookup(r[b.userId := AddRow(Lookup(r, b.userId), b)], u)
                            == AddRow(Lookup(target, u), RowIn(source[..i + 1], u)))
            && RowUsers(source[..i + 1]) == RowUsers(source[..i]) + {b.userId}
            && AddRow(Lookup(map[], b.userId), b) == b
  {
    hide AddRow;
    var b := source[i];
    assert source[..i + 1][..i] == source[..i];
    RowAbsent(source[..i], b.userId);
    ZeroRow(Lookup(target, b.userId), b.userId);
    ZeroRow(b, b.userId);
  }

  lemma {:induction false} RowAbsent(rows: seq<MemberBalance>, u: string)
    requires forall i :: 0 <= i < |rows| ==> rows[i].userId != u
    ensures RowIn(rows, u) == MemberBalance(u, 0, 0, 0, 0, 0)
  {
    if rows != [] { RowAbsent(rows[..|rows| - 1], u); }
  }

  // ---------- merging sheets is summing the whole ledger ----------

  /** The map holds exactly the rows of the ledger so far. */
  ghost predicate HoldsGroup(m: map<string, MemberBalance>, ts: seq<GroupTransaction>, ss: seq<Settlement>) {
    m.Keys == GroupMentioned(ts, ss) && forall u :: Lookup(m, u) == GroupRow(ts, ss, u)
  }

  lemma {:induction false} RowPresent(rows: seq<MemberBalance>, i: nat)
    requires Suggestions.DistinctRows(rows) && i < |rows|
    ensures RowIn(rows, rows[i].userId) == rows[i]
  {
    if i < |rows| - 1 {
      assert forall k :: 0 <= k < |rows| - 1 ==> rows[..|rows| - 1][k] == rows[k];
      RowPresent(rows[..|rows| - 1], i);
    }
  }

  lemma {:induction false} RowUsersAre(rows: seq<MemberBalance>)
    ensures forall u :: u in RowUsers(rows) <==> exists i :: 0 <= i < |rows| && rows[i].userId == u
  {
    if rows != [] {
      RowUsersAre(rows[..|rows| - 1]);
      assert forall k :: 0 <= k < |rows| - 1 ==> rows[..|rows| - 1][k] == rows[k];
    }
  }

  lemma UnmentionedRow(b: Book, u: string)
    requires u !in Mentioned(b)
    ensures Row(b, u) == MemberBalance(u, 0, 0, 0, 0, 0)
  {
    hide Of, Wrap;
    Absent(b.payments, u);
    Absent(b.splits, u);
    Absent(Outgoing(b.settlements), u);
    Absent(Incoming(b.settlements), u);
    assert Wrap(0) == 0;
  }

  lemma SheetRows(b: Book, rows: seq<MemberBalance>)
    requires IsSheet(b, rows)
    ensures RowUsers(rows) == Mentioned(b)
    ensures forall u :: RowIn(rows, u) == Row(b, u)
  {
    hide Row;
    Suggestions.SheetIsDistinct(b, rows);
    RowUsersAre(rows);
    forall u ensures RowIn(rows, u) == Row(b, u) && (u in RowUsers(rows) <==> u in Mentioned(b)) {
      if u in Mentioned(b) {
        assert Row(b, u) in rows;
        var i :| 0 <= i < |rows| && rows[i] == Row(b, u);
        RowKey(b, u);
        RowPresent(rows, i);
      } else {
        RowAbsent(rows, u);
        UnmentionedRow(b, u);
      }
    }
  }

  lemma RowKey(b: Book, u: string)
    ensures Row(b, u).userId == u
  {}

  lemma FlowAppend(ts: seq<GroupTransaction>, t: GroupTransaction, payments: bool, kind: Option<TransactionType>, u: string)
    ensures Of(Flow(ts + [t], payments, kind), u) == Of(Flow(ts, payments, kind), u) + Of(FlowOf(t, payments, kind), u)
    ensures Users(Flow(ts + [t], payments, kind)) == Users(Flow(ts, payments, kind)) + Users(FlowOf(t, payments, kind))
  {
    assert (ts + [t])[..|ts|] == ts;
    Concat(Flow(ts, payments, kind), FlowOf(t, payments, kind), u);
    UsersConcat(Flow(ts, payments, kind), FlowOf(t, payments, kind));
  }

  lemma GroupNetAppend(ts: seq<GroupTransaction>, t: GroupTransaction, u: string)
    ensures GroupNet(ts + [t], [], u) == GroupNet(ts, [], u) + Net(BookOf(t), u)
  {
    hide Flow, Of;
    FlowAppend(ts, t, true, Some(Expense), u);
    FlowAppend(ts, t, false, Some(Expense), u);
    FlowAppend(ts, t, true, Some(Income), u);
    FlowAppend(ts, t, false, Some(Income), u);
    NoEntries(u);
  }

  lemma GroupRowAppend(ts: seq<GroupTransaction>, t: GroupTransaction, u: string)
    ensures AddRow(GroupRow(ts, [], u), Row(BookOf(t), u)) == GroupRow(ts + [t], [], u)
  {
    hide Flow, Of, Wrap, Net, GroupNet;
    FlowAppend(ts, t, true, None, u);
    FlowAppend(ts, t, false, None, u);
    GroupNetAppend(ts, t, u);
    NoEntries(u);
    assert Wrap(0) == 0;
    WrapBoth(Of(Flow(ts, true, None), u), Of(t.payments, u));
    WrapBoth(Of(Flow(ts, false, None), u), Of(t.splits, u));
    WrapBoth(GroupNet(ts, [], u), Net(BookOf(t), u));
  }

  lemma GroupNetSettled(ts: seq<GroupTransaction>, ss: seq<Settlement>, u: string)
    ensures GroupNet(ts, ss, u) == GroupNet(ts, [], u) + Net(Book(Unspecified, [], [], ss), u)
  {
    hide Flow, Of;
    NoEntries(u);
  }

  lemma GroupRowSettled(ts: seq<GroupTransaction>, ss: seq<Settlement>, u: string)
    ensures AddRow(GroupRow(ts, [], u), Row(Book(Unspecified, [], [], ss), u)) == GroupRow(ts, ss, u)
  {
    hide Flow, Of, Wrap, Net, GroupNet;
    GroupNetSettled(ts, ss, u);
    NoEntries(u);
    assert Wrap(0) == 0;
    WrapBoth(Of(Flow(ts, true, None), u), 0);
    WrapBoth(Of(Flow(ts, false, None), u), 0);
    WrapBoth(0, Of(Outgoing(ss), u));
    WrapBoth(0, Of(Incoming(ss), u));
    WrapBoth(GroupNet(ts, [], u), Net(Book(Unspecified, [], [], ss), u));
  }

  lemma GroupMentionedAppend(ts: seq<GroupTransaction>, t: GroupTransaction)
    ensures GroupMentioned(ts + [t], []) == GroupMentioned(ts, []) + Mentioned(BookOf(t))
  {
    hide Flow;
    FlowAppend(ts, t, true, None, "");
    FlowAppend(ts, t, false, None, "");
  }

  lemma MergedTransaction(m: map<string, MemberBalance>, r: map<string, MemberBalance>,
                          ts: seq<GroupTransaction>, t: GroupTransaction, rows: seq<MemberBalance>)
    requires HoldsGroup(m, ts, []) && IsSheet(BookOf(t), rows)
    requires r.Keys == m.Keys + RowUsers(rows)
    requires forall u :: Lookup(r, u) == AddRow(Lookup(m, u), RowIn(rows, u))
    ensures HoldsGroup(r, ts + [t], [])
  {
    hide Row, GroupRow, AddRow, GroupMentioned, Mentioned, RowIn, RowUsers, IsSheet;
    SheetRows(BookOf(t), rows);
    GroupMentionedAppend(ts, t);
    forall u ensures Lookup(r, u) == GroupRow(ts + [t], [], u) {
      assert Lookup(m, u) == GroupRow(ts, [], u) && RowIn(rows, u) == Row(BookOf(t), u);
      GroupRowAppend(ts, t, u);
    }
  }

  lemma MergedSettlements(m: map<string, MemberBalance>, r: map<string, MemberBalance>,
                          ts: seq<GroupTransaction>, ss: seq<Settlement>, rows: seq<MemberBalance>)
    requires HoldsGroup(m, ts, []) && IsSheet(Book(Unspecified, [], [], ss), rows)
    requires r.Keys == m.Keys + RowUsers(rows)
    requires forall u :: Lookup(r, u) == AddRow(Lookup(m, u), RowIn(rows, u))
    ensures HoldsGroup(r, ts, ss)
  {
    hide Row, GroupRow, AddRow, Flow;
    SheetRows(Book(Unspecified, [], [], ss), rows);
    forall u ensures Lookup(r, u) == GroupRow(ts, ss, u) {
      assert Lookup(m, u) == GroupRow(ts, [], u) && RowIn(rows, u) == Row(Book(Unspecified, [], [], ss), u);
      GroupRowSettled(ts, ss, u);
    }
  }

  // ---------- the sum over the group ----------

  ghost function GroupNetEach(ts: seq<GroupTransaction>, ss: seq<Settlement>): (r: string -> int) {
    u => GroupNet(ts, ss, u)
  }

  /** How far the ledger is from exact balance: over all transactions, payments minus shares, signed. */
  function Imbalance(ts: seq<GroupTransaction>): (r: int) {
    if ts == [] then 0
    else
      var t := ts[|ts| - 1];
      Imbalance(ts[..|ts| - 1]) + Signed(t.kind, Total(t.payments) - Total(t.splits))
  }

  /** The mathematical nets of all users of a ledger add up to its imbalance, settlements notwithstanding. */
  lemma {:induction false} GroupNetsSum(ts: seq<GroupTransaction>, ss: seq<Settlement>, users: set<string>)
    requires GroupMentioned(ts, ss) <= users
    ensures SumOver(users, GroupNetEach(ts, ss)) == Imbalance(ts)
  {
    hide Net, GroupNet, Of, Total;
    var b := Book(Unspecified, [], [], ss);
    GroupNetsSumPlain(ts, users);
    NetsSum(b, users);
    NoEntries("");
    forall u ensures GroupNet(ts, ss, u) == GroupNet(ts, [], u) + Net(b, u) { GroupNetSettled(ts, ss, u); }
    SumOverAdd(users, GroupNetEach(ts, []), NetOfEach(b), GroupNetEach(ts, ss));
  }

  lemma {:induction false} GroupNetsSumPlain(ts: seq<GroupTransaction>, users: set<string>)
    requires Users(Flow(ts, true, None)) + Users(Flow(ts, false, None)) <= users
    ensures SumOver(users, GroupNetEach(ts, [])) == Imbalance(ts)
  {
    hide Net, Of, Total, GroupNet, Users, SumOver;
    if ts == [] {
      NoNets(users);
    } else {
      hide Flow;
      var front, t := ts[..|ts| - 1], ts[|ts| - 1];
      assert ts == front + [t];
      FlowAppend(front, t, true, None, "");
      FlowAppend(front, t, false, None, "");
      GroupNetsSumPlain(front, users);
      NetsSumNext(front, t, users);
    }
  }

  lemma NoNets(users: set<string>)
    ensures SumOver(users, GroupNetEach([], [])) == 0
  {
    forall u ensures GroupNetEach([], [])(u) == 0 { NoEntries(u); }
    SumOverAdd(users, GroupNetEach([], []), GroupNetEach([], []), GroupNetEach([], []));
  }

  lemma NetsSumNext(front: seq<GroupTransaction>, t: GroupTransaction, users: set<string>)
    requires Users(t.payments) + Users(t.splits) <= users
    ensures SumOver(users, GroupNetEach(front + [t], []))
            == SumOver(users, GroupNetEach(front, [])) + Signed(t.kind, Total(t.payments) - Total(t.splits))
  {
    hide Net, Of, Total, GroupNet, SumOver;
    NetsSum(BookOf(t), users);
    forall u ensures GroupNet(front + [t], [], u) == GroupNet(front, [], u) + Net(BookOf(t), u) {
      GroupNetAppend(front, t, u);
    }
    SumOverAdd(users, GroupNetEach(front, []), NetOfEach(BookOf(t)), GroupNetEach(front + [t], []));
  }

  lemma {:induction false} ImbalanceWraps(ts: seq<GroupTransaction>)
    requires AllBalanced(ts)
    ensures Wrap(Imbalance(ts)) == 0
  {
    hide Wrap, Total;
    assert Wrap(0) == 0;
    if ts != [] {
      var front, t := ts[..|ts| - 1], ts[|ts| - 1];
      assert forall i :: 0 <= i < |front| ==> front[i] == ts[i];
      assert Balanced(BookOf(t));
      ImbalanceWraps(front);
      WrapDifference(Total(t.payments), Total(t.splits));
      WrapLeft(Imbalance(front), Signed(t.kind, Total(t.payments) - Total(t.splits)));
    }
  }

  /** What the checks on writing leave of a transaction: exact shares, and payments that may be a multiple of 2^64 too high. */
  ghost predicate SoundRow(t: GroupTransaction) {
    && t.amountMinor > 0 && Total(t.splits) == t.amountMinor
    && Total(t.payments) >= t.amountMinor && (Total(t.payments) - t.amountMinor) % TWO_64 == 0
  }

  ghost predicate AllSound(ts: seq<GroupTransaction>) {
    forall i :: 0 <= i < |ts| ==> SoundRow(ts[i])
  }

  lemma SoundIsBalanced(t: GroupTransaction)
    requires SoundRow(t)
    ensures Balanced(BookOf(t))
  {
    hide Total, Balanced;
    BalancedIsCongruent(BookOf(t));
  }

  /** How many times 2^64 the payments of the income, or of the other, transactions are too high. */
  function Overflows(ts: seq<GroupTransaction>, income: bool): (r: int) {
    if ts == [] then 0
    else
      var t := ts[|ts| - 1];
      Overflows(ts[..|ts| - 1], income)
      + if (t.kind == Income) == income then (Total(t.payments) - t.amountMinor) / TWO_64 else 0
  }

  lemma OverflowIsExact(t: GroupTransaction)
    requires SoundRow(t)
    ensures Total(t.payments) - Total(t.splits) == TWO_64 * ((Total(t.payments) - t.amountMinor) / TWO_64)
    ensures (Total(t.payments) - t.amountMinor) / TWO_64 >= 0
    ensures Total(t.payments) <= MAX <==> (Total(t.payments) - t.amountMinor) / TWO_64 == 0
  {
    hide Total;
  }

  /** The imbalance of a sound ledger counts the overflows of its payments: those of expenses against those of income. */
  lemma {:induction false} ImbalanceCountsOverflows(ts: seq<GroupTransaction>)
    requires AllSound(ts)
    ensures Imbalance(ts) == TWO_64 * (Overflows(ts, false) - Overflows(ts, true))
    ensures Overflows(ts, false) >= 0 && Overflows(ts, true) >= 0
    ensures (forall i :: 0 <= i < |ts| ==> Total(ts[i].payments) <= MAX) <==> Overflows(ts, false) == Overflows(ts, true) == 0
  {
    hide Total;
    if ts != [] {
      var front, t := ts[..|ts| - 1], ts[|ts| - 1];
      assert forall i :: 0 <= i < |front| ==> front[i] == ts[i];
      ImbalanceCountsOverflows(front);
      assert SoundRow(t);
      OverflowIsExact(t);
      hide SoundRow;
      assert (forall i :: 0 <= i < |ts| ==> Total(ts[i].payments) <= MAX)
             <==> (forall i :: 0 <= i < |front| ==> Total(front[i].payments) <= MAX) && Total(t.payments) <= MAX;
    }
  }

  /** Without overflow in any transaction, balanced transactions make the mathematical nets of a group sum to zero. */
  lemma {:induction false} ImbalanceIsZero(ts: seq<GroupTransaction>)
    requires AllBalanced(ts)
    requires forall i :: 0 <= i < |ts| ==> Fits(Total(ts[i].payments)) && Fits(Total(ts[i].splits))
    ensures Imbalance(ts) == 0
  {
    if ts != [] {
      var front, t := ts[..|ts| - 1], ts[|ts| - 1];
      assert forall i :: 0 <= i < |front| ==> front[i] == ts[i];
      assert Balanced(BookOf(t));
      ImbalanceIsZero(front);
      UnbalancedExactly(BookOf(t));
    }
  }

  lemma RowsOfGroup(m: map<string, MemberBalance>, ts: seq<GroupTransaction>, ss: seq<Settlement>)
    requires HoldsGroup(m, ts, ss)
    ensures forall u :: u in m ==> m[u] == GroupRow(ts, ss, u) && m[u].userId == u
    ensures AllBalanced(ts) ==> Wrap(SumOver(m.Keys, NetIn(m))) == 0
  {
    hide Wrap, GroupNet;
    forall u | u in m ensures m[u] == GroupRow(ts, ss, u) && m[u].userId == u { assert Lookup(m, u) == GroupRow(ts, ss, u); }
    WrapSumOver(m.Keys, NetIn(m), GroupNetEach(ts, ss));
    GroupNetsSum(ts, ss, m.Keys);
    if AllBalanced(ts) { ImbalanceWraps(ts); }
  }

  /** Merge the sheets of the transactions one after the other; stop at the first that does not balance. */
  method MergeTransactions(ts: seq<GroupTransaction>) returns (r: Option<map<string, MemberBalance>>)
    ensures r.Some? <==> AllBalanced(ts)
    ensures r.Some? ==> HoldsGroup(r.value, ts, [])
  {
    hide Balanced, IsSheet, HoldsGroup, RowIn, RowUsers, Lookup;
    var allBalances: map<string, MemberBalance> := map[];
    NothingMerged();
    assert ts[..0] == [];
    for i := 0 to |ts|
      invariant AllBalanced(ts[..i])
      invariant HoldsGroup(allBalances, ts[..i], [])
    {
      var t := ts[i];
      assert ts[..i + 1] == ts[..i] + [t];
      var balances := CalculateBalances(t.kind, t.payments, t.splits, []);
      if balances.Err? {
        assert !Balanced(BookOf(ts[i]));
        return None;
      }
      Suggestions.SheetIsDistinct(BookOf(t), balances.value);
      GroupRowsKeyed(allBalances, ts[..i], []);
      var merged := MergeBalances(allBalances, balances.value);
      MergedTransaction(allBalances, merged, ts[..i], t, balances.value);
      allBalances := merged;
    }
    assert ts[..|ts|] == ts;
    return Some(allBalances);
  }

  /** The body of GetGroupBalances, from the rows of the ledger to the sheet. */
  method GroupBalances(ts: seq<GroupTransaction>, ss: seq<Settlement>) returns (r: Result<seq<MemberBalance>, LedgerError>)
    ensures if AllBalanced(ts) then r.Ok? && IsGroupSheet(ts, ss, r.value) else r == Err(Unbalanced)
  {
    hide Wrap, GroupRow, Row, AddRow, Flow, Balanced;
    var allBalances := MergeTransactions(ts);
    if allBalances == None {
      return Err(Unbalanced);
    }
    var settlementBalances := CalculateBalances(Unspecified, [], [], ss);
    NoTransactionIsBalanced(ss);
    Suggestions.SheetIsDistinct(Book(Unspecified, [], [], ss), settlementBalances.value);
    GroupRowsKeyed(allBalances.value, ts, []);
    var all := MergeBalances(allBalances.value, settlementBalances.value);
    MergedSettlements(allBalances.value, all, ts, ss, settlementBalances.value);
    RowsOfGroup(all, ts, ss);
    var rows, total := CollectRows(all);
    if total != 0 {
      return Err(Unbalanced);
    }
    return Ok(rows);
  }

  lemma NothingMerged()
    ensures HoldsGroup(map[], [], [])
  {}

  lemma NoTransactionIsBalanced(ss: seq<Settlement>)
    ensures Balanced(Book(Unspecified, [], [], ss))
  {}

  lemma GroupRowsKeyed(m: map<string, MemberBalance>, ts: seq<GroupTransaction>, ss: seq<Settlement>)
    requires HoldsGroup(m, ts, ss)
    ensures forall u :: u in m ==> m[u].userId == u
  {
    forall u | u in m ensures m[u].userId == u { assert Lookup(m, u) == GroupRow(ts, ss, u); }
  }
}
