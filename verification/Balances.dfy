/** Who owes what after one transaction or a list of settlements: ValidatePayments and CalculateBalances. */
module Balances {
  import opened Entries
  import opened Int64
  import opened Sums
  import opened Wrappers
  import Sorting
  import Strings

  datatype TransactionType = Income | Expense | Unspecified

  type Payment = Entry

  type Split = Entry

  datatype Settlement = Settlement(fromUser: string, toUser: string, amountMinor: int64)

  datatype MemberBalance = MemberBalance(userId: string, paid: int64, share: int64, sent: int64, received: int64, net: int64)

  datatype BalanceError = UnbalancedNet

  /** The arguments of CalculateBalances. */
  datatype Book = Book(kind: TransactionType, payments: seq<Payment>, splits: seq<Split>, settlements: seq<Settlement>)

  // ---------- the specification: sums over the book, per user ----------

  /** The two legs of every settlement. */
  function Outgoing(settlements: seq<Settlement>): (r: seq<Entry>) {
    if settlements == [] then []
    else
      var s := settlements[|settlements| - 1];
      Outgoing(settlements[..|settlements| - 1]) + [Entry(s.fromUser, s.amountMinor)]
  }

  function Incoming(settlements: seq<Settlement>): (r: seq<Entry>) {
    if settlements == [] then []
    else
      var s := settlements[|settlements| - 1];
      Incoming(settlements[..|settlements| - 1]) + [Entry(s.toUser, s.amountMinor)]
  }

  /** Income turns the signs of payments and shares around. */
  function Signed(kind: TransactionType, x: int): (r: int) {
    if kind == Income then -x else x
  }

  /** The mathematical net position of a user. */
  function Net(b: Book, u: string): (r: int) {
    Signed(b.kind, Of(b.payments, u) - Of(b.splits, u)) + Of(Outgoing(b.settlements), u) - Of(Incoming(b.settlements), u)
  }

  function Mentioned(b: Book): (r: set<string>) {
    Users(b.payments) + Users(b.splits) + Users(Outgoing(b.settlements)) + Users(Incoming(b.settlements))
  }

  /** The row of user u: every field is the mathematical total, as int64 stores it. */
  function Row(b: Book, u: string): (r: MemberBalance) {
    MemberBalance(u, Wrap(Of(b.payments, u)), Wrap(Of(b.splits, u)), Wrap(Of(Outgoing(b.settlements), u)),
                  Wrap(Of(Incoming(b.settlements), u)), Wrap(Net(b, u)))
  }

  ghost predicate StrictlyIncreasing(rows: seq<MemberBalance>) {
    forall i, j :: 0 <= i < j < |rows| ==> Strings.Less(rows[i].userId, rows[j].userId)
  }

  /** rows lists every mentioned user once, in increasing order of id, each with the row of the specification. */
  ghost predicate IsSheet(b: Book, rows: seq<MemberBalance>) {
    && StrictlyIncreasing(rows)
    && (forall i :: 0 <= i < |rows| ==> rows[i].userId in Mentioned(b) && rows[i] == Row(b, rows[i].userId))
    && (forall u :: u in Mentioned(b) ==> Row(b, u) in rows)
  }

  /** Payments and shares have the same total, as far as int64 arithmetic can tell. */
  predicate Balanced(b: Book) {
    Wrap(Total(b.payments)) == Wrap(Total(b.splits))
  }

  // ---------- ValidatePayments ----------

  /** The first n payments have users and positive amounts, and no user twice. */
  predicate CleanPayments(payments: seq<Payment>, n: nat)
    requires n <= |payments|
  {
    && (forall i :: 0 <= i < n ==> payments[i].user != "" && payments[i].amount > 0)
    && (forall i, j :: 0 <= i < j < n ==> payments[i].user != payments[j].user)
  }

  predicate ValidPayments(amount: int64, payments: seq<Payment>) {
    amount > 0 && |payments| > 0 && CleanPayments(payments, |payments|) && Wrap(Total(payments)) == amount
  }

  /** int64 arithmetic compares sums up to multiples of 2^64. */
  lemma ValidIsCongruent(amount: int64, payments: seq<Payment>)
    ensures ValidPayments(amount, payments)
            <==> && amount > 0 && |payments| > 0 && CleanPayments(payments, |payments|)
                 && (Total(payments) - amount) % TWO_64 == 0
  {
    hide Total, CleanPayments, Wrap;
    assert Wrap(amount) == amount;
    WrapIsModular(Total(payments), amount);
  }

  method ValidatePayments(amountMinor: int64, payments: seq<Payment>) returns (ok: bool)
    ensures ok <==> ValidPayments(amountMinor, payments)
    ensures ok <==> && amountMinor > 0 && |payments| > 0 && CleanPayments(payments, |payments|)
                    && (Total(payments) - amountMinor) % TWO_64 == 0
  {
    ValidIsCongruent(amountMinor, payments);
    hide Wrap, Total;
    if amountMinor <= 0 || |payments| == 0 {
      return false;
    }
    var total: int64 := 0;
    var seen: set<string> := {};
    NothingYet(payments);
    for i := 0 to |payments|
      invariant CleanPayments(payments, i)
      invariant forall u :: u in seen <==> exists j :: 0 <= j < i && payments[j].user == u
      invariant total == Wrap(Total(payments[..i]))
    {
      var payment := payments[i];
      if payment.user == "" || payment.amount <= 0 {
        return false;
      }
      if payment.user in seen {
        return false;
      }
      seen := seen + {payment.user};
      Prefix(payments, i);
      WrapLeft(Total(payments[..i]), payment.amount);
      total := Wrap(total + payment.amount);
    }
    assert payments[..|payments|] == payments;
    return total == amountMinor;
  }

  lemma NothingYet(payments: seq<Payment>)
    ensures Wrap(Total(payments[..0])) == 0
  {}

  /** Accepted payments add up to the amount exactly when their sum fits in int64. */
  lemma PaymentsExactIff(amount: int64, payments: seq<Payment>)
    requires ValidPayments(amount, payments)
    ensures Total(payments) == amount <==> Total(payments) <= MAX
  {
    NonNegative(payments, "");
  }

  /** Three payments that the check accepts for an amount of one unit. */
  lemma PaymentsCanWrapAround()
    ensures var payments := [Entry("a", MAX), Entry("b", MAX), Entry("c", 3)];
            ValidPayments(1, payments) && Total(payments) != 1
  {
    var ps := [Entry("a", MAX), Entry("b", MAX), Entry("c", 3)];
    assert ps[..2] == [Entry("a", MAX), Entry("b", MAX)];
    assert ps[..2][..1] == [Entry("a", MAX)];
    assert Total(ps[..2][..1]) == MAX;
    assert Total(ps[..2]) == 2 * MAX;
    assert Total(ps) == 2 * MAX + 3 == TWO_64 + 1;
    WrapShift(1);
  }

  // ---------- CalculateBalances ----------

  function Lookup(m: map<string, MemberBalance>, u: string): (r: MemberBalance) {
    if u in m then m[u] else MemberBalance(u, 0, 0, 0, 0, 0)
  }

  /** The map holds exactly the rows of the book so far. */
  ghost predicate Holds(m: map<string, MemberBalance>, b: Book) {
    m.Keys == Mentioned(b) && forall u :: Lookup(m, u) == Row(b, u)
  }

  lemma HoldsEmpty(kind: TransactionType)
    ensures Holds(map[], Book(kind, [], [], []))
  {}

  /** ensure: the entry of a user, created empty when missing. */
  function Ensure(m: map<string, MemberBalance>, u: string): (r: map<string, MemberBalance>) {
    if u in m then m else m[u := MemberBalance(u, 0, 0, 0, 0, 0)]
  }

  lemma NetAfterPayment(b: Book, p: Payment, u: string)
    ensures Net(b.(payments := b.payments + [p]), u) == Net(b, u) + if u == p.user then Signed(b.kind, p.amount) else 0
  {
    Append(b.payments, p, u);
  }

  lemma PaidAfterPayment(b: Book, p: Payment, u: string)
    ensures Row(b.(payments := b.payments + [p]), u).paid
            == if u != p.user then Row(b, u).paid else Wrap(Row(b, u).paid + p.amount)
  {
    hide Wrap, Net, Of;
    Append(b.payments, p, u);
    WrapLeft(Of(b.payments, u), p.amount);
  }

  lemma RowNetAfterPayment(b: Book, p: Payment, u: string)
    ensures Row(b.(payments := b.payments + [p]), u).net
            == if u != p.user then Row(b, u).net else Wrap(Row(b, u).net + Signed(b.kind, p.amount))
  {
    hide Wrap, Net;
    NetAfterPayment(b, p, u);
    WrapLeft(Net(b, u), Signed(b.kind, p.amount));
  }

  lemma RowAfterPayment(b: Book, p: Payment, u: string)
    ensures var r := Row(b, u);
            Row(b.(payments := b.payments + [p]), u)
            == if u != p.user then r
               else r.(paid := Wrap(r.paid + p.amount), net := Wrap(r.net + Signed(b.kind, p.amount)))
  {
    PaidAfterPayment(b, p, u);
    RowNetAfterPayment(b, p, u);
  }

  /** Holding after one entry changes: the row of that user is replaced, the others stay. */
  lemma HoldsAfterChange(m: map<string, MemberBalance>, b: Book, b': Book, u: string, r: MemberBalance)
    requires Holds(m, b) && Mentioned(b') == Mentioned(b) + {u} && r == Row(b', u)
    requires forall v :: v != u ==> Row(b', v) == Row(b, v)
    ensures Holds(m[u := r], b')
  {
    hide Row;
    forall v ensures Lookup(m[u := r], v) == Row(b', v) { assert Lookup(m, v) == Row(b, v); }
  }

  lemma HoldsAfterPayment(m: map<string, MemberBalance>, b: Book, p: Payment)
    requires Holds(m, b)
    ensures var r := Lookup(m, p.user);
            Holds(m[p.user := r.(paid := Wrap(r.paid + p.amount), net := Wrap(r.net + Signed(b.kind, p.amount)))],
                  b.(payments := b.payments + [p]))
  {
    hide Wrap, Row, Of, Total, Signed;
    var b' := b.(payments := b.payments + [p]);
    Append(b.payments, p, p.user);
    assert Lookup(m, p.user) == Row(b, p.user);
    forall v ensures v != p.user ==> Row(b', v) == Row(b, v) { RowAfterPayment(b, p, v); }
    RowAfterPayment(b, p, p.user);
    HoldsAfterChange(m, b, b', p.user, Row(b', p.user));
  }

  lemma NetAfterSplit(b: Book, s: Split, u: string)
    ensures Net(b.(splits := b.splits + [s]), u) == Net(b, u) - if u == s.user then Signed(b.kind, s.amount) else 0
  {
    Append(b.splits, s, u);
  }

  lemma ShareAfterSplit(b: Book, s: Split, u: string)
    ensures Row(b.(splits := b.splits + [s]), u).share
            == if u != s.user then Row(b, u).share else Wrap(Row(b, u).share + s.amount)
  {
    hide Wrap, Net, Of;
    Append(b.splits, s, u);
    WrapLeft(Of(b.splits, u), s.amount);
  }

  lemma RowNetAfterSplit(b: Book, s: Split, u: string)
    ensures Row(b.(splits := b.splits + [s]), u).net
            == if u != s.user then Row(b, u).net else Wrap(Row(b, u).net - Signed(b.kind, s.amount))
  {
    hide Wrap, Net;
    NetAfterSplit(b, s, u);
    WrapLeft(Net(b, u), -Signed(b.kind, s.amount));
  }

  lemma RowAfterSplit(b: Book, s: Split, u: string)
    ensures var r := Row(b, u);
            Row(b.(splits := b.splits + [s]), u)
            == if u != s.user then r
               else r.(share := Wrap(r.share + s.amount), net := Wrap(r.net - Signed(b.kind, s.amount)))
  {
    ShareAfterSplit(b, s, u);
    RowNetAfterSplit(b, s, u);
  }

  lemma HoldsAfterSplit(m: map<string, MemberBalance>, b: Book, s: Split)
    requires Holds(m, b)
    ensures var r := Lookup(m, s.user);
            Holds(m[s.user := r.(share := Wrap(r.share + s.amount), net := Wrap(r.net - Signed(b.kind, s.amount)))],
                  b.(splits := b.splits + [s]))
  {
    hide Wrap, Row, Of, Total, Signed;
    var b' := b.(splits := b.splits + [s]);
    Append(b.splits, s, s.user);
    assert Lookup(m, s.user) == Row(b, s.user);
    forall v ensures v != s.user ==> Row(b', v) == Row(b, v) { RowAfterSplit(b, s, v); }
    RowAfterSplit(b, s, s.user);
    HoldsAfterChange(m, b, b', s.user, Row(b', s.user));
  }

  /** The four updates of one settlement, in the order of the code; sender and receiver may be the same entry. */
  function AfterSettlement(m: map<string, MemberBalance>, s: Settlement): (r: map<string, MemberBalance>) {
    var m0 := Ensure(Ensure(m, s.fromUser), s.toUser);
    var m1 := m0[s.fromUser := m0[s.fromUser].(sent := Wrap(m0[s.fromUser].sent + s.amountMinor))];
    var m2 := m1[s.toUser := m1[s.toUser].(received := Wrap(m1[s.toUser].received + s.amountMinor))];
    var m3 := m2[s.fromUser := m2[s.fromUser].(net := Wrap(m2[s.fromUser].net + s.amountMinor))];
    m3[s.toUser := m3[s.toUser].(net := Wrap(m3[s.toUser].net - s.amountMinor))]
  }

  function Leg(user: string, s: string, amount: int): (r: int) {
    if user == s then amount else 0
  }

  lemma SentAfterSettlement(b: Book, s: Settlement, u: string)
    ensures Row(b.(settlements := b.settlements + [s]), u).sent == Wrap(Row(b, u).sent + Leg(u, s.fromUser, s.amountMinor))
  {
    hide Wrap, Of, Net, Outgoing, Incoming;
    SettlementLegs(b.settlements, s, u);
    WrapLeft(Of(Outgoing(b.settlements), u), Leg(u, s.fromUser, s.amountMinor));
  }

  lemma ReceivedAfterSettlement(b: Book, s: Settlement, u: string)
    ensures Row(b.(settlements := b.settlements + [s]), u).received
            == Wrap(Row(b, u).received + Leg(u, s.toUser, s.amountMinor))
  {
    hide Wrap, Of, Net, Outgoing, Incoming;
    SettlementLegs(b.settlements, s, u);
    WrapLeft(Of(Incoming(b.settlements), u), Leg(u, s.toUser, s.amountMinor));
  }

  lemma NetAfterSettlement(b: Book, s: Settlement, u: string)
    ensures Net(b.(settlements := b.settlements + [s]), u)
            == Net(b, u) + Leg(u, s.fromUser, s.amountMinor) - Leg(u, s.toUser, s.amountMinor)
  {
    SettlementLegs(b.settlements, s, u);
  }

  lemma RowNetAfterSettlement(b: Book, s: Settlement, u: string)
    ensures Row(b.(settlements := b.settlements + [s]), u).net
            == Wrap(Wrap(Row(b, u).net + Leg(u, s.fromUser, s.amountMinor)) - Leg(u, s.toUser, s.amountMinor))
  {
    hide Wrap, Net;
    var out, back := Leg(u, s.fromUser, s.amountMinor), Leg(u, s.toUser, s.amountMinor);
    NetAfterSettlement(b, s, u);
    WrapLeft(Net(b, u), out);
    WrapLeft(Net(b, u) + out, -back);
  }

  /** The row of user u after a settlement. */
  function Settle(r: MemberBalance, u: string, s: Settlement): (result: MemberBalance) {
    var out, back := Leg(u, s.fromUser, s.amountMinor), Leg(u, s.toUser, s.amountMinor);
    r.(sent := Wrap(r.sent + out), received := Wrap(r.received + back), net := Wrap(Wrap(r.net + out) - back))
  }

  lemma RowAfterSettlement(b: Book, s: Settlement, u: string)
    ensures Row(b.(settlements := b.settlements + [s]), u) == Settle(Row(b, u), u, s)
  {
    hide Wrap;
    SentAfterSettlement(b, s, u);
    ReceivedAfterSettlement(b, s, u);
    RowNetAfterSettlement(b, s, u);
  }

  lemma SettlementLegs(settlements: seq<Settlement>, s: Settlement, u: string)
    ensures Of(Outgoing(settlements + [s]), u) == Of(Outgoing(settlements), u) + Leg(u, s.fromUser, s.amountMinor)
    ensures Of(Incoming(settlements + [s]), u) == Of(Incoming(settlements), u) + Leg(u, s.toUser, s.amountMinor)
    ensures Users(Outgoing(settlements + [s])) == Users(Outgoing(settlements)) + {s.fromUser}
    ensures Users(Incoming(settlements + [s])) == Users(Incoming(settlements)) + {s.toUser}
  {
    assert (settlements + [s])[..|settlements|] == settlements;
    Append(Outgoing(settlements), Entry(s.fromUser, s.amountMinor), u);
    Append(Incoming(settlements), Entry(s.toUser, s.amountMinor), u);
  }

  lemma LookupAfterSettlement(m: map<string, MemberBalance>, s: Settlement, u: string)
    ensures Lookup(AfterSettlement(m, s), u) == Settle(Lookup(m, u), u, s)
    ensures AfterSettlement(m, s).Keys == m.Keys + {s.fromUser, s.toUser}
  {
    hide Wrap;
  }

  lemma HoldsAfterSettlement(m: map<string, MemberBalance>, b: Book, s: Settlement)
    requires Holds(m, b)
    ensures Holds(AfterSettlement(m, s), b.(settlements := b.settlements + [s]))
  {
    hide Row, Settle, AfterSettlement;
    var b' := b.(settlements := b.settlements + [s]);
    SettlementLegs(b.settlements, s, s.fromUser);
    LookupAfterSettlement(m, s, s.fromUser);
    assert Mentioned(b') == Mentioned(b) + {s.fromUser, s.toUser};
    forall u ensures Lookup(AfterSettlement(m, s), u) == Row(b', u) {
      assert Lookup(m, u) == Row(b, u);
      RowAfterSettlement(b, s, u);
      LookupAfterSettlement(m, s, u);
    }
  }

  ghost function NetOfEach(b: Book): (r: string -> int) {
    u => Net(b, u)
  }

  lemma {:induction false} LegsAgree(settlements: seq<Settlement>)
    ensures Total(Outgoing(settlements)) == Total(Incoming(settlements))
  {
    if settlements != [] {
      var front, s := settlements[..|settlements| - 1], settlements[|settlements| - 1];
      LegsAgree(front);
      Append(Outgoing(front), Entry(s.fromUser, s.amountMinor), "");
      Append(Incoming(front), Entry(s.toUser, s.amountMinor), "");
    }
  }

  /** Settlements cancel: over all users, the nets add up to the signed difference of payments and shares. */
  lemma NetsSum(b: Book, users: set<string>)
    requires Mentioned(b) <= users
    ensures SumOver(users, NetOfEach(b)) == Signed(b.kind, Total(b.payments) - Total(b.splits))
  {
    hide Of, Total, Outgoing, Incoming, SumOver;
    var o, i := Outgoing(b.settlements), Incoming(b.settlements);
    SumOfUsers(b.payments, users);
    SumOfUsers(b.splits, users);
    SumOfUsers(o, users);
    SumOfUsers(i, users);
    LegsAgree(b.settlements);
    SumOverCombined(users, OfEach(b.payments), OfEach(b.splits), OfEach(o), OfEach(i), NetOfEach(b), b.kind);
  }

  lemma {:induction false} SumOverCombined(users: set<string>, p: string -> int, o: string -> int, s: string -> int,
                                           r: string -> int, n: string -> int, kind: TransactionType)
    requires forall u :: u in users ==> n(u) == Signed(kind, p(u) - o(u)) + s(u) - r(u)
    ensures SumOver(users, n) == Signed(kind, SumOver(users, p) - SumOver(users, o)) + SumOver(users, s) - SumOver(users, r)
    decreases |users|
  {
    if users != {} {
      var u :| u in users;
      SumOverRemove(users, u, p);
      SumOverRemove(users, u, o);
      SumOverRemove(users, u, s);
      SumOverRemove(users, u, r);
      SumOverRemove(users, u, n);
      SumOverCombined(users - {u}, p, o, s, r, n, kind);
    }
  }

  predicate ById(a: MemberBalance, b: MemberBalance) {
    Strings.Less(a.userId, b.userId)
  }

  lemma ByIdIsOrder()
    ensures Sorting.StrictWeakOrder(ById)
  {
    forall x, y ensures ById(x, y) ==> !ById(y, x) { Strings.LessTotal(x.userId, y.userId); }
    forall x, y, z ensures !ById(x, y) && !ById(y, z) ==> !ById(x, z) {
      if !ById(x, y) && !ById(y, z) { Strings.NotLessTransitive(x.userId, y.userId, z.userId); }
    }
  }

  /** The rows of a map and the wrapped sum of their nets, read in any order. */
  method GatherRows(m: map<string, MemberBalance>) returns (rows: seq<MemberBalance>, total: int64)
    requires forall u :: u in m ==> m[u].userId == u
    ensures Sorting.Distinct(rows)
    ensures forall b :: b in rows ==> b.userId in m && b == m[b.userId]
    ensures forall u :: u in m ==> m[u] in rows
    ensures total == Wrap(SumOver(m.Keys, NetIn(m)))
  {
    hide Wrap;
    var rest := m.Keys;
    rows := [];
    total := 0;
    EmptySum(m);
    while rest != {}
      invariant rest <= m.Keys
      invariant forall b :: b in rows ==> b.userId in m.Keys - rest && b == m[b.userId]
      invariant forall u :: u in m.Keys - rest ==> m[u] in rows
      invariant Sorting.Distinct(rows)
      invariant total == Wrap(SumOver(m.Keys - rest, NetIn(m)))
    {
      var u :| u in rest;
      NextSum(m, rest, u, total);
      rest := rest - {u};
      total := Wrap(total + m[u].net);
      assert m[u] !in rows;
      rows := rows + [m[u]];
    }
    assert m.Keys - rest == m.Keys;
  }

  lemma EmptySum(m: map<string, MemberBalance>)
    ensures Wrap(SumOver(m.Keys - m.Keys, NetIn(m))) == 0
  {
    assert m.Keys - m.Keys == {};
  }

  lemma NextSum(m: map<string, MemberBalance>, rest: set<string>, u: string, total: int64)
    requires rest <= m.Keys && u in rest && total == Wrap(SumOver(m.Keys - rest, NetIn(m)))
    ensures Wrap(total + m[u].net) == Wrap(SumOver(m.Keys - (rest - {u}), NetIn(m)))
  {
    hide Wrap;
    var done := m.Keys - rest;
    assert m.Keys - (rest - {u}) == done + {u} && done + {u} - {u} == done;
    SumOverRemove(done + {u}, u, NetIn(m));
    WrapLeft(SumOver(done, NetIn(m)), m[u].net);
  }

  /** The rows of a map, sorted by id. */
  method CollectRows(m: map<string, MemberBalance>) returns (rows: seq<MemberBalance>, total: int64)
    requires forall u :: u in m ==> m[u].userId == u
    ensures StrictlyIncreasing(rows)
    ensures forall i :: 0 <= i < |rows| ==> rows[i].userId in m && rows[i] == m[rows[i].userId]
    ensures forall u :: u in m ==> m[u] in rows
    ensures total == Wrap(SumOver(m.Keys, NetIn(m)))
  {
    var gathered;
    gathered, total := GatherRows(m);
    ByIdIsOrder();
    rows := Sorting.Slice(gathered, ById);
    forall b ensures b in rows <==> b in gathered { Sorting.SameMembers(rows, gathered, b); }
    Sorting.DistinctPermutation(gathered, rows);
    SortedRowsIncrease(rows, m);
  }

  lemma SortedRowsIncrease(rows: seq<MemberBalance>, m: map<string, MemberBalance>)
    requires Sorting.Sorted(rows, ById) && Sorting.Distinct(rows)
    requires forall b :: b in rows ==> b.userId in m && b == m[b.userId]
    ensures StrictlyIncreasing(rows)
  {
    forall i, j | 0 <= i < j < |rows| ensures Strings.Less(rows[i].userId, rows[j].userId) {
      assert rows[i] in rows && rows[j] in rows && rows[i] != rows[j];
      Strings.LessTotal(rows[i].userId, rows[j].userId);
      assert !ById(rows[j], rows[i]);
    }
  }

  function NetIn(m: map<string, MemberBalance>): (r: string -> int) {
    u => if u in m then m[u].net else 0
  }

  lemma SumOverNone(f: string -> int, g: string -> int)
    ensures SumOver({}, f) == SumOver({}, g)
  {}

  lemma {:induction false} WrapSumOver(users: set<string>, f: string -> int, g: string -> int)
    requires forall u :: u in users ==> f(u) == Wrap(g(u))
    ensures Wrap(SumOver(users, f)) == Wrap(SumOver(users, g))
    decreases |users|
  {
    hide Wrap, SumOver;
    if users == {} {
      SumOverNone(f, g);
    } else {
      var u :| u in users;
      SumOverRemove(users, u, f);
      SumOverRemove(users, u, g);
      WrapSumOver(users - {u}, f, g);
      WrapBoth(SumOver(users - {u}, f), f(u));
      WrapBoth(SumOver(users - {u}, g), g(u));
    }
  }

  method BookPayment(kind: TransactionType, given: map<string, MemberBalance>, payment: Payment)
      returns (balances: map<string, MemberBalance>)
    ensures var r := Lookup(given, payment.user);
            balances == given[payment.user := r.(paid := Wrap(r.paid + payment.amount),
                                                 net := Wrap(r.net + Signed(kind, payment.amount)))]
  {
    hide Wrap;
    balances := Ensure(given, payment.user);
    var balance := balances[payment.user];
    balance := balance.(paid := Wrap(balance.paid + payment.amount));
    if kind == Income {
      balance := balance.(net := Wrap(balance.net - payment.amount));
    } else {
      balance := balance.(net := Wrap(balance.net + payment.amount));
    }
    balances := balances[payment.user := balance];
  }

  method AddPayments(kind: TransactionType, payments: seq<Payment>) returns (balances: map<string, MemberBalance>)
    ensures Holds(balances, Book(kind, payments, [], []))
  {
    hide Wrap, Row, Holds, Signed;
    HoldsEmpty(kind);
    balances := map[];
    for i := 0 to |payments|
      invariant Holds(balances, Book(kind, payments[..i], [], []))
    {
      Prefix(payments, i);
      HoldsAfterPayment(balances, Book(kind, payments[..i], [], []), payments[i]);
      balances := BookPayment(kind, balances, payments[i]);
    }
    assert payments[..|payments|] == payments;
  }

  method BookSplit(kind: TransactionType, given: map<string, MemberBalance>, split: Split)
      returns (balances: map<string, MemberBalance>)
    ensures var r := Lookup(given, split.user);
            balances == given[split.user := r.(share := Wrap(r.share + split.amount),
                                               net := Wrap(r.net - Signed(kind, split.amount)))]
  {
    hide Wrap;
    balances := Ensure(given, split.user);
    var balance := balances[split.user];
    balance := balance.(share := Wrap(balance.share + split.amount));
    if kind == Income {
      balance := balance.(net := Wrap(balance.net + split.amount));
    } else {
      balance := balance.(net := Wrap(balance.net - split.amount));
    }
    balances := balances[split.user := balance];
  }

  method AddSplits(kind: TransactionType, ghost payments: seq<Payment>, splits: seq<Split>, given: map<string, MemberBalance>)
      returns (balances: map<string, MemberBalance>)
    requires Holds(given, Book(kind, payments, [], []))
    ensures Holds(balances, Book(kind, payments, splits, []))
  {
    hide Wrap, Row, Holds, Signed;
    balances := given;
    for i := 0 to |splits|
      invariant Holds(balances, Book(kind, payments, splits[..i], []))
    {
      Prefix(splits, i);
      HoldsAfterSplit(balances, Book(kind, payments, splits[..i], []), splits[i]);
      balances := BookSplit(kind, balances, splits[i]);
    }
    assert splits[..|splits|] == splits;
  }

  method BookSettlement(given: map<string, MemberBalance>, s: Settlement) returns (balances: map<string, MemberBalance>)
    ensures balances == AfterSettlement(given, s)
  {
    hide Wrap;
    balances := Ensure(Ensure(given, s.fromUser), s.toUser);
    balances := balances[s.fromUser := balances[s.fromUser].(sent := Wrap(balances[s.fromUser].sent + s.amountMinor))];
    balances := balances[s.toUser := balances[s.toUser].(received := Wrap(balances[s.toUser].received + s.amountMinor))];
    balances := balances[s.fromUser := balances[s.fromUser].(net := Wrap(balances[s.fromUser].net + s.amountMinor))];
    balances := balances[s.toUser := balances[s.toUser].(net := Wrap(balances[s.toUser].net - s.amountMinor))];
  }

  method AddSettlements(ghost b: Book, settlements: seq<Settlement>, given: map<string, MemberBalance>)
      returns (balances: map<string, MemberBalance>)
    requires b.settlements == [] && Holds(given, b)
    ensures Holds(balances, b.(settlements := settlements))
  {
    hide Wrap, Row, AfterSettlement;
    balances := given;
    for i := 0 to |settlements|
      invariant Holds(balances, b.(settlements := settlements[..i]))
    {
      var s := settlements[i];
      HoldsAfterSettlement(balances, b.(settlements := settlements[..i]), s);
      assert settlements[..i + 1] == settlements[..i] + [s];
      balances := BookSettlement(balances, s);
    }
    assert settlements[..|settlements|] == settlements;
  }

  method CalculateBalances(kind: TransactionType, payments: seq<Payment>, splits: seq<Split>, settlements: seq<Settlement>)
      returns (r: Result<seq<MemberBalance>, BalanceError>)
    ensures var b := Book(kind, payments, splits, settlements);
            if Balanced(b) then r.Ok? && IsSheet(b, r.value) else r == Err(UnbalancedNet)
  {
    hide Wrap, Row;
    ghost var b := Book(kind, payments, splits, settlements);
    var balances := AddPayments(kind, payments);
    balances := AddSplits(kind, payments, splits, balances);
    balances := AddSettlements(Book(kind, payments, splits, []), settlements, balances);
    RowsOfHolding(balances, b);
    var result, total := CollectRows(balances);
    if total != 0 {
      return Err(UnbalancedNet);
    }
    return Ok(result);
  }

  lemma RowsOfHolding(m: map<string, MemberBalance>, b: Book)
    requires Holds(m, b)
    ensures forall u :: u in m ==> m[u] == Row(b, u) && m[u].userId == u
    ensures Wrap(SumOver(m.Keys, NetIn(m))) == 0 <==> Balanced(b)
  {
    hide Wrap;
    forall u | u in m ensures m[u] == Row(b, u) && m[u].userId == u { assert Lookup(m, u) == Row(b, u); }
    WrapSumOver(m.Keys, NetIn(m), NetOfEach(b));
    WrappedNets(b, m.Keys);
  }

  lemma WrappedNets(b: Book, users: set<string>)
    requires Mentioned(b) <= users
    ensures Wrap(SumOver(users, NetOfEach(b))) == 0 <==> Balanced(b)
  {
    hide Wrap;
    NetsSum(b, users);
    WrapDifference(Total(b.payments), Total(b.splits));
  }

  /** The balance check accepts exactly payments and shares whose totals differ by a multiple of 2^64. */
  lemma BalancedIsCongruent(b: Book)
    ensures Balanced(b) <==> (Total(b.payments) - Total(b.splits)) % TWO_64 == 0
  {
    hide Total, Wrap;
    WrapIsModular(Total(b.payments), Total(b.splits));
  }

  /** Without overflow the calculation fails exactly when payments and shares have different totals. */
  lemma UnbalancedExactly(b: Book)
    requires Fits(Total(b.payments)) && Fits(Total(b.splits))
    ensures Balanced(b) <==> Total(b.payments) == Total(b.splits)
  {}

  /** The sheet is determined by the book: the order in which the map was read leaves no trace. */
  lemma SheetDetermined(b: Book, r1: seq<MemberBalance>, r2: seq<MemberBalance>)
    requires IsSheet(b, r1) && IsSheet(b, r2)
    ensures r1 == r2
  {
    hide Row, IsSheet;
    if |r1| < |r2| { SheetNotLonger(b, r1, r2); }
    if |r2| < |r1| { SheetNotLonger(b, r2, r1); }
    SheetPrefix(b, r1, r2, |r1|);
  }

  lemma SheetNotLonger(b: Book, short: seq<MemberBalance>, long: seq<MemberBalance>)
    requires IsSheet(b, short) && IsSheet(b, long)
    ensures |long| <= |short|
  {
    hide Row;
    if |short| < |long| {
      SheetPrefix(b, short, long, |short|);
      var extra := long[|short|];
      assert Row(b, extra.userId) in short;
      var k :| 0 <= k < |short| && short[k] == extra;
      SamePrefix(short, long, |short|, k);
      Strings.LessTotal(extra.userId, extra.userId);
    }
  }

  lemma RowsAre(b: Book, rows: seq<MemberBalance>, i: nat)
    requires IsSheet(b, rows) && i < |rows|
    ensures rows[i] == Row(b, rows[i].userId)
  {
    hide Row;
  }

  lemma {:induction false} SheetPrefix(b: Book, r1: seq<MemberBalance>, r2: seq<MemberBalance>, n: nat)
    requires IsSheet(b, r1) && IsSheet(b, r2) && n <= |r1| && n <= |r2|
    ensures r1[..n] == r2[..n]
  {
    hide Row, IsSheet;
    if n > 0 {
      SheetPrefix(b, r1, r2, n - 1);
      RowsAre(b, r1, n - 1);
      RowsAre(b, r2, n - 1);
      NotBefore(b, r1, r2, n - 1);
      NotBefore(b, r2, r1, n - 1);
      Strings.LessTotal(r1[n - 1].userId, r2[n - 1].userId);
    }
  }

  lemma SamePrefix(r1: seq<MemberBalance>, r2: seq<MemberBalance>, i: nat, k: nat)
    requires k < i <= |r1| && i <= |r2| && r1[..i] == r2[..i]
    ensures r1[k] == r2[k]
  {
    assert r1[k] == r1[..i][k] && r2[k] == r2[..i][k];
  }

  lemma NotBefore(b: Book, r1: seq<MemberBalance>, r2: seq<MemberBalance>, i: nat)
    requires IsSheet(b, r1) && IsSheet(b, r2) && i < |r1| && i < |r2| && r1[..i] == r2[..i]
    ensures !Strings.Less(r1[i].userId, r2[i].userId)
  {
    hide Row;
    var u := r1[i].userId;
    assert Row(b, u) in r2;
    var k :| 0 <= k < |r2| && r2[k] == r1[i];
    Strings.LessTotal(u, u);
    if k < i {
      SamePrefix(r1, r2, i, k);
    } else if i < k {
      Strings.LessTotal(u, r2[i].userId);
    }
  }

  lemma {:induction false} LegsConcat(ss: seq<Settlement>, ts: seq<Settlement>)
    ensures Outgoing(ss + ts) == Outgoing(ss) + Outgoing(ts)
    ensures Incoming(ss + ts) == Incoming(ss) + Incoming(ts)
  {
    if ts == [] {
      assert ss + ts == ss;
    } else {
      LegsConcat(ss, ts[..|ts| - 1]);
      assert (ss + ts)[..|ss + ts| - 1] == ss + ts[..|ts| - 1];
    }
  }
}
