/** Amounts booked on users, and their totals: the common shape of payments, shares and settlement legs. */
module Entries {
  import opened Int64
  import opened Sums
  import Sorting

  datatype Entry = Entry(user: string, amount: int64)

  function Total(es: seq<Entry>): (r: int) {
    if es == [] then 0 else Total(es[..|es| - 1]) + es[|es| - 1].amount
  }

  /** The total booked on one user. */
  function Of(es: seq<Entry>, u: string): (r: int) {
    if es == [] then 0
    else Of(es[..|es| - 1], u) + if es[|es| - 1].user == u then es[|es| - 1].amount else 0
  }

  function Users(es: seq<Entry>): (r: set<string>) {
    if es == [] then {} else Users(es[..|es| - 1]) + {es[|es| - 1].user}
  }

  ghost predicate DistinctUsers(es: seq<Entry>) {
    forall i, j :: 0 <= i < j < |es| ==> es[i].user != es[j].user
  }

  lemma NoEntries(u: string)
    ensures Of([], u) == 0 && Total([]) == 0
  {}

  lemma Append(es: seq<Entry>, e: Entry, u: string)
    ensures Total(es + [e]) == Total(es) + e.amount
    ensures Of(es + [e], u) == Of(es, u) + if e.user == u then e.amount else 0
    ensures Users(es + [e]) == Users(es) + {e.user}
  {
    assert (es + [e])[..|es|] == es;
  }

  lemma Prefix(es: seq<Entry>, i: nat)
    requires i < |es|
    ensures Total(es[..i + 1]) == Total(es[..i]) + es[i].amount
    ensures es[..i + 1] == es[..i] + [es[i]]
  {
    assert es[..i + 1] == es[..i] + [es[i]];
    Append(es[..i], es[i], "");
  }

  lemma {:induction false} Concat(es: seq<Entry>, fs: seq<Entry>, u: string)
    ensures Total(es + fs) == Total(es) + Total(fs)
    ensures Of(es + fs, u) == Of(es, u) + Of(fs, u)
  {
    if fs == [] {
      assert es + fs == es;
    } else {
      Concat(es, fs[..|fs| - 1], u);
      assert (es + fs)[..|es + fs| - 1] == es + fs[..|fs| - 1];
    }
  }

  lemma {:induction false} UsersConcat(es: seq<Entry>, fs: seq<Entry>)
    ensures Users(es + fs) == Users(es) + Users(fs)
  {
    if fs == [] {
      assert es + fs == es;
    } else {
      UsersConcat(es, fs[..|fs| - 1]);
      assert (es + fs)[..|es + fs| - 1] == es + fs[..|fs| - 1];
    }
  }

  lemma {:induction false} First(es: seq<Entry>, u: string)
    requires es != []
    ensures Total(es) == es[0].amount + Total(es[1..])
    ensures Of(es, u) == (if es[0].user == u then es[0].amount else 0) + Of(es[1..], u)
  {
    assert es == [es[0]] + es[1..];
    Concat([es[0]], es[1..], u);
    Append([], es[0], u);
    assert [] + [es[0]] == [es[0]];
  }

  lemma {:induction false} TakeOut(es: seq<Entry>, i: nat, u: string)
    requires i < |es|
    ensures Total(es) == es[i].amount + Total(es[..i] + es[i + 1..])
    ensures Of(es, u) == (if es[i].user == u then es[i].amount else 0) + Of(es[..i] + es[i + 1..], u)
  {
    assert es == es[..i] + es[i..];
    Concat(es[..i], es[i..], u);
    First(es[i..], u);
    assert es[i..][1..] == es[i + 1..];
    Concat(es[..i], es[i + 1..], u);
  }

  /** Totals do not depend on the order of the entries. */
  lemma {:induction false} Permutation(es: seq<Entry>, fs: seq<Entry>, u: string)
    requires multiset(es) == multiset(fs)
    ensures Total(es) == Total(fs) && Of(es, u) == Of(fs, u)
    decreases |es|
  {
    if es == [] {
      assert |multiset(fs)| == |fs|;
    } else {
      var n := |es| - 1;
      assert es[n] in multiset(fs);
      var i :| 0 <= i < |fs| && fs[i] == es[n];
      var fs' := fs[..i] + fs[i + 1..];
      Sorting.MultisetPeel(es, n, fs, i);
      assert es[..n] + es[n + 1..] == es[..n];
      Permutation(es[..n], fs', u);
      TakeOut(fs, i, u);
    }
  }

  lemma {:induction false} UsersAre(es: seq<Entry>)
    ensures forall u :: u in Users(es) <==> exists i :: 0 <= i < |es| && es[i].user == u
  {
    if es != [] {
      UsersAre(es[..|es| - 1]);
      assert forall i :: 0 <= i < |es| - 1 ==> es[..|es| - 1][i] == es[i];
    }
  }

  lemma {:induction false} Absent(es: seq<Entry>, u: string)
    requires u !in Users(es)
    ensures Of(es, u) == 0
  {
    if es != [] {
      Absent(es[..|es| - 1], u);
    }
  }

  lemma {:induction false} NonNegative(es: seq<Entry>, u: string)
    requires forall i :: 0 <= i < |es| ==> es[i].amount >= 0
    ensures 0 <= Of(es, u) <= Total(es)
  {
    if es != [] { NonNegative(es[..|es| - 1], u); }
  }

  lemma {:induction false} OneUser(es: seq<Entry>, i: nat)
    requires i < |es| && DistinctUsers(es)
    ensures Of(es, es[i].user) == es[i].amount
  {
    TakeOut(es, i, es[i].user);
    var rest := es[..i] + es[i + 1..];
    UsersAre(rest);
    Absent(rest, es[i].user);
  }

  ghost function OfEach(es: seq<Entry>): (r: string -> int) {
    u => Of(es, u)
  }

  /** Adding up the totals of all users gives the total. */
  lemma {:induction false} SumOfUsers(es: seq<Entry>, users: set<string>)
    requires Users(es) <= users
    ensures SumOver(users, OfEach(es)) == Total(es)
  {
    if es == [] {
      SumOverAdd(users, OfEach(es), OfEach(es), OfEach(es));
    } else {
      var front, e := es[..|es| - 1], es[|es| - 1];
      assert es == front + [e];
      Append(front, e, e.user);
      SumOfUsers(front, users);
      var point := (u: string) => if e.user == u then e.amount else 0;
      SumOverPoint(users, e.user, point);
      SumOverAdd(users, OfEach(front), point, OfEach(es));
    }
  }
}
