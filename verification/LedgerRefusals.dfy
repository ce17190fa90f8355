/** What the refusals of the ledger's operations mean: each one names a fault that is there. */
module LedgerRefusals {
  import opened Balances
  import opened Ledger
  import opened LedgerService
  import opened Strings
  import opened Wrappers

  predicate IsBlank(s: string) {
    forall i :: 0 <= i < |s| ==> IsSpace(s[i])
  }

  lemma BlankTrimsAway(s: string)
    ensures TrimSpace(s) == "" <==> IsBlank(s)
  {
    hide TrimSpace;
    TrimSpaceIsStripped(s, "");
    if IsBlank(s) {
      assert Spaces(s) && Spaces("") && s == s + "" + "";
    }
    if Stripped(s, "") {
      var lead, trail :| Spaces(lead) && Spaces(trail) && s == lead + "" + trail;
      assert forall i :: 0 <= i < |s| ==> s[i] == if i < |lead| then lead[i] else trail[i - |lead|];
    }
  }

  /** One of the services that were asked, or the database, failed with this error. */
  predicate FailedOutside(around: Surroundings, error: LedgerError) {
    || around.role == Err(error) || around.group == Err(error) || around.members == Err(error) || around.users == Some(error)
    || around.category == Err(error) || around.stored == Some(error)
  }

  predicate NamesOutsiders(input: TransactionInput, members: seq<string>) {
    || TrimSpace(input.createdBy) !in members
    || (exists i :: 0 <= i < |input.payments| && TrimSpace(input.payments[i].userId) !in members)
    || (exists i :: 0 <= i < |input.splits| && TrimSpace(input.splits[i].userId) !in members)
  }

  lemma OutsidersIff(input: TransactionInput, members: seq<string>)
    ensures NamesOutsiders(input, members) <==> !UsersAreMembers(input, members)
  {
    hide TrimSpace;
  }

  /** Every refusal of a transaction is a failure of what was asked, or a fault of the input that it names. */
  lemma RefusalsAreReal(input: TransactionInput, around: Surroundings, defaultCurrency: string, error: LedgerError)
    requires Refusal(input, around, defaultCurrency) == Some(error) && !FailedOutside(around, error)
    ensures match error
            case Validation =>
              || IsBlank(input.groupId) || IsBlank(input.createdBy) || IsBlank(input.title) || input.kind == Unspecified
              || (around.group.Ok? && !around.group.value.active)
              || PositiveMoney(input.amount) == None || Currency(input.currency, defaultCurrency) == None
              || (around.members.Ok? && NamesOutsiders(input, around.members.value))
              || (!IsBlank(input.categoryId) && around.category == Ok(false))
            case InvalidPayment =>
              PositiveMoney(input.amount).Some?
              && (PaymentsParse(input.payments) ==> !ValidPayments(PositiveMoney(input.amount).value, PaymentsGiven(input.payments)))
            case InvalidSplit => PositiveMoney(input.amount).Some? && !SplitsAccepted(PositiveMoney(input.amount).value, input.splits)
            case _ => false
  {
    hide PositiveMoney, Currency, ValidPayments, PaymentsParse, PaymentsGiven, SplitsAccepted, TrimSpace, IsBlank;
    BlankTrimsAway(input.groupId);
    BlankTrimsAway(input.createdBy);
    BlankTrimsAway(input.title);
    BlankTrimsAway(input.categoryId);
  }

  /** Of a request that names its fields, whoever is no member of the group learns that and nothing else about it. */
  lemma MembershipComesFirst(input: TransactionInput, around: Surroundings, defaultCurrency: string)
    requires !IsBlank(input.groupId) && !IsBlank(input.createdBy) && !IsBlank(input.title) && input.kind != Unspecified
    requires around.role.Err?
    ensures Refusal(input, around, defaultCurrency) == Some(around.role.error)
  {
    hide TrimSpace, IsBlank;
    BlankTrimsAway(input.groupId);
    BlankTrimsAway(input.createdBy);
    BlankTrimsAway(input.title);
  }

  lemma SettlementRefusalsAreReal(input: SettlementInput, around: Surroundings, defaultCurrency: string, error: LedgerError)
    requires SettlementRefusal(input, around, defaultCurrency) == Some(error) && !FailedOutside(around, error)
    ensures match error
            case Validation =>
              || IsBlank(input.groupId) || IsBlank(input.fromUser) || IsBlank(input.toUser) || IsBlank(input.createdBy)
              || TrimSpace(input.fromUser) == TrimSpace(input.toUser)
              || (around.members.Ok?
                  && (TrimSpace(input.fromUser) !in around.members.value || TrimSpace(input.toUser) !in around.members.value))
              || PositiveMoney(input.amount) == None || Currency(input.currency, defaultCurrency) == None
            case Forbidden => around.role == Ok(Member) && TrimSpace(input.createdBy) != TrimSpace(input.fromUser)
            case _ => false
  {
    hide PositiveMoney, Currency, TrimSpace, IsBlank;
    BlankTrimsAway(input.groupId);
    BlankTrimsAway(input.fromUser);
    BlankTrimsAway(input.toUser);
    BlankTrimsAway(input.createdBy);
  }

  /** The live row with an id. */
  predicate HasLiveRow(s: LedgerState, id: string, i: nat) {
    i < |s.transactions| && s.transactions[i].id == id && !s.transactions[i].deleted
  }

  lemma OnlyLiveRow(s: LedgerState, id: string, i: nat, j: nat)
    requires ValidLedger(s) && HasLiveRow(s, id, i) && HasLiveRow(s, id, j)
    ensures i == j
  {
    hide SoundRow;
  }

  lemma DeletableIff(s: LedgerState, id: string, userId: string, around: DeletionAnswers, i: nat)
    requires ValidLedger(s) && HasLiveRow(s, id, i)
    ensures (exists j :: Deletable(s, id, userId, around, j))
            <==> && TrimSpace(id) != "" && TrimSpace(userId) != "" && ReadsBack(s.transactions[i])
                 && around.role.Ok? && (s.transactions[i].createdBy == userId || around.role.value == Owner)
  {
    hide TrimSpace, ReadsBack, ValidLedger;
    if j: nat :| Deletable(s, id, userId, around, j) { OnlyLiveRow(s, id, i, j); }
    if TrimSpace(id) != "" && TrimSpace(userId) != "" && ReadsBack(s.transactions[i])
       && around.role.Ok? && (s.transactions[i].createdBy == userId || around.role.value == Owner) {
      assert Deletable(s, id, userId, around, i);
    }
  }

  lemma NoneReadableIff(s: LedgerState, id: string, i: nat)
    requires ValidLedger(s) && HasLiveRow(s, id, i)
    ensures (forall j :: 0 <= j < |s.transactions| && s.transactions[j].id == id && !s.transactions[j].deleted
                         ==> !ReadsBack(s.transactions[j]))
            <==> !ReadsBack(s.transactions[i])
  {
    hide ReadsBack, ValidLedger;
    if !ReadsBack(s.transactions[i]) {
      forall j | 0 <= j < |s.transactions| && s.transactions[j].id == id && !s.transactions[j].deleted
        ensures !ReadsBack(s.transactions[j])
      {
        OnlyLiveRow(s, id, i, j);
      }
    }
  }

  /** Deleting succeeds exactly for a readable live row, on behalf of its creator or an owner of the group; other answers name the fault. */
  lemma DeletionAnswersAre(s: LedgerState, id: string, userId: string, around: DeletionAnswers, i: nat)
    requires ValidLedger(s) && HasLiveRow(s, id, i)
    requires around.read == None && around.membership.Ok? && around.role.Ok? && around.stored == None
    ensures var r := DeleteRefusal(s, id, userId, around);
            && (r == None <==>
                  && !IsBlank(id) && !IsBlank(userId) && ReadsBack(s.transactions[i])
                  && (s.transactions[i].createdBy == userId || around.role == Ok(Owner)))
            && (r == Some(Validation) <==> IsBlank(id) || IsBlank(userId))
            && (r == Some(Unreadable) <==> !IsBlank(id) && !IsBlank(userId) && !ReadsBack(s.transactions[i]))
            && (r == Some(Forbidden) <==>
                  && !IsBlank(id) && !IsBlank(userId) && ReadsBack(s.transactions[i])
                  && s.transactions[i].createdBy != userId && around.role == Ok(Member))
  {
    BlankTrimsAway(id);
    BlankTrimsAway(userId);
    DeletableIff(s, id, userId, around, i);
    NoneReadableIff(s, id, i);
    hide TrimSpace, IsBlank, ReadsBack, ValidLedger, Deletable;
    assert around.role.value == Owner || around.role.value == Member;
  }

  lemma NothingToDelete(s: LedgerState, id: string, userId: string, around: DeletionAnswers)
    requires !IsBlank(id) && !IsBlank(userId) && around.read == None && forall i: nat :: !HasLiveRow(s, id, i)
    ensures DeleteRefusal(s, id, userId, around) == Some(NotFound)
  {
    hide TrimSpace, IsBlank;
    BlankTrimsAway(id);
    BlankTrimsAway(userId);
    forall i | 0 <= i < |s.transactions| ensures s.transactions[i].id != id || s.transactions[i].deleted { assert !HasLiveRow(s, id, i); }
  }

  // ---------- what is accepted has no fault ----------

  /** What is accepted names its fields, members of an active group and an active category, and amounts that are read. */
  lemma AcceptedIsFaultless(input: TransactionInput, around: Surroundings, defaultCurrency: string)
    requires Refusal(input, around, defaultCurrency) == None
    ensures !IsBlank(input.groupId) && !IsBlank(input.createdBy) && !IsBlank(input.title) && input.kind != Unspecified
    ensures around.role.Ok? && around.group.Ok? && around.group.value.active && around.members.Ok?
    ensures !NamesOutsiders(input, around.members.value)
    ensures around.users == None && around.stored == None && (IsBlank(input.categoryId) || around.category == Ok(true))
    ensures PositiveMoney(input.amount).Some? && Currency(input.currency, defaultCurrency).Some?
    ensures PaymentsParse(input.payments) && ValidPayments(PositiveMoney(input.amount).value, PaymentsGiven(input.payments))
    ensures SplitsAccepted(PositiveMoney(input.amount).value, input.splits)
  {
    hide PositiveMoney, Currency, ValidPayments, PaymentsParse, PaymentsGiven, SplitsAccepted, TrimSpace, IsBlank,
      NamesOutsiders, UsersAreMembers;
    BlankTrimsAway(input.groupId);
    BlankTrimsAway(input.createdBy);
    BlankTrimsAway(input.title);
    BlankTrimsAway(input.categoryId);
    if around.members.Ok? { OutsidersIff(input, around.members.value); }
  }

  /** An accepted settlement is between two different members, recorded by the sender or an owner. */
  lemma AcceptedSettlementIsFaultless(input: SettlementInput, around: Surroundings, defaultCurrency: string)
    requires SettlementRefusal(input, around, defaultCurrency) == None
    ensures !IsBlank(input.groupId) && !IsBlank(input.fromUser) && !IsBlank(input.toUser) && !IsBlank(input.createdBy)
    ensures TrimSpace(input.fromUser) != TrimSpace(input.toUser)
    ensures around.role == Ok(Owner) || (around.role == Ok(Member) && TrimSpace(input.createdBy) == TrimSpace(input.fromUser))
    ensures around.group.Ok? && around.members.Ok?
    ensures TrimSpace(input.fromUser) in around.members.value && TrimSpace(input.toUser) in around.members.value
    ensures around.users == None && around.stored == None
    ensures PositiveMoney(input.amount).Some? && Currency(input.currency, defaultCurrency).Some?
  {
    assert around.role.Ok? ==> around.role.value == Owner || around.role.value == Member;
    hide PositiveMoney, Currency, TrimSpace, IsBlank;
    BlankTrimsAway(input.groupId);
    BlankTrimsAway(input.fromUser);
    BlankTrimsAway(input.toUser);
    BlankTrimsAway(input.createdBy);
  }
}
