/** How the text fields of a request are read, and which error answers which fault. */
module LedgerInputs {
  import opened Entries
  import opened Int64
  import opened Ledger
  import opened Strings
  import opened Wrappers
  import Allocation
  import LedgerReading
  import Money

  // ---------- currency codes ----------

  predicate CapitalLetters(code: string) {
    |code| == 3 && 'A' <= code[0] <= 'Z' && 'A' <= code[1] <= 'Z' && 'A' <= code[2] <= 'Z'
  }

  /** upper is the capital of c: the letter itself, a small letter, or one of the two others whose capital is a plain letter. */
  predicate CapitalOf(c: char, upper: char) {
    || c == upper
    || ('a' <= c <= 'z' && upper as int == c as int - 'a' as int + 'A' as int)
    || (c == '\U{131}' && upper == 'I') || (c == '\U{17F}' && upper == 'S')
  }

  predicate InCapitals(t: string, code: string) {
    |t| == |code| && forall i :: 0 <= i < |t| ==> CapitalOf(t[i], code[i])
  }

  /** code is the given text in capitals, without the white space around it. */
  ghost predicate Capitalizes(given: string, code: string) {
    exists t :: Stripped(given, t) && InCapitals(t, code)
  }

  lemma CapitalIsUpper(c: char, upper: char)
    requires 'A' <= upper <= 'Z'
    ensures CapitalOf(c, upper) <==> UpperChar(c) == upper
  {}

  lemma UpperIs(t: string, code: string)
    requires CapitalLetters(code)
    ensures ToUpper(t) == code <==> InCapitals(t, code)
  {
    hide UpperChar, CapitalOf;
    if |t| == 3 {
      forall i | 0 <= i < 3 ensures CapitalOf(t[i], code[i]) <==> UpperChar(t[i]) == code[i] { CapitalIsUpper(t[i], code[i]); }
      if forall i :: 0 <= i < 3 ==> UpperChar(t[i]) == code[i] { assert ToUpper(t) == code; }
      if ToUpper(t) == code { assert forall i :: 0 <= i < 3 ==> UpperChar(t[i]) == ToUpper(t)[i]; }
    }
  }

  lemma CapitalizesTrimmed(value: string, code: string)
    ensures Capitalizes(value, code) <==> InCapitals(TrimSpace(value), code)
  {
    hide TrimSpace, Stripped, InCapitals;
    TrimSpaceIsStripped(value, TrimSpace(value));
    if Capitalizes(value, code) {
      var t :| Stripped(value, t) && InCapitals(t, code);
      TrimSpaceIsStripped(value, t);
    }
  }

  /** A currency is read exactly as three capital letters: those given, in either case and with blanks around, or else the default ones. */
  lemma CurrencyIs(value: string, defaultCurrency: string, code: string)
    ensures Currency(value, defaultCurrency) == Some(code)
            <==> CapitalLetters(code) && if Stripped(value, "") then code == defaultCurrency else Capitalizes(value, code)
  {
    hide TrimSpace, Stripped, InCapitals, Capitalizes, ToUpper, CapitalLetters;
    TrimSpaceIsStripped(value, "");
    CapitalizesTrimmed(value, code);
    CurrencyParts(value, defaultCurrency);
    if CapitalLetters(code) { UpperIs(TrimSpace(value), code); }
  }

  lemma CurrencyParts(value: string, defaultCurrency: string)
    ensures var code := if TrimSpace(value) == "" then defaultCurrency else ToUpper(TrimSpace(value));
            Currency(value, defaultCurrency) == if CapitalLetters(code) then Some(code) else None
  {
    hide TrimSpace, ToUpper;
    var upper := ToUpper(TrimSpace(value));
    assert upper == "" <==> TrimSpace(value) == "";
    LettersAre(if upper == "" then defaultCurrency else upper);
  }

  lemma LettersAre(code: string)
    ensures CapitalLetters(code) <==> IsCode(code)
  {}

  // ---------- what is stored ----------

  lemma PaymentAsGiven(inputs: seq<PaymentInput>, i: nat)
    requires PaymentsParse(inputs) && i < |inputs|
    ensures var p := PaymentsGiven(inputs)[i];
            Stripped(inputs[i].userId, p.user) && Money.ParseMoney(inputs[i].amount) == Some(p.amount) && p.amount > 0
  {
    hide TrimSpace, Stripped, Money.ParseMoney;
    TrimSpaceIsStripped(inputs[i].userId, TrimSpace(inputs[i].userId));
  }

  lemma SharesAsGiven(amount: int64, inputs: seq<SplitInput>, splits: seq<Entry>)
    requires SharesAsked(amount, inputs, splits)
    ensures |splits| == |inputs|
    ensures forall i :: 0 <= i < |inputs| ==> Stripped(inputs[i].userId, splits[i].user)
    ensures forall i :: 0 <= i < |inputs| && inputs[0].splitType.Fixed? ==>
              inputs[i].splitType.Fixed? && Money.ParseMoney(inputs[i].splitValue) == Some(splits[i].amount)
  {
    var given := AllocationsGiven(inputs);
    var result :| Allocation.Answer(amount, given, Ok(result)) && splits == SplitsOf(result);
    hide TrimSpace, Stripped, Money.ParseMoney, Money.ParseRatio;
    AnswerKeeps(amount, given, result);
    forall i | 0 <= i < |inputs| ensures Stripped(inputs[i].userId, splits[i].user) {
      TrimSpaceIsStripped(inputs[i].userId, TrimSpace(inputs[i].userId));
    }
    hide AllocationsGiven, Allocation.Answer, SplitsOf;
    if inputs != [] && inputs[0].splitType.Fixed? {
      forall i: nat | i < |inputs| ensures inputs[i].splitType.Fixed? && Money.ParseMoney(inputs[i].splitValue) == Some(splits[i].amount) {
        GivenValue(inputs, 0);
        GivenValue(inputs, i);
        SplitOf(result, i);
      }
    }
  }

  lemma GivenValue(inputs: seq<SplitInput>, i: nat)
    requires SplitsParse(inputs) && i < |inputs|
    ensures var a := AllocationsGiven(inputs)[i];
            a.splitType == inputs[i].splitType && Some(a.splitValue) == SplitValue(inputs[i])
    ensures inputs[i].splitType.Fixed? ==> SplitValue(inputs[i]) == Money.ParseMoney(inputs[i].splitValue)
    ensures inputs[i].splitType.Ratio? ==> SplitValue(inputs[i]) == Money.ParseRatio(inputs[i].splitValue)
  {
    hide TrimSpace, Money.ParseMoney, Money.ParseRatio;
  }

  lemma SplitOf(result: seq<Allocation.SplitAllocation>, i: nat)
    requires i < |result|
    ensures SplitsOf(result)[i] == Entry(result[i].userId, result[i].shareMinor)
  {}

  lemma AnswerKeeps(amount: int64, given: seq<Allocation.SplitAllocation>, result: seq<Allocation.SplitAllocation>)
    requires Allocation.Answer(amount, given, Ok(result))
    ensures given != [] && |result| == |given|
    ensures forall i :: 0 <= i < |given| ==> result[i].userId == given[i].userId && given[i].splitType == given[0].splitType
    ensures given[0].splitType.Fixed? ==> forall i :: 0 <= i < |given| ==> result[i].shareMinor == given[i].splitValue
  {
    assert Allocation.SameEntries(given, result);
    Allocation.WellFormedWeights(given);
    if given[0].splitType.Fixed? {
      forall i | 0 <= i < |given| ensures result[i].shareMinor == given[i].splitValue {
        assert Allocation.Shares(result)[i] == Allocation.Values(given)[i];
      }
    }
  }

  /**
   * An accepted transaction is stored as it was asked for: the fields without white space around them, the amounts
   * as parsed, fixed shares as given, and ratios so that they are read back as they were given.
   */
  lemma StoredAsAsked(input: TransactionInput, group: Group, defaultCurrency: string, id: string, row: GroupTransaction)
    requires RowFor(input, group, defaultCurrency, id, row)
    ensures row.id == id && row.groupId == group.id && row.kind == input.kind && !row.deleted && Stripped(input.createdBy, row.createdBy)
    ensures Money.ParseMoney(input.amount) == Some(row.amountMinor) && row.amountMinor > 0
    ensures Currency(input.currency, defaultCurrency) == Some(row.currency)
    ensures |row.payments| == |input.payments| && |row.splits| == |row.values| == |input.splits|
    ensures forall i :: 0 <= i < |input.payments| ==>
              && Stripped(input.payments[i].userId, row.payments[i].user)
              && Money.ParseMoney(input.payments[i].amount) == Some(row.payments[i].amount)
    ensures forall i :: 0 <= i < |input.splits| ==>
              && Stripped(input.splits[i].userId, row.splits[i].user) && row.values[i].splitType == input.splits[i].splitType
              && (input.splits[i].splitType.Fixed? ==> Money.ParseMoney(input.splits[i].splitValue) == Some(row.splits[i].amount))
              && (input.splits[i].splitType.Ratio? ==> ReadValue(row.values[i]) == Money.ParseRatio(input.splits[i].splitValue))
  {
    FieldsAsAsked(input, group, defaultCurrency, id, row);
    hide RowFor, Money.ParseMoney, Money.ParseRatio, Currency, Stripped, SharesAsked, PaymentsGiven, AllocationsGiven, ValuesStored, ReadValue;
    SharesAsGiven(row.amountMinor, input.splits, row.splits);
    forall i: nat | i < |input.payments|
      ensures Stripped(input.payments[i].userId, row.payments[i].user)
      ensures Money.ParseMoney(input.payments[i].amount) == Some(row.payments[i].amount)
    {
      PaymentAsGiven(input.payments, i);
    }
    forall i: nat | i < |input.splits|
      ensures row.values[i].splitType == input.splits[i].splitType
      ensures input.splits[i].splitType.Ratio? ==> ReadValue(row.values[i]) == Money.ParseRatio(input.splits[i].splitValue)
      ensures input.splits[i].splitType.Fixed? ==> Money.ParseMoney(input.splits[i].splitValue) == Some(row.splits[i].amount)
    {
      ValueAsGiven(input.splits, i);
      SameTypes(row.amountMinor, input.splits, row.splits, i);
    }
  }

  lemma FieldsAsAsked(input: TransactionInput, group: Group, defaultCurrency: string, id: string, row: GroupTransaction)
    requires RowFor(input, group, defaultCurrency, id, row)
    ensures row.id == id && row.groupId == group.id && row.kind == input.kind && !row.deleted && Stripped(input.createdBy, row.createdBy)
    ensures Money.ParseMoney(input.amount) == Some(row.amountMinor) && row.amountMinor > 0
    ensures Currency(input.currency, defaultCurrency) == Some(row.currency)
    ensures PaymentsParse(input.payments) && row.payments == PaymentsGiven(input.payments)
    ensures SplitsParse(input.splits) && row.values == ValuesStored(AllocationsGiven(input.splits))
    ensures SharesAsked(row.amountMinor, input.splits, row.splits)
  {
    TrimSpaceIsStripped(input.createdBy, TrimSpace(input.createdBy));
    hide TrimSpace, Stripped, Money.ParseMoney, Currency, SharesAsked, PaymentsGiven, PaymentsParse, AllocationsGiven, ValuesStored, SplitsParse;
  }

  lemma ValueAsGiven(inputs: seq<SplitInput>, i: nat)
    requires SplitsParse(inputs) && i < |inputs|
    ensures var v := ValuesStored(AllocationsGiven(inputs))[i];
            v.splitType == inputs[i].splitType
            && (inputs[i].splitType.Ratio? ==> ReadValue(v) == Money.ParseRatio(inputs[i].splitValue))
  {
    GivenValue(inputs, i);
    assert SplitValue(inputs[i]).value > 0;
    hide ReadValue, ColumnText, SplitValue, Money.ParseRatio;
    LedgerReading.ValueReadsBackIff(inputs[i].splitType, SplitValue(inputs[i]).value);
  }

  lemma SameTypes(amount: int64, inputs: seq<SplitInput>, splits: seq<Entry>, i: nat)
    requires SharesAsked(amount, inputs, splits) && i < |inputs|
    ensures inputs[i].splitType == inputs[0].splitType
  {
    var given := AllocationsGiven(inputs);
    var result :| Allocation.Answer(amount, given, Ok(result)) && splits == SplitsOf(result);
    AnswerKeeps(amount, given, result);
    hide Allocation.Answer, AllocationsGiven;
    GivenValue(inputs, 0);
    GivenValue(inputs, i);
  }

  /** So is a settlement. */
  lemma SettledAsAsked(input: SettlementInput, group: Group, defaultCurrency: string, id: string, row: SettlementRow)
    requires SettlementRowFor(input, group, defaultCurrency, id, row)
    ensures row.id == id && row.groupId == group.id
    ensures Stripped(input.fromUser, row.transfer.fromUser) && Stripped(input.toUser, row.transfer.toUser)
    ensures Money.ParseMoney(input.amount) == Some(row.transfer.amountMinor) && row.transfer.amountMinor > 0
    ensures Currency(input.currency, defaultCurrency) == Some(row.currency)
  {
    TrimSpaceIsStripped(input.fromUser, TrimSpace(input.fromUser));
    TrimSpaceIsStripped(input.toUser, TrimSpace(input.toUser));
    hide TrimSpace, Stripped, Money.ParseMoney, Currency;
  }

  // ---------- which amounts are read ----------

  predicate IsPositive(v: Option<int64>) {
    v.Some? && v.value >= 1
  }

  /** Payments are read exactly if each amount is a positive amount of money. */
  lemma PaymentsAreReadIff(inputs: seq<PaymentInput>)
    ensures PaymentsParse(inputs) <==> forall i :: 0 <= i < |inputs| ==> IsPositive(Money.ParseMoney(inputs[i].amount))
  {
    hide Money.ParseMoney;
    forall i | 0 <= i < |inputs| ensures PositiveMoney(inputs[i].amount).Some? <==> IsPositive(Money.ParseMoney(inputs[i].amount)) {}
  }

  /** Splits are read exactly if each value is positive: money for a fixed one, a ratio for a ratio, and nothing else. */
  lemma SplitsAreReadIff(inputs: seq<SplitInput>)
    ensures SplitsParse(inputs)
            <==> forall i :: 0 <= i < |inputs| ==>
                   && !inputs[i].splitType.Other?
                   && IsPositive(if inputs[i].splitType.Fixed? then Money.ParseMoney(inputs[i].splitValue)
                                 else Money.ParseRatio(inputs[i].splitValue))
  {
    hide Money.ParseMoney, Money.ParseRatio;
    forall i | 0 <= i < |inputs|
      ensures SplitValue(inputs[i]).Some?
              <==> && !inputs[i].splitType.Other?
                   && IsPositive(if inputs[i].splitType.Fixed? then Money.ParseMoney(inputs[i].splitValue)
                                 else Money.ParseRatio(inputs[i].splitValue))
    {}
  }
}
