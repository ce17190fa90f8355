/** Which stored transactions can be read back, and what those that cannot do to a group. */
module LedgerReading {
  import opened DecimalGrammar
  import opened Int64
  import opened Ledger
  import opened Wrappers
  import Allocation
  import Money
  import Strings

  predicate NoneFixed(inputs: seq<SplitInput>) {
    forall i :: 0 <= i < |inputs| ==> !inputs[i].splitType.Fixed?
  }

  /** A printed money amount with more places than money has is not read as money. */
  lemma MorePlacesAreRefused(m: int64)
    requires m >= 0
    ensures Money.ParseMoney(Money.FormatMoney(m) + "0000") == None
  {
    hide Money.ParseScaled, Money.FormatScaled, Money.Padded, Money.Decimal, Money.Pow10, Money.TruncDiv, Money.TruncMod;
    Money.PowersFit();
    assert Money.Pow10(2) == 100;
    Money.PartsAreDigits(m, 2);
    Money.FormatShape(m, 100, 2);
    var w, f := Money.Decimal(m / 100), Money.Padded(m % 100, 2) + "0000";
    assert Money.FormatMoney(m) + "0000" == w + "." + f;
    DigitsTrim(w, f);
    BadShape(w, f, 2);
  }

  lemma DigitsTrim(w: string, f: string)
    requires Money.Digits(w) && w != "" && Money.Digits(f) && f != ""
    ensures Strings.TrimSpace(w + "." + f) == w + "." + f && '.' !in f
  {
    var s := w + "." + f;
    assert Money.IsDigit(w[0]) && s[0] == w[0];
    assert Money.IsDigit(f[|f| - 1]) && s[|s| - 1] == f[|f| - 1];
    assert "" + s + "" == s;
    Strings.TrimsAround("", s, "");
    assert forall i :: 0 <= i < |f| ==> Money.IsDigit(f[i]);
  }

  /** A split value that was stored is read back exactly if it is a ratio, and then is what it was. */
  lemma ValueReadsBackIff(splitType: Allocation.SplitType, value: int64)
    requires value >= 0
    ensures ReadValue(StoredValue(splitType, ColumnText(splitType, value))) == if splitType.Fixed? then None else Some(value)
  {
    hide Money.ParseMoney, Money.ParseRatio, Money.FormatMoney, Money.FormatRatio;
    if splitType.Fixed? { MorePlacesAreRefused(value); } else { Money.RoundTrips(value); }
  }

  predicate HasFixed(t: GroupTransaction) {
    exists i :: 0 <= i < |t.values| && t.values[i].splitType.Fixed?
  }

  lemma GivenReadsBack(inputs: seq<SplitInput>, i: nat)
    requires SplitsParse(inputs) && i < |inputs|
    ensures var v := ValuesStored(AllocationsGiven(inputs))[i];
            v.splitType == inputs[i].splitType && (ReadValue(v).Some? <==> !inputs[i].splitType.Fixed?)
  {
    hide ReadValue, ColumnText, Money.ParseMoney, Money.ParseRatio, Strings.TrimSpace;
    assert SplitValue(inputs[i]).value > 0;
    ValueReadsBackIff(inputs[i].splitType, SplitValue(inputs[i]).value);
  }

  /** A stored transaction can be read back exactly if none of its splits is fixed. */
  lemma RowReadsBackIff(input: TransactionInput, group: Group, defaultCurrency: string, id: string, row: GroupTransaction)
    requires RowFor(input, group, defaultCurrency, id, row)
    ensures ReadsBack(row) <==> NoneFixed(input.splits)
    ensures HasFixed(row) <==> !NoneFixed(input.splits)
  {
    var inputs := input.splits;
    assert row.values == ValuesStored(AllocationsGiven(inputs)) && SplitsParse(inputs);
    hide RowFor, SplitsParse, ReadValue, AllocationsGiven, ValuesStored;
    forall i: nat | i < |inputs|
      ensures row.values[i].splitType == inputs[i].splitType
      ensures ReadValue(row.values[i]).Some? <==> !inputs[i].splitType.Fixed?
    {
      GivenReadsBack(inputs, i);
    }
  }
}
