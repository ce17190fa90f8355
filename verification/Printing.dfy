/** What the printers of money and ratios print, for every amount that int64 holds. */
module Printing {
  import opened Arithmetic
  import opened Int64
  import opened Money
  import opened Strings
  import opened Wrappers

  // ---------- from zero up ----------

  lemma {:induction false} NoLeadingZero(n: nat)
    ensures Decimal(n)[0] == '0' ==> Decimal(n) == "0"
  {
    if n >= 10 { NoLeadingZero(n / 10); }
  }

  /** A whole part without needless zeros, a point, and as many digits as the scale asks for. */
  lemma PrintsNumeral(m: int64, scale: nat)
    requires m >= 0 && scale >= 1
    ensures exists w, f ::
              && FormatScaled(m, Pow10(scale), scale) == w + "." + f
              && Digits(w) && w != "" && (w[0] == '0' ==> w == "0") && Digits(f) && |f| == scale
              && Nat(w) * Pow10(scale) + Nat(f) == m
  {
    hide Decimal, Pow10, Nat, Padded, FormatScaled, TruncDiv, TruncMod, Digits;
    PartsAreDigits(m, scale);
    FormatShape(m, Pow10(scale), scale);
    NoLeadingZero(m / Pow10(scale));
    DivMod(m, Pow10(scale));
  }

  // ---------- below zero ----------

  /** An amount below zero is printed as a minus and the amount without its sign, if int64 can negate it. */
  lemma PrintsMinus(m: int64, unit: int, width: nat)
    requires MIN < m < 0 && unit > 0
    ensures FormatScaled(m, unit, width) == "-" + FormatScaled(-m, unit, width)
  {
    hide Padded, TruncDiv, TruncMod, Wrap;
    assert Wrap(0 - m) == -m;
    var w, f := Padded(TruncDiv(-m, unit), 0), Padded(TruncMod(-m, unit), width);
    assert FormatScaled(-m, unit, width) == "" + w + "." + f == w + "." + f;
    assert "-" + w + "." + f == "-" + (w + "." + f);
  }

  lemma MoneyAndRatiosBelowZero(m: int64)
    requires MIN < m < 0
    ensures FormatMoney(m) == "-" + FormatMoney(-m) && FormatRatio(m) == "-" + FormatRatio(-m)
  {
    PrintsMinus(m, 100, 2);
    PrintsMinus(m, 1_000_000, 6);
  }

  // ---------- the one amount that int64 cannot negate ----------

  lemma TenTimes(n: int, d: int)
    requires n >= 0 && 0 <= d < 10
    ensures (10 * n + d) / 10 == n && (10 * n + d) % 10 == d
  {}

  lemma {:induction false} DecimalOf(s: string)
    requires Digits(s) && s != "" && (s[0] == '0' ==> |s| == 1)
    ensures Nat(s) >= 0 && Decimal(Nat(s)) == s
  {
    NatBounds(s);
    var front, last := s[..|s| - 1], s[|s| - 1] as int - '0' as int;
    assert s == front + [s[|s| - 1]];
    if front == "" {
      assert Nat(front) == 0;
    } else {
      DecimalOf(front);
      TenTimes(Nat(front), last);
    }
  }

  lemma Three(a: char, b: char, c: char)
    requires Digits([a, b, c])
    ensures Nat([a, b, c]) == 100 * (a as int - '0' as int) + 10 * (b as int - '0' as int) + (c as int - '0' as int)
  {
    assert [a, b, c][..2] == [a, b] && [a, b][..1] == [a] && [a][..0] == "";
    assert Nat([a]) == a as int - '0' as int;
    assert Nat([a, b]) == 10 * Nat([a]) + (b as int - '0' as int);
  }

  /** Three more digits at the end of a number. */
  lemma ThreeMore(s: string, a: char, b: char, c: char)
    requires Digits(s) && Digits([a, b, c])
    ensures Nat(s + [a, b, c])
            == 1000 * Nat(s) + 100 * (a as int - '0' as int) + 10 * (b as int - '0' as int) + (c as int - '0' as int)
    ensures Digits(s + [a, b, c])
  {
    NatAppend(s, [a, b, c]);
    Three(a, b, c);
    assert Pow10(3) == 1000 by {
      assert Pow10(0) == 1;
      assert Pow10(2) == 10 * Pow10(1);
    }
    hide Nat;
  }

  lemma MinimumWhole()
    ensures Decimal(92_233_720_368_547_758) == "92" + "233" + "720" + "368" + "547" + "758"
  {
    hide Nat, Decimal;
    assert Nat("92") == 92 by { Two(); }
    ThreeMore("92", '2', '3', '3');
    ThreeMore("92" + "233", '7', '2', '0');
    ThreeMore("92" + "233" + "720", '3', '6', '8');
    ThreeMore("92" + "233" + "720" + "368", '5', '4', '7');
    ThreeMore("92" + "233" + "720" + "368" + "547", '7', '5', '8');
    DecimalOf("92" + "233" + "720" + "368" + "547" + "758");
  }

  lemma Two()
    ensures Nat("92") == 92 && Nat("9") == 9
  {
    assert "92"[..1] == "9" && "9"[..0] == "";
    assert Nat("9") == 9;
  }

  lemma MinimumRatio()
    ensures Decimal(9_223_372_036_854) == "9" + "223" + "372" + "036" + "854"
    ensures Decimal(775_808) == "775" + "808"
  {
    hide Nat, Decimal;
    Two();
    ThreeMore("9", '2', '2', '3');
    ThreeMore("9" + "223", '3', '7', '2');
    ThreeMore("9" + "223" + "372", '0', '3', '6');
    ThreeMore("9" + "223" + "372" + "036", '8', '5', '4');
    DecimalOf("9" + "223" + "372" + "036" + "854");
    Three('7', '7', '5');
    ThreeMore("775", '8', '0', '8');
    DecimalOf("775" + "808");
  }

  lemma PadsNegative(n: int, width: nat)
    requires n > 0
    ensures Padded(-n, width)
            == "-" + (if |Decimal(n)| < width - 1 then Zeros(width - 1 - |Decimal(n)|) else "") + Decimal(n)
  {
    hide Decimal;
  }

  lemma MinimumParts(unit: int, width: nat, whole: int, rest: int, w: string, f: string)
    requires 0 < unit && -MIN == whole * unit + rest && rest < unit && whole > 0 && rest > 0
    requires Decimal(whole) == w && Decimal(rest) == f && |f| >= width - 1
    ensures FormatScaled(MIN, unit, width) == "--" + w + ".-" + f
  {
    hide Decimal, Padded, TruncDiv, TruncMod;
    assert Wrap(0 - MIN) == MIN;
    MinimumDivided(unit, whole, rest);
    PadsNegative(whole, 0);
    PadsNegative(rest, width);
    assert "-" + "" + w == "-" + w && "-" + "" + f == "-" + f;
    assert "-" + ("-" + w) + "." + ("-" + f) == "--" + w + ".-" + f;
  }

  lemma MinimumDivided(unit: int, whole: int, rest: int)
    requires 0 < unit && -MIN == whole * unit + rest && 0 <= rest < unit
    ensures TruncDiv(MIN, unit) == -whole && TruncMod(MIN, unit) == -rest
  {
    UniqueDivision(-MIN, unit, whole, rest);
  }

  /** The smallest amount keeps its sign when negated, and each part is printed with it. */
  lemma PrintsMinimum()
    ensures FormatMoney(MIN) == "--92233720368547758.-8"
    ensures FormatRatio(MIN) == "--9223372036854.-775808"
  {
    hide Decimal, FormatScaled;
    MinimumWhole();
    MinimumRatio();
    Eight();
    MinimumParts(100, 2, 92_233_720_368_547_758, 8, "92" + "233" + "720" + "368" + "547" + "758", "8");
    MinimumParts(1_000_000, 6, 9_223_372_036_854, 775_808, "9" + "223" + "372" + "036" + "854", "775" + "808");
  }

  lemma Eight()
    ensures Decimal(8) == "8"
  {}

  // ---------- different amounts print differently ----------

  lemma FirstCharacters(m: int64, scale: nat)
    requires 1 <= scale <= 18
    ensures var s := FormatScaled(m, Pow10(scale), scale);
            && |s| >= 2
            && (m >= 0 ==> IsDigit(s[0])) && (m < 0 ==> s[0] == '-') && (MIN < m < 0 ==> IsDigit(s[1])) && (m == MIN ==> s[1] == '-')
  {
    hide Decimal, Pow10, Padded, FormatScaled, TruncDiv, TruncMod;
    if m >= 0 {
      StartsWithDigit(m, scale);
    } else if m > MIN {
      StartsWithDigit(-m, scale);
      PrintsMinus(m, Pow10(scale), scale);
    } else {
      MinimumStarts(scale);
    }
  }

  lemma StartsWithDigit(m: int64, scale: nat)
    requires m >= 0 && scale >= 1
    ensures var s := FormatScaled(m, Pow10(scale), scale); |s| >= 2 && IsDigit(s[0])
  {
    hide Decimal, Pow10, Padded, FormatScaled;
    PartsAreDigits(m, scale);
    FormatShape(m, Pow10(scale), scale);
  }

  lemma MinimumStarts(scale: nat)
    requires 1 <= scale <= 18
    ensures var s := FormatScaled(MIN, Pow10(scale), scale); |s| >= 2 && s[..2] == "--"
  {
    hide Decimal, Pow10;
    PowersFit();
    PowMonotone(scale, 18);
    assert Wrap(0 - MIN) == MIN;
    TruncatesLikeDivision(-MIN, Pow10(scale));
    assert -MIN / Pow10(scale) > 0 by { QuotientPositive(-MIN, Pow10(scale)); }
    PadsNegative(-MIN / Pow10(scale), 0);
  }

  lemma QuotientPositive(x: int, y: int)
    requires 0 < y <= x
    ensures x / y > 0
  {
    DivMod(x, y);
    if x / y <= 0 { MulMono(y, x / y, 0); }
  }

  /** Two amounts that print alike are the same, on all of int64. */
  lemma PrintsApart(m: int64, n: int64, scale: nat)
    requires 1 <= scale <= 18 && FormatScaled(m, Pow10(scale), scale) == FormatScaled(n, Pow10(scale), scale)
    ensures m == n
  {
    hide Pow10, FormatScaled, ParseScaled;
    FirstCharacters(m, scale);
    FirstCharacters(n, scale);
    if m >= 0 {
      PrintThenParse(m, scale);
      PrintThenParse(n, scale);
    } else if m > MIN {
      var unit := Pow10(scale);
      PrintsMinus(m, unit, scale);
      PrintsMinus(n, unit, scale);
      assert FormatScaled(-m, unit, scale) == FormatScaled(m, unit, scale)[1..] == FormatScaled(-n, unit, scale);
      PrintThenParse(-m, scale);
      PrintThenParse(-n, scale);
    }
  }
}
