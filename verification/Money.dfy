/** Decimal strings and scaled integers: ParseMoney, ParseRatio, FormatMoney, FormatRatio. */
module Money {
  import opened Arithmetic
  import opened Int64
  import opened Strings
  import opened Wrappers

  predicate IsDigit(c: char) {
    '0' <= c <= '9'
  }

  predicate Digits(s: string) {
    forall i :: 0 <= i < |s| ==> IsDigit(s[i])
  }

  function Split(s: string, sep: char): (parts: seq<string>)
    ensures |parts| > 0
  {
    if s == "" then [""]
    else
      var rest := Split(s[1..], sep);
      if s[0] == sep then [""] + rest else [[s[0]] + rest[0]] + rest[1..]
  }

  function Zeros(n: nat): (z: string)
    ensures |z| == n && Digits(z)
  {
    seq(n, _ => '0')
  }

  function Pow10(n: nat): (p: int)
    ensures p >= 1
  {
    if n == 0 then 1 else 10 * Pow10(n - 1)
  }

  /** The number a string of digits denotes. */
  function Nat(s: string): (r: int) {
    if s == "" then 0 else 10 * Nat(s[..|s| - 1]) + (s[|s| - 1] as int - '0' as int)
  }

  /** strconv.ParseInt(s, 10, 64). */
  function ParseInt(s: string): (r: Option<int64>) {
    if s == "" then None
    else
      var negative := s[0] == '-';
      var digits := if s[0] == '-' || s[0] == '+' then s[1..] else s;
      if digits == "" || !Digits(digits) then None
      else
        var value := if negative then -Nat(digits) else Nat(digits);
        if Fits(value) then Some(value) else None
  }

  function TruncDiv(x: int, y: int): (r: int)
    requires y > 0
  {
    if x >= 0 then x / y else -(-x / y)
  }

  function TruncMod(x: int, y: int): (r: int)
    requires y > 0
  {
    x - y * TruncDiv(x, y)
  }

  // ---------- parsing ----------

  /** whole*10^scale + fraction, unless int64 cannot hold it. */
  function Combine(whole: int64, fraction: int64, scale: nat): (r: Option<int64>) {
    if whole > TruncDiv(Wrap(MAX - fraction), Pow10(scale)) then None
    else Some(Wrap(whole * Pow10(scale) + fraction))
  }

  function ParseGroups(whole: string, fraction: string, scale: nat): (r: Option<int64>)
    requires |fraction| <= scale
  {
    var w := ParseInt(whole);
    var f := if scale > 0 then ParseInt(fraction + Zeros(scale - |fraction|)) else Some(0);
    if w == None || f == None then None else Combine(w.value, f.value, scale)
  }

  /** The parser as one expression: None where the code returns ErrInvalidDecimal. */
  function ParseScaled(raw: string, scale: nat): (r: Option<int64>) {
    var trimmed := TrimSpace(raw);
    var value := if trimmed != "" && trimmed[0] == '+' then trimmed[1..] else trimmed;
    var parts := Split(value, '.');
    if trimmed == "" || (value != "" && value[0] == '-') then None
    else if |parts| > 2 || parts[0] == "" || (|parts| == 2 && |parts[1]| > scale) then None
    else ParseGroups(parts[0], if |parts| == 2 then parts[1] else "", scale)
  }

  method ParseScaledDecimal(raw: string, scale: nat) returns (r: Option<int64>)
    requires scale <= 18
    ensures r == ParseScaled(raw, scale)
  {
    hide TrimSpace, Split, Combine, ParseInt;
    var value := TrimSpace(raw);
    if value == "" {
      return None;
    }
    if value[0] == '+' {
      value := value[1..];
    }
    if value != "" && value[0] == '-' {
      return None;
    }
    var parts := Split(value, '.');
    if |parts| > 2 || parts[0] == "" {
      return None;
    }
    if |parts| == 2 && |parts[1]| > scale {
      return None;
    }
    var padded := PadFraction(parts, scale);
    var whole := ParseInt(padded[0]);
    if whole == None {
      return None;
    }
    var fraction := Some(0 as int64);
    if scale > 0 {
      fraction := ParseInt(padded[1]);
      if fraction == None {
        return None;
      }
    }
    r := CombineScaled(whole.value, fraction.value, scale);
  }

  /** The loop that pads the fraction with zeros up to the scale. */
  method PadFraction(given: seq<string>, scale: nat) returns (parts: seq<string>)
    requires 1 <= |given| <= 2 && (|given| == 2 ==> |given[1]| <= scale)
    ensures var fraction := if |given| == 2 then given[1] else "";
            scale > 0 ==> parts == [given[0], fraction + Zeros(scale - |fraction|)]
    ensures |parts| == 2 && parts[0] == given[0]
  {
    parts := given;
    ghost var fraction := if |given| == 2 then given[1] else "";
    while |parts| == 1 || |parts[1]| < scale
      invariant 1 <= |parts| <= 2 && parts[0] == given[0] && (|parts| == 1 ==> parts == given)
      invariant |parts| == 2 ==> |fraction| <= |parts[1]| && parts[1] == fraction + Zeros(|parts[1]| - |fraction|)
      invariant |parts| == 2 && scale > 0 ==> |parts[1]| <= scale
      decreases scale + 2 - |parts| - if |parts| == 1 then 0 else |parts[1]|
    {
      if |parts| == 1 {
        parts := parts + [""];
      }
      parts := parts[1 := parts[1] + "0"];
    }
  }

  /** The end of the parser: the power of ten, the overflow guard, the result. */
  method CombineScaled(whole: int64, fraction: int64, scale: nat) returns (r: Option<int64>)
    requires scale <= 18
    ensures r == Combine(whole, fraction, scale)
  {
    var multiplier: int64 := 1;
    PowersFit();
    for i := 0 to scale
      invariant multiplier == Pow10(i)
    {
      PowMonotone(i + 1, 18);
      multiplier := multiplier * 10;
    }
    if whole > TruncDiv(Wrap(MAX - fraction), multiplier) {
      return None;
    }
    return Some(Wrap(whole * multiplier + fraction));
  }

  lemma PowersFit()
    ensures Pow10(2) == 100 && Pow10(6) == 1_000_000 && Pow10(18) == 1_000_000_000_000_000_000
  {
    assert Pow10(6) == 1_000_000;
    assert Pow10(12) == 1_000_000 * Pow10(6);
    assert Pow10(18) == 1_000_000 * Pow10(12);
  }

  lemma {:induction false} PowMonotone(m: nat, n: nat)
    requires m <= n
    ensures Pow10(m) <= Pow10(n)
  {
    if m < n { PowMonotone(m, n - 1); }
  }

  function ParseMoney(raw: string): (r: Option<int64>) {
    ParseScaled(raw, 2)
  }

  function ParseRatio(raw: string): (r: Option<int64>) {
    ParseScaled(raw, 6)
  }

  // ---------- laws of the digits ----------

  lemma {:induction false} NatAppend(s: string, t: string)
    ensures Nat(s + t) == Nat(s) * Pow10(|t|) + Nat(t)
  {
    if t == "" {
      assert s + t == s;
    } else {
      var front := t[..|t| - 1];
      NatAppend(s, front);
      assert (s + t)[..|s + t| - 1] == s + front;
      assert 10 * (Nat(s) * Pow10(|front|)) == Nat(s) * (10 * Pow10(|front|));
    }
  }

  lemma {:induction false} NatBounds(s: string)
    requires Digits(s)
    ensures 0 <= Nat(s) < Pow10(|s|)
  {
    if s != "" { NatBounds(s[..|s| - 1]); }
  }

  lemma {:induction false} NatZeros(n: nat)
    ensures Nat(Zeros(n)) == 0
  {
    if n > 0 {
      NatZeros(n - 1);
      assert Zeros(n)[..n - 1] == Zeros(n - 1);
    }
  }

  // ---------- laws of splitting ----------

  lemma {:induction false} SplitsNowhere(w: string, sep: char)
    requires sep !in w
    ensures Split(w, sep) == [w]
  {
    if w != "" {
      SplitsNowhere(w[1..], sep);
      assert w == [w[0]] + w[1..];
    }
  }

  lemma {:induction false} SplitsOnce(w: string, f: string, sep: char)
    requires sep !in w && sep !in f
    ensures Split(w + [sep] + f, sep) == [w, f]
  {
    var s := w + [sep] + f;
    if w == "" {
      assert s[1..] == f;
      SplitsNowhere(f, sep);
    } else {
      SplitsOnce(w[1..], f, sep);
      assert s[1..] == w[1..] + [sep] + f;
      assert w == [w[0]] + w[1..];
    }
  }

  /** The parts hold no separator and, joined by separators, are the string again. */
  lemma {:induction false} SplitJoins(s: string, sep: char)
    ensures var parts := Split(s, sep);
            && sep !in parts[0]
            && if |parts| == 1 then s == parts[0]
               else exists rest :: s == parts[0] + [sep] + rest && Split(rest, sep) == parts[1..]
  {
    if s != "" {
      SplitJoins(s[1..], sep);
      var parts, tail := Split(s, sep), Split(s[1..], sep);
      assert s == [s[0]] + s[1..];
      if s[0] == sep {
        assert parts[1..] == tail && s == parts[0] + [sep] + s[1..];
      } else if |tail| > 1 {
        var rest :| s[1..] == tail[0] + [sep] + rest && Split(rest, sep) == tail[1..];
        assert parts[1..] == tail[1..];
        assert s == parts[0] + [sep] + rest;
      }
    }
  }

  lemma SplitKeepsFirst(s: string, sep: char)
    ensures Split(s, sep)[0] <= s
  {
    hide Split;
    SplitJoins(s, sep);
  }

  /** A string of one or two parts is put together from them. */
  lemma SplitInTwo(s: string, sep: char)
    ensures var parts := Split(s, sep);
            && sep !in parts[0]
            && (|parts| == 1 ==> s == parts[0])
            && (|parts| == 2 ==> s == parts[0] + [sep] + parts[1] && sep !in parts[1])
  {
    hide Split;
    var parts := Split(s, sep);
    SplitJoins(s, sep);
    if |parts| == 2 {
      var rest :| s == parts[0] + [sep] + rest && Split(rest, sep) == parts[1..];
      SplitJoins(rest, sep);
    }
  }

  // ---------- what parsing means ----------

  /** The grammar of well-formed decimals: an optional plus, digits, and an optional point with at most scale digits. */
  ghost predicate Numeral(s: string, plus: bool, w: string, dot: bool, f: string, scale: nat) {
    && Digits(w) && w != "" && Digits(f) && |f| <= scale && (!dot ==> f == "")
    && s == (if plus then "+" else "") + w + (if dot then "." + f else "")
  }

  /** The value of a numeral in units of 10^-scale. */
  function ScaledValue(w: string, f: string, scale: nat): (r: int)
    requires |f| <= scale
  {
    Nat(w) * Pow10(scale) + Nat(f) * Pow10(scale - |f|)
  }

  lemma ParsesDigits(s: string)
    requires Digits(s) && s != ""
    ensures ParseInt(s) == if Nat(s) <= MAX then Some(Nat(s)) else None
  {
    NatBounds(s);
    assert IsDigit(s[0]);
  }

  lemma OverflowGuard(w: int, f: int, p: int)
    requires w >= 0 && 0 <= f <= MAX && p >= 1
    ensures w > TruncDiv(Wrap(MAX - f), p) <==> w * p + f > MAX
  {
    var room := MAX - f;
    DivMod(room, p);
    if w > room / p {
      MulMono(p, room / p + 1, w);
      MulAdd(p, room / p, 1);
    } else {
      MulMono(p, w, room / p);
    }
  }

  lemma NumeralTrims(s: string, lead: string, trail: string, plus: bool, w: string, dot: bool, f: string, scale: nat)
    requires Numeral(s, plus, w, dot, f, scale) && Spaces(lead) && Spaces(trail)
    ensures s != "" && TrimSpace(lead + s + trail) == s
  {
    assert IsDigit(w[0]) && IsDigit(w[|w| - 1]);
    assert IsDigit(s[|s| - 1]) || s[|s| - 1] == '.' by {
      if dot && f != "" { assert s[|s| - 1] == f[|f| - 1]; }
    }
    TrimsAround(lead, s, trail);
  }

  /** Surrounding space and one leading plus are dropped; the two digit groups remain. */
  lemma NumeralParts(s: string, lead: string, trail: string, plus: bool, w: string, dot: bool, f: string, scale: nat)
    requires Numeral(s, plus, w, dot, f, scale) && Spaces(lead) && Spaces(trail)
    ensures TrimSpace(lead + s + trail) == s && s != ""
    ensures var value := if s[0] == '+' then s[1..] else s;
            value != "" && value[0] != '-' && Split(value, '.') == if dot then [w, f] else [w]
  {
    hide TrimSpace, Split;
    NumeralTrims(s, lead, trail, plus, w, dot, f, scale);
    assert IsDigit(w[0]);
    var value := if s[0] == '+' then s[1..] else s;
    assert value == w + if dot then "." + f else "";
    if dot {
      SplitsOnce(w, f, '.');
      assert value == w + ['.'] + f;
    } else {
      SplitsNowhere(w, '.');
      assert value == w;
    }
  }

  lemma CombineExact(w: int64, f: int64, scale: nat)
    requires w >= 0 && f >= 0
    ensures var value := w * Pow10(scale) + f;
            Combine(w, f, scale) == if value <= MAX then Some(value) else None
  {
    MulSign(w, Pow10(scale));
    OverflowGuard(w, f, Pow10(scale));
  }

  lemma PaddedValue(f: string, scale: nat)
    requires scale <= 18 && Digits(f) && |f| <= scale
    ensures var padded := f + Zeros(scale - |f|);
            && Nat(padded) == Nat(f) * Pow10(scale - |f|) && 0 <= Nat(padded) <= MAX
            && (scale > 0 ==> ParseInt(padded) == Some(Nat(padded)))
            && (scale == 0 ==> Nat(padded) == 0)
  {
    hide ParseInt;
    var zeros := Zeros(scale - |f|);
    NatAppend(f, zeros);
    NatZeros(scale - |f|);
    NatBounds(f + zeros);
    PowersFit();
    PowMonotone(scale, 18);
    if scale > 0 { ParsesDigits(f + zeros); }
  }

  lemma GroupsExact(w: string, f: string, scale: nat)
    requires scale <= 18 && Digits(w) && w != "" && Digits(f) && |f| <= scale
    ensures var value := ScaledValue(w, f, scale);
            ParseGroups(w, f, scale) == if value <= MAX then Some(value) else None
  {
    hide ParseInt, Combine, Nat, Pow10;
    var padded := f + Zeros(scale - |f|);
    PaddedValue(f, scale);
    NatBounds(w);
    ParsesDigits(w);
    MulMono(Nat(w), 1, Pow10(scale));
    if Nat(w) <= MAX { CombineExact(Nat(w), Nat(padded), scale); }
  }

  /** On a well-formed decimal the parser returns its exact value, and fails exactly when int64 cannot hold it. */
  lemma ParsesExactly(s: string, lead: string, trail: string, plus: bool, w: string, dot: bool, f: string, scale: nat)
    requires scale <= 18 && Numeral(s, plus, w, dot, f, scale) && Spaces(lead) && Spaces(trail)
    ensures var value := ScaledValue(w, f, scale);
            ParseScaled(lead + s + trail, scale) == if value <= MAX then Some(value) else None
  {
    hide TrimSpace, Split, ParseGroups, ScaledValue;
    NumeralParts(s, lead, trail, plus, w, dot, f, scale);
    GroupsExact(w, f, scale);
  }

  lemma LeadingSign(s: string)
    requires s != "" && s[0] != '-' && ParseInt(s) != None
    ensures ParseInt(s).value >= 0
  {
    NatBounds(if s[0] == '+' then s[1..] else s);
  }

  lemma SignedBounds(s: string)
    requires ParseInt(s) != None
    ensures -Pow10(|s|) < ParseInt(s).value < Pow10(|s|)
  {
    NatBounds(if s[0] == '+' || s[0] == '-' then s[1..] else s);
    PowMonotone(|s| - 1, |s|);
  }

  lemma NegativeFractionGuard(f: int, p: int)
    requires 1 <= p <= 1_000_000_000_000_000_000 && -p < f < 0
    ensures TruncDiv(Wrap(MAX - f), p) < 0
  {
    var over := MAX - f - TWO_64;
    assert Wrap(MAX - f) == over by { WrapShift(over); }
    DivMod(-over, p);
    if -over / p <= 0 { MulMono(p, -over / p, 0); }
  }

  lemma CombineNeverNegative(w: int64, f: int64, scale: nat)
    requires scale <= 18 && w >= 0 && -Pow10(scale) < f && Combine(w, f, scale).Some?
    ensures Combine(w, f, scale).value >= 0
  {
    PowersFit();
    PowMonotone(scale, 18);
    if f < 0 { NegativeFractionGuard(f, Pow10(scale)); }
    OverflowGuard(w, f, Pow10(scale));
    MulSign(w, Pow10(scale));
  }

  lemma GroupsNeverNegative(w: string, f: string, scale: nat)
    requires scale <= 18 && w != "" && w[0] != '-' && |f| <= scale && ParseGroups(w, f, scale).Some?
    ensures ParseGroups(w, f, scale).value >= 0
  {
    LeadingSign(w);
    var padded := f + Zeros(scale - |f|);
    if scale > 0 { SignedBounds(padded); }
    var fraction := if scale > 0 then ParseInt(padded) else Some(0);
    CombineNeverNegative(ParseInt(w).value, fraction.value, scale);
  }

  /**
   * No accepted string denotes a negative amount, well-formed or not. A sign inside the fraction is
   * read as a number, but the overflow guard then wraps around and rejects every negative fraction.
   */
  lemma NeverNegative(raw: string, scale: nat)
    requires scale <= 18 && ParseScaled(raw, scale).Some?
    ensures ParseScaled(raw, scale).value >= 0
  {
    var trimmed := TrimSpace(raw);
    var value := if trimmed[0] == '+' then trimmed[1..] else trimmed;
    var parts := Split(value, '.');
    SplitKeepsFirst(value, '.');
    GroupsNeverNegative(parts[0], if |parts| == 2 then parts[1] else "", scale);
  }

  // ---------- printing ----------

  function Decimal(n: nat): (s: string)
    ensures s != "" && Digits(s) && Nat(s) == n
  {
    if n < 10 then [('0' as int + n) as char]
    else
      var front := Decimal(n / 10);
      var s := front + [('0' as int + n % 10) as char];
      assert s[..|s| - 1] == front;
      s
  }

  lemma {:induction false} DecimalLength(n: nat, k: nat)
    requires k >= 1 && n < Pow10(k)
    ensures |Decimal(n)| <= k
  {
    if n >= 10 {
      assert Pow10(k) == 10 * Pow10(k - 1);
      assert Pow10(0) == 1;
      DecimalLength(n / 10, k - 1);
    }
  }

  /** fmt's %0*d: the sign counts towards the width. */
  function Padded(x: int, width: nat): (r: string) {
    var digits := Decimal(if x < 0 then -x else x);
    var room := width - if x < 0 then 1 else 0;
    (if x < 0 then "-" else "") + (if |digits| < room then Zeros(room - |digits|) else "") + digits
  }

  function FormatScaled(value: int64, unit: int, width: nat): (r: string)
    requires unit > 0
  {
    var sign := if value < 0 then "-" else "";
    var magnitude := if value < 0 then Wrap(0 - value) else value;
    sign + Padded(TruncDiv(magnitude, unit), 0) + "." + Padded(TruncMod(magnitude, unit), width)
  }

  function FormatMoney(minor: int64): (r: string) {
    FormatScaled(minor, 100, 2)
  }

  function FormatRatio(value: int64): (r: string) {
    FormatScaled(value, 1_000_000, 6)
  }

  lemma ZerosInFront(n: nat, digits: string)
    requires Digits(digits)
    ensures Digits(Zeros(n) + digits) && Nat(Zeros(n) + digits) == Nat(digits)
  {
    hide Nat, Pow10;
    NatAppend(Zeros(n), digits);
    NatZeros(n);
    MulSign(0, Pow10(|digits|));
  }

  lemma PadsToWidth(x: int, k: nat)
    requires k >= 1 && 0 <= x < Pow10(k)
    ensures |Padded(x, k)| == k && Digits(Padded(x, k)) && Nat(Padded(x, k)) == x
  {
    hide Nat, Pow10, Decimal, Digits;
    DecimalLength(x, k);
    var digits := Decimal(x);
    ZerosInFront(k - |digits|, digits);
    assert Padded(x, k) == "" + (if |digits| < k then Zeros(k - |digits|) else "") + digits;
    assert Zeros(0) == "";
    assert Padded(x, k) == Zeros(k - |digits|) + digits;
  }

  lemma TruncatesLikeDivision(m: int, unit: int)
    requires m >= 0 && unit > 0
    ensures m / unit >= 0 && 0 <= m % unit < unit && (m / unit) * unit + m % unit == m
    ensures TruncDiv(m, unit) == m / unit && TruncMod(m, unit) == m % unit
  {
    DivMod(m, unit);
    if m / unit < 0 { MulMono(unit, m / unit, -1); }
  }

  lemma FormatShape(m: int64, unit: int, scale: nat)
    requires m >= 0 && unit > 0 && m / unit >= 0
    ensures FormatScaled(m, unit, scale) == Decimal(m / unit) + "." + Padded(m % unit, scale)
  {
    TruncatesLikeDivision(m, unit);
    hide TruncDiv, TruncMod, Decimal;
    var digits := Decimal(m / unit);
    assert Padded(m / unit, 0) == "" + "" + digits == digits;
    assert "" + digits == digits;
  }

  lemma FullFraction(w: string, f: string, scale: nat)
    requires |f| == scale
    ensures ScaledValue(w, f, scale) == Nat(w) * Pow10(scale) + Nat(f)
  {
    assert Pow10(0) == 1;
    hide Pow10, Nat;
  }

  lemma PartsAreDigits(m: int64, scale: nat)
    requires m >= 0 && scale >= 1
    ensures var unit := Pow10(scale);
            && 0 <= m / unit && |Padded(m % unit, scale)| == scale && Digits(Padded(m % unit, scale))
            && Nat(Padded(m % unit, scale)) == m % unit
  {
    hide Pow10, Nat, Padded, TruncDiv, TruncMod;
    TruncatesLikeDivision(m, Pow10(scale));
    PadsToWidth(m % Pow10(scale), scale);
  }

  lemma NumeralOf(w: string, f: string, scale: nat)
    requires w != "" && Digits(w) && Digits(f) && |f| <= scale
    ensures Numeral(w + "." + f, false, w, true, f, scale)
  {
    assert "" + w + ("." + f) == w + "." + f;
  }

  lemma FormattedValue(m: int64, scale: nat)
    requires m >= 0 && scale >= 1 && m / Pow10(scale) >= 0 && |Padded(m % Pow10(scale), scale)| == scale
    requires Nat(Padded(m % Pow10(scale), scale)) == m % Pow10(scale)
    ensures ScaledValue(Decimal(m / Pow10(scale)), Padded(m % Pow10(scale), scale), scale) == m
  {
    hide Pow10, Nat, Padded, TruncDiv, TruncMod, ScaledValue, Decimal;
    TruncatesLikeDivision(m, Pow10(scale));
    FullFraction(Decimal(m / Pow10(scale)), Padded(m % Pow10(scale), scale), scale);
  }

  lemma FormatsAsNumeral(m: int64, scale: nat)
    requires m >= 0 && scale >= 1
    ensures var s, unit := FormatScaled(m, Pow10(scale), scale), Pow10(scale);
            && 0 <= m / unit
            && Numeral(s, false, Decimal(m / unit), true, Padded(m % unit, scale), scale)
            && ScaledValue(Decimal(m / unit), Padded(m % unit, scale), scale) == m
  {
    hide Wrap, Decimal, Pow10, Nat, Padded, FormatScaled, TruncDiv, TruncMod, ScaledValue, Numeral, Digits;
    PartsAreDigits(m, scale);
    FormatShape(m, Pow10(scale), scale);
    NumeralOf(Decimal(m / Pow10(scale)), Padded(m % Pow10(scale), scale), scale);
    FormattedValue(m, scale);
  }

  lemma FormatsWithMinus(m: int64, scale: nat)
    requires m < 0
    ensures ParseScaled(FormatScaled(m, Pow10(scale), scale), scale) == None
  {
    var s := FormatScaled(m, Pow10(scale), scale);
    var last := Padded(TruncMod(Wrap(0 - m), Pow10(scale)), scale);
    assert IsDigit(last[|last| - 1]) && s[|s| - 1] == last[|last| - 1];
    MinusRejected(s, scale);
  }

  lemma MinusRejected(s: string, scale: nat)
    requires |s| > 0 && s[0] == '-' && IsDigit(s[|s| - 1])
    ensures ParseScaled(s, scale) == None
  {
    TrimsAround("", s, "");
    assert "" + s + "" == s;
  }

  /** Printing then parsing gives the amount back exactly when it is not negative. */
  lemma PrintThenParse(m: int64, scale: nat)
    requires 1 <= scale <= 18
    ensures ParseScaled(FormatScaled(m, Pow10(scale), scale), scale) == if m >= 0 then Some(m) else None
  {
    hide Numeral, Padded, Decimal, Pow10, ParseScaled, FormatScaled;
    var s := FormatScaled(m, Pow10(scale), scale);
    if m >= 0 {
      FormatsAsNumeral(m, scale);
      ParsesExactly(s, "", "", false, Decimal(m / Pow10(scale)), true, Padded(m % Pow10(scale), scale), scale);
      assert "" + s + "" == s;
    } else {
      FormatsWithMinus(m, scale);
    }
  }

  /** ParseMoney undoes FormatMoney, and ParseRatio undoes FormatRatio, on every non-negative amount and no other. */
  lemma RoundTrips(m: int64)
    ensures ParseMoney(FormatMoney(m)) == if m >= 0 then Some(m) else None
    ensures ParseRatio(FormatRatio(m)) == if m >= 0 then Some(m) else None
  {
    PowersFit();
    PrintThenParse(m, 2);
    PrintThenParse(m, 6);
  }

  /** Whatever string was accepted, printing its value and parsing again gives the same value: one printed form per value. */
  lemma PrintedFormIsCanonical(raw1: string, raw2: string, scale: nat)
    requires 1 <= scale <= 18 && ParseScaled(raw1, scale).Some? && ParseScaled(raw2, scale).Some?
    ensures var v1, v2 := ParseScaled(raw1, scale).value, ParseScaled(raw2, scale).value;
            && ParseScaled(FormatScaled(v1, Pow10(scale), scale), scale) == Some(v1)
            && (FormatScaled(v1, Pow10(scale), scale) == FormatScaled(v2, Pow10(scale), scale) <==> v1 == v2)
  {
    hide ParseScaled, FormatScaled, Pow10;
    NeverNegative(raw1, scale);
    NeverNegative(raw2, scale);
    PrintThenParse(ParseScaled(raw1, scale).value, scale);
    PrintThenParse(ParseScaled(raw2, scale).value, scale);
  }
}
