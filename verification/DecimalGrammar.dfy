/** Exactly which strings the decimal parser accepts, and what it reads in them. */
module DecimalGrammar {
  import opened Arithmetic
  import opened Int64
  import opened Money
  import opened Strings
  import opened Wrappers

  /**
   * The accepted shapes: up to two pluses, digits, and possibly a point, a sign and digits. The sign takes one of
   * the places of the fraction, and must leave one for a digit, given or padded.
   */
  ghost predicate Spelling(s: string, plus: string, w: string, dot: bool, sign: string, f: string, scale: nat) {
    && (plus == "" || plus == "+" || plus == "++") && (sign == "" || sign == "+" || sign == "-")
    && Digits(w) && w != "" && Digits(f) && |sign| + |f| <= scale && (sign != "" ==> scale >= 2)
    && (!dot ==> sign == "" && f == "")
    && s == plus + w + if dot then "." + (sign + f) else ""
  }

  /** What is read: the digits after a sign count from the place of the sign on. */
  function Reading(w: string, sign: string, f: string, scale: nat): (r: int)
    requires |sign| + |f| <= scale
  {
    Nat(w) * Pow10(scale) + Nat(f) * Pow10(scale - |sign| - |f|)
  }

  /** A negative fraction other than zero is refused, as is what int64 cannot hold. */
  predicate Readable(w: string, sign: string, f: string, scale: nat)
    requires |sign| + |f| <= scale
  {
    (sign == "-" ==> Nat(f) == 0) && Reading(w, sign, f, scale) <= MAX
  }

  // ---------- what an accepted shape is read as ----------

  lemma ParsesSigned(sign: string, digits: string)
    requires Digits(digits) && digits != "" && (sign == "" || sign == "+" || sign == "-")
    requires Nat(digits) <= MAX
    ensures ParseInt(sign + digits) == Some(if sign == "-" then -Nat(digits) else Nat(digits))
  {
    hide Nat;
    NatBounds(digits);
    assert IsDigit(digits[0]);
    if sign == "" {
      assert sign + digits == digits;
    } else {
      assert (sign + digits)[1..] == digits;
    }
  }

  lemma ParsesWhole(plus: string, w: string)
    requires Digits(w) && w != "" && (plus == "" || plus == "+")
    ensures ParseInt(plus + w) == if Nat(w) <= MAX then Some(Nat(w)) else None
  {
    hide Nat;
    NatBounds(w);
    assert IsDigit(w[0]);
    if plus == "" {
      assert plus + w == w;
    } else {
      assert (plus + w)[1..] == w;
    }
  }

  /** The fraction after padding. */
  lemma ParsesFraction(sign: string, f: string, scale: nat)
    requires scale <= 18 && Digits(f) && |sign| + |f| <= scale && (sign == "" || sign == "+" || sign == "-")
    requires scale > 0 && (sign != "" ==> scale >= 2)
    ensures var fraction := sign + f;
            var digits := Nat(f) * Pow10(scale - |sign| - |f|);
            && 0 <= digits < Pow10(scale)
            && (digits == 0 <==> Nat(f) == 0)
            && ParseInt(fraction + Zeros(scale - |fraction|)) == Some(if sign == "-" then -digits else digits)
  {
    hide ParseInt, Nat, Pow10;
    var room := scale - |sign|;
    PaddedValue(f, room);
    var padded := f + Zeros(room - |f|);
    NatBounds(padded);
    PowMonotone(room, scale);
    NatBounds(f);
    if Nat(f) > 0 { MulMono(Nat(f), 1, Pow10(room - |f|)); } else { MulSign(0, Pow10(room - |f|)); }
    ParsesSigned(sign, padded);
    assert sign + f + Zeros(scale - |sign + f|) == sign + padded;
  }

  lemma CombinesExactly(w: int64, f: int64, scale: nat)
    requires scale <= 18 && w >= 0 && -Pow10(scale) < f < Pow10(scale)
    ensures Combine(w, f, scale) == if f >= 0 && w * Pow10(scale) + f <= MAX then Some(w * Pow10(scale) + f) else None
  {
    hide Pow10;
    PowersFit();
    PowMonotone(scale, 18);
    if f < 0 { NegativeFractionGuard(f, Pow10(scale)); } else { CombineExact(w, f, scale); }
  }

  lemma GroupsRead(plus: string, w: string, sign: string, f: string, scale: nat)
    requires scale <= 18 && Digits(w) && w != "" && Digits(f) && |sign| + |f| <= scale && (plus == "" || plus == "+")
    requires (sign == "" || sign == "+" || sign == "-") && (sign != "" ==> scale >= 2)
    ensures ParseGroups(plus + w, sign + f, scale)
            == if Readable(w, sign, f, scale) then Some(Reading(w, sign, f, scale)) else None
  {
    hide ParseInt, Combine, Nat, Pow10;
    ParsesWhole(plus, w);
    NatBounds(w);
    NatBounds(f);
    var digits := Nat(f) * Pow10(scale - |sign| - |f|);
    if scale > 0 { ParsesFraction(sign, f, scale); } else { NoFraction(f); }
    MulMono(Nat(w), 1, Pow10(scale));
    if Nat(w) <= MAX { CombinesExactly(Nat(w), if sign == "-" then -digits else digits, scale); }
  }

  lemma NoFraction(f: string)
    requires |f| == 0
    ensures Nat(f) * Pow10(0) == 0 && Pow10(0) == 1 && Nat(f) == 0
  {}

  lemma ShapeParts(s: string, plus: string, w: string, dot: bool, sign: string, f: string, scale: nat)
    requires Spelling(s, plus, w, dot, sign, f, scale)
    ensures s != ""
    ensures var value, inner := if s[0] == '+' then s[1..] else s, if plus == "++" then "+" else "";
            value != "" && value[0] != '-' && Split(value, '.') == if dot then [inner + w, sign + f] else [inner + w]
  {
    hide Split;
    var value, inner := if s[0] == '+' then s[1..] else s, if plus == "++" then "+" else "";
    assert IsDigit(w[0]);
    assert value == inner + w + if dot then "." + (sign + f) else "";
    if dot {
      SplitsOnce(inner + w, sign + f, '.');
      assert value == inner + w + ['.'] + (sign + f);
    } else {
      SplitsNowhere(inner + w, '.');
      assert value == inner + w;
    }
  }

  /** A string of an accepted shape is read, or refused, exactly as its parts say. */
  lemma SpellingIsRead(raw: string, plus: string, w: string, dot: bool, sign: string, f: string, scale: nat)
    requires scale <= 18 && Spelling(TrimSpace(raw), plus, w, dot, sign, f, scale)
    ensures ParseScaled(raw, scale) == if Readable(w, sign, f, scale) then Some(Reading(w, sign, f, scale)) else None
  {
    hide TrimSpace, Split, ParseGroups, Readable, Reading;
    ShapeParts(TrimSpace(raw), plus, w, dot, sign, f, scale);
    GroupsRead(if plus == "++" then "+" else "", w, sign, f, scale);
    assert !dot ==> sign + f == "";
  }

  // ---------- nothing else is accepted ----------

  /** What ParseInt accepts: an optional sign and digits. */
  lemma IntShape(s: string) returns (sign: string, digits: string)
    requires ParseInt(s).Some?
    ensures (sign == "" || sign == "+" || sign == "-") && Digits(digits) && digits != "" && s == sign + digits
  {
    if s[0] == '+' || s[0] == '-' {
      sign, digits := [s[0]], s[1..];
    } else {
      sign, digits := "", s;
    }
  }

  lemma FractionShape(fraction: string, scale: nat) returns (sign: string, f: string)
    requires |fraction| <= scale && (scale > 0 ==> ParseInt(fraction + Zeros(scale - |fraction|)).Some?)
    ensures fraction == sign + f && (sign == "" || sign == "+" || sign == "-") && Digits(f)
    ensures |sign| + |f| <= scale && (sign != "" ==> scale >= 2)
  {
    if fraction == "" {
      sign, f := "", "";
    } else {
      var padded := fraction + Zeros(scale - |fraction|);
      var digits;
      sign, digits := IntShape(padded);
      f := fraction[|sign|..];
      BeforePadding(fraction, scale - |fraction|, sign, digits);
    }
  }

  lemma BeforePadding(fraction: string, n: nat, sign: string, digits: string)
    requires fraction != "" && fraction + Zeros(n) == sign + digits && |sign| <= 1 && Digits(digits)
    ensures fraction == sign + fraction[|sign|..] && Digits(fraction[|sign|..])
  {
    hide Zeros;
    var padded := fraction + Zeros(n);
    assert fraction == padded[..|fraction|] && digits == padded[|sign|..];
    assert fraction[|sign|..] == digits[..|fraction| - |sign|];
  }

  lemma WholeShape(whole: string) returns (inner: string, w: string)
    requires whole != "" && whole[0] != '-' && ParseInt(whole).Some?
    ensures (inner == "" || inner == "+") && Digits(w) && w != "" && whole == inner + w
  {
    inner, w := IntShape(whole);
  }

  /** Every accepted string has an accepted shape. */
  lemma AcceptedIsSpelled(raw: string, scale: nat) returns (plus: string, w: string, dot: bool, sign: string, f: string)
    requires ParseScaled(raw, scale).Some?
    ensures Spelling(TrimSpace(raw), plus, w, dot, sign, f, scale)
  {
    hide TrimSpace, Split, ParseGroups, Digits, Spelling;
    var s := TrimSpace(raw);
    var value := if s[0] == '+' then s[1..] else s;
    var lead := if s[0] == '+' then "+" else "";
    var inner;
    inner, w, dot, sign, f := ValueShape(value, scale);
    plus := lead + inner;
    SpelledBy(s, lead, inner, w, dot, sign, f, scale);
  }

  lemma SpelledBy(s: string, lead: string, inner: string, w: string, dot: bool, sign: string, f: string, scale: nat)
    requires (lead == "" || lead == "+") && (inner == "" || inner == "+") && (sign == "" || sign == "+" || sign == "-")
    requires Digits(w) && w != "" && Digits(f) && |sign| + |f| <= scale && (sign != "" ==> scale >= 2)
    requires !dot ==> sign == "" && f == ""
    requires s == lead + (inner + w + if dot then "." + (sign + f) else "")
    ensures Spelling(s, lead + inner, w, dot, sign, f, scale)
  {
    hide Digits;
    var tail := if dot then "." + (sign + f) else "";
    assert lead + (inner + w + tail) == lead + inner + w + tail;
  }

  lemma ValueShape(value: string, scale: nat) returns (inner: string, w: string, dot: bool, sign: string, f: string)
    requires value == "" || value[0] != '-'
    requires var parts := Split(value, '.');
             && |parts| <= 2 && parts[0] != "" && (|parts| == 2 ==> |parts[1]| <= scale)
             && ParseGroups(parts[0], if |parts| == 2 then parts[1] else "", scale).Some?
    ensures (inner == "" || inner == "+") && Digits(w) && w != "" && Digits(f) && (sign == "" || sign == "+" || sign == "-")
    ensures |sign| + |f| <= scale && (sign != "" ==> scale >= 2) && (!dot ==> sign == "" && f == "")
    ensures value == inner + w + if dot then "." + (sign + f) else ""
    ensures inner != "" ==> value != "" && value[0] == '+'
  {
    hide Split, ParseInt, Combine, Digits;
    var parts := Split(value, '.');
    SplitInTwo(value, '.');
    dot := |parts| == 2;
    assert value != "" && parts[0][0] == value[0];
    inner, w := WholeShape(parts[0]);
    sign, f := FractionShape(if dot then parts[1] else "", scale);
    if dot {
      assert value == parts[0] + ['.'] + parts[1] == inner + w + "." + (sign + f);
    }
  }

  /** A string is read as a value exactly if it has an accepted shape that reads as that value. */
  lemma AcceptedExactly(raw: string, scale: nat, v: int64)
    requires scale <= 18
    ensures ParseScaled(raw, scale) == Some(v)
            <==> exists plus, w, dot, sign, f ::
                   Spelling(TrimSpace(raw), plus, w, dot, sign, f, scale) && Readable(w, sign, f, scale) && Reading(w, sign, f, scale) == v
  {
    hide ParseScaled, Readable, Reading, TrimSpace;
    if ParseScaled(raw, scale).Some? {
      var plus, w, dot, sign, f := AcceptedIsSpelled(raw, scale);
      SpellingIsRead(raw, plus, w, dot, sign, f, scale);
    }
    forall plus, w, dot, sign, f | Spelling(TrimSpace(raw), plus, w, dot, sign, f, scale)
      ensures ParseScaled(raw, scale) == if Readable(w, sign, f, scale) then Some(Reading(w, sign, f, scale)) else None
    {
      SpellingIsRead(raw, plus, w, dot, sign, f, scale);
    }
  }

  // ---------- a plus inside the fraction ----------

  lemma SignTrims(w: string, sign: char, f: string)
    requires Digits(w) && Digits(f) && (sign == '+' || sign == '0')
    ensures TrimSpace(w + "." + ([sign] + f)) == w + "." + ([sign] + f)
  {
    var s := w + "." + ([sign] + f);
    assert "" + s + "" == s;
    TrimsAround("", s, "");
  }

  lemma LeadingZero(f: string)
    requires Digits(f)
    ensures Digits("0" + f) && Nat("0" + f) == Nat(f)
  {
    hide Nat;
    ZerosInFront(1, f);
    assert Zeros(1) == "0";
  }

  lemma PlusReadsLikeZero(w: string, f: string, scale: nat)
    requires Digits(w) && Digits(f) && 1 + |f| <= scale
    ensures Digits("0" + f) && Reading(w, "+", f, scale) == Reading(w, "", "0" + f, scale)
    ensures Readable(w, "+", f, scale) <==> Readable(w, "", "0" + f, scale)
  {
    hide Nat, Pow10;
    LeadingZero(f);
  }

  lemma EndsWithoutPlus(s: string, plus: string, w: string, dot: bool, sign: string, f: string)
    requires Spelling(s, plus, w, dot, sign, f, 1)
    ensures s != "" && s[|s| - 1] != '+'
  {
    if f != "" {
      assert IsDigit(f[|f| - 1]) && s[|s| - 1] == f[|f| - 1];
    } else if dot {
      assert s[|s| - 1] == '.';
    } else {
      assert IsDigit(w[|w| - 1]) && s[|s| - 1] == w[|w| - 1];
    }
  }

  /** With one place for the fraction, a plus leaves no place for a digit, and is refused. */
  lemma PlusAloneIsRefused(w: string)
    requires Digits(w)
    ensures ParseScaled(w + "." + "+", 1) == None
  {
    hide ParseScaled, TrimSpace, Readable;
    var raw := w + "." + "+";
    SignTrims(w, '+', "");
    assert ['+'] + "" == "+";
    if ParseScaled(raw, 1).Some? {
      var plus, v, dot, sign, f := AcceptedIsSpelled(raw, 1);
      EndsWithoutPlus(raw, plus, v, dot, sign, f);
    }
  }

  lemma ZeroAloneIsRead(w: string)
    requires Digits(w)
    ensures ParseScaled(w + "." + "0", 1) == if w != "" && 10 * Nat(w) <= MAX then Some(10 * Nat(w)) else None
  {
    hide ParseScaled, TrimSpace, Nat;
    var raw := w + "." + "0";
    SignTrims(w, '0', "");
    assert ['0'] + "" == "0";
    if w == "" {
      BadShape(w, "0", 1);
    } else {
      LeadingZero("");
      assert "" + w == w && "" + "0" == "0" && "0" + "" == "0";
      assert Spelling(raw, "", w, true, "", "0", 1);
      SpellingIsRead(raw, "", w, true, "", "0", 1);
      OnePlace(w);
    }
  }

  lemma OnePlace(w: string)
    requires Digits(w)
    ensures Reading(w, "", "0", 1) == 10 * Nat(w)
  {
    assert Nat("0") == 0;
    assert Pow10(1) == 10;
  }

  lemma PlusBeforeDigits(w: string, f: string, scale: nat)
    requires scale <= 18 && Digits(w) && Digits(f) && (scale != 1 || f != "")
    ensures ParseScaled(w + "." + ("+" + f), scale) == ParseScaled(w + "." + ("0" + f), scale)
  {
    hide ParseScaled, TrimSpace, Readable, Reading;
    var plus, zero := w + "." + ("+" + f), w + "." + ("0" + f);
    SignTrims(w, '+', f);
    SignTrims(w, '0', f);
    if w == "" || 1 + |f| > scale {
      BadShape(w, "+" + f, scale);
      BadShape(w, "0" + f, scale);
    } else {
      PlusReadsLikeZero(w, f, scale);
      assert "" + w == w && "" + ("0" + f) == "0" + f;
      assert Spelling(plus, "", w, true, "+", f, scale);
      assert Spelling(zero, "", w, true, "", "0" + f, scale);
      SpellingIsRead(plus, "", w, true, "+", f, scale);
      SpellingIsRead(zero, "", w, true, "", "0" + f, scale);
    }
  }

  /**
   * Outside the grammar of well-formed decimals the value need not be the one written: a plus leading the
   * fraction is read like a zero in its place - except where it takes the only place there is.
   */
  lemma PlusInsideFraction(w: string, f: string, scale: nat)
    requires scale <= 18 && Digits(w) && Digits(f)
    ensures ParseScaled(w + "." + ("+" + f), scale) == ParseScaled(w + "." + ("0" + f), scale)
            <==> scale != 1 || f != "" || w == "" || 10 * Nat(w) > MAX
  {
    hide ParseScaled, TrimSpace, Nat;
    if scale == 1 && f == "" {
      PlusAloneIsRefused(w);
      ZeroAloneIsRead(w);
      assert "+" + f == "+" && "0" + f == "0";
    } else {
      PlusBeforeDigits(w, f, scale);
    }
  }

  lemma BadShape(w: string, fraction: string, scale: nat)
    requires Digits(w) && '.' !in fraction && (w == "" || |fraction| > scale)
    requires TrimSpace(w + "." + fraction) == w + "." + fraction
    ensures ParseScaled(w + "." + fraction, scale) == None
  {
    hide TrimSpace, Split, ParseGroups;
    var s := w + "." + fraction;
    assert w != "" ==> IsDigit(w[0]) && s[0] == w[0];
    assert s[0] != '+';
    assert s == w + ['.'] + fraction;
    SplitsOnce(w, fraction, '.');
  }
}
