/** Go's int64: a bounded type, with additions that wrap around silently. */
module Int64 {

  const TWO_64: int := 0x1_0000_0000_0000_0000
  const MAX: int := 0x7fff_ffff_ffff_ffff
  const MIN: int := -0x8000_0000_0000_0000

  type int64 = x: int | MIN <= x <= MAX

  predicate Fits(x: int) {
    MIN <= x <= MAX
  }

  function Excess(x: int): (r: nat) {
    if Fits(x) then 0 else if x < 0 then -x else x
  }

  /** The value that int64 arithmetic stores for the mathematical result x. */
  function Wrap(x: int): (r: int64)
    ensures Fits(x) ==> r == x
    decreases Excess(x)
  {
    if x > MAX then Wrap(x - TWO_64) else if x < MIN then Wrap(x + TWO_64) else x
  }

  lemma WrapShift(x: int)
    ensures Wrap(x + TWO_64) == Wrap(x)
  {
    if x + TWO_64 <= MAX { assert x < MIN; }
  }

  lemma {:induction false} WrapLeft(x: int, y: int)
    ensures Wrap(Wrap(x) + y) == Wrap(x + y)
    decreases Excess(x)
  {
    if x > MAX {
      WrapLeft(x - TWO_64, y);
      WrapShift(x - TWO_64 + y);
    } else if x < MIN {
      WrapLeft(x + TWO_64, y);
      WrapShift(x + y);
    }
  }

  lemma WrapDifference(x: int, y: int)
    ensures Wrap(x - y) == 0 <==> Wrap(x) == Wrap(y)
    ensures Wrap(y - x) == 0 <==> Wrap(x) == Wrap(y)
  {
    hide Wrap;
    ZeroDifference(x, y);
    ZeroDifference(y, x);
  }

  /** Adding in wrapping steps is the same as adding mathematically and wrapping once. */
  lemma WrapBoth(x: int, y: int)
    ensures Wrap(Wrap(x) + Wrap(y)) == Wrap(x + y)
  {
    hide Wrap;
    WrapLeft(x, Wrap(y));
    WrapLeft(y, x);
  }

  lemma ZeroDifference(x: int, y: int)
    ensures Wrap(x - y) == 0 <==> Wrap(x) == Wrap(y)
  {
    hide Wrap;
    WrapLeft(x - y, y);
    WrapLeft(x, -y);
    WrapLeft(y, -y);
  }

  /** Two numbers are stored alike exactly when they differ by a multiple of 2^64. */
  lemma WrapIsModular(x: int, y: int)
    ensures Wrap(x) == Wrap(y) <==> (x - y) % TWO_64 == 0
  {
    hide Wrap;
    WrapsByMultiples(x);
    WrapsByMultiples(y);
  }

  lemma {:induction false} WrapsByMultiples(x: int)
    ensures (x - Wrap(x)) % TWO_64 == 0
    decreases Excess(x)
  {
    if x > MAX { WrapsByMultiples(x - TWO_64); } else if x < MIN { WrapsByMultiples(x + TWO_64); }
  }
}
