/** Small facts about products, stated one at a time so that larger proofs stay linear. */
module Arithmetic {

  lemma MulMono(c: int, x: int, y: int)
    requires c >= 0 && x <= y
    ensures c * x <= c * y
  {}

  lemma MulStrict(c: int, x: int, y: int)
    requires c > 0 && x < y
    ensures c * x < c * y
  {}

  lemma MulAdd(c: int, x: int, y: int)
    ensures c * (x + y) == c * x + c * y
    ensures c * (x - y) == c * x - c * y
  {}

  lemma MulSign(x: int, y: int)
    ensures x >= 0 && y >= 0 ==> x * y >= 0
    ensures x <= 0 && y <= 0 ==> x * y >= 0
    ensures x <= 0 && y >= 0 ==> x * y <= 0
  {}

  lemma SmallMultiple(d: int, k: int)
    requires d > 0 && -d < d * k < d
    ensures k == 0
  {
    if k >= 1 { MulMono(d, 1, k); }
    if k <= -1 { MulMono(d, k, -1); }
  }

  lemma DivMod(p: int, d: int)
    requires d > 0
    ensures p == d * (p / d) + p % d && 0 <= p % d < d
  {}

  lemma UniqueDivision(p: int, d: int, q: int, r: int)
    requires d > 0 && p == d * q + r && 0 <= r < d
    ensures p / d == q && p % d == r
  {
    DivMod(p, d);
    MulAdd(d, p / d, q);
    SmallMultiple(d, p / d - q);
  }

  lemma DivisionScales(c: int, p: int, d: int)
    requires c > 0 && d > 0
    ensures c * d > 0
    ensures (c * p) / (c * d) == p / d && (c * p) % (c * d) == c * (p % d)
  {
    DivMod(p, d);
    var q, r := p / d, p % d;
    MulAdd(c, d * q, r);
    MulStrict(c, r, d);
    MulAssoc(c, d, q);
    UniqueDivision(c * p, c * d, q, c * r);
  }

  lemma MulAssoc(x: int, y: int, z: int)
    ensures (x * y) * z == x * (y * z)
  {}
}
