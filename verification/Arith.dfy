/** Quotients and multiples. */
module Arith {
  lemma MulMonotone(x: nat, y: nat, d: nat)
    requires x <= y
    ensures x * d <= y * d
  {}

  lemma DivMonotone(x: nat, y: nat, d: nat)
    requires x <= y && d > 0
    ensures x / d <= y / d
  {
    assert x / d * d <= x && y < (y / d + 1) * d;
    SmallMultiple(y / d - x / d, d);
  }

  /** A multiple of `d` above `-d` is not negative, and one below `d` is not positive. */
  lemma SmallMultiple(k: int, d: nat)
    requires d > 0
    ensures k * d > 0 - d ==> k >= 0
    ensures k * d < d ==> k <= 0
  {
    if k <= -1 { assert (k + 1) * d <= 0; }
    if k >= 1 { assert (k - 1) * d >= 0; }
  }

  lemma DivIs(x: nat, d: nat, q: nat, r: nat)
    requires d > 0 && x == q * d + r && r < d
    ensures x / d == q && x % d == r
  {
    assert x == x / d * d + x % d;
    assert (x / d - q) * d == r - x % d;
    SmallMultiple(x / d - q, d);
  }
}
