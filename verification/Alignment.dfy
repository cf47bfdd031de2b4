/**
 Division with remainder, for positions that are aligned to a boundary.
 */
module Alignment {

  /** The quotient and the remainder are unique. */
  lemma DivideUnique(x: int, a: int, q: int, r: int)
    requires a > 0 && x == q * a + r && 0 <= r < a
    ensures x / a == q && x % a == r
  {
    var d := q - x / a;
    ProductBound(d, a);
    assert d * a == q * a - (x / a) * a;
    assert x == (x / a) * a + x % a;
  }

  lemma ProductBound(d: int, a: int)
    requires a > 0
    ensures d >= 1 ==> d * a >= a
    ensures d <= -1 ==> d * a <= -a
    ensures d == 0 ==> d * a == 0
  {
    if d >= 1 {
      assert d * a == (d - 1) * a + a;
      assert (d - 1) * a >= 0;
    } else if d <= -1 {
      assert d * a == (d + 1) * a - a;
      assert (d + 1) * a <= 0;
    }
  }

  /** Adding to a multiple of a. */
  lemma AddToMultiple(x: nat, d: nat, a: nat)
    requires a > 0 && x % a == 0
    ensures d < a ==> (x + d) % a == d
    ensures (x + a) % a == 0
  {
    var q := x / a;
    assert x == q * a + x % a;
    if d < a {
      DivideUnique(x + d, a, q, d);
    }
    assert (q + 1) * a == q * a + a;
    DivideUnique(x + a, a, q + 1, 0);
  }

  /** Rounding down and up gives multiples. */
  lemma RoundToMultiple(x: nat, a: nat)
    requires a > 0
    ensures (x - x % a) % a == 0 && (x + (a - x % a)) % a == 0
  {
    var q := x / a;
    assert x == q * a + x % a;
    assert (q + 1) * a == q * a + a;
    DivideUnique(x - x % a, a, q, 0);
    DivideUnique(x + (a - x % a), a, q + 1, 0);
  }
}
