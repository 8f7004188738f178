/** The few facts about products and quotients that the other modules lean on. */
module Arith {

  lemma MulLe(x: int, y: int, x': int, y': int)
    requires 0 <= x <= x' && 0 <= y <= y'
    ensures 0 <= x * y <= x' * y'
  {
    assert x * (y' - y) == x * y' - x * y && x * (y' - y) >= 0;
    assert (x' - x) * y' == x' * y' - x * y' && (x' - x) * y' >= 0;
  }

  lemma MulAtLeast(d: int, k: int)
    requires d > 0 && k >= 1
    ensures d * k >= d
  {
    assert d * (k - 1) == d * k - d && d * (k - 1) >= 0;
  }

  /** Quotient and remainder are determined by the division equation. */
  lemma DivUnique(x: int, d: int, q: int, r: int)
    requires d > 0 && x == d * q + r && 0 <= r < d
    ensures x / d == q && x % d == r
  {
    var q', r' := x / d, x % d;
    assert x == d * q' + r';
    assert d * (q - q') == d * q - d * q';
    if q > q' {
      MulAtLeast(d, q - q');
    } else if q < q' {
      assert d * (q' - q) == d * q' - d * q;
      MulAtLeast(d, q' - q);
    }
  }

  lemma QuotientRange(x: nat, d: nat)
    requires d > 0
    ensures 0 <= x / d <= x && 0 <= x % d < d && x == d * (x / d) + x % d
  {
    var q := x / d;
    assert d * -q == -(d * q);
    if q < 0 {
      MulAtLeast(d, -q);
    } else {
      MulLe(1, q, d, q);
    }
  }
}
