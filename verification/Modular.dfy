/**
 Arithmetic modulo the ML-DSA prime, in the two forms the code uses: Go's truncated
 remainder and the canonical residue in [0, Q), where Q = 8380417.
 */
module Modular {

  /** The coefficients of a polynomial of degree below 256. */
  type Poly256 = p: seq<int> | |p| == 256 witness seq(256, i => 0)

  /** The range of a Go int32. */
  predicate IsInt32(x: int) {
    -0x8000_0000 <= x < 0x8000_0000
  }

  /** The range of a Go int64. */
  predicate IsInt64(x: int) {
    -0x8000_0000_0000_0000 <= x < 0x8000_0000_0000_0000
  }

  /** Go's `a % m` for a positive m: the sign follows the dividend. */
  function Rem(a: int, m: int): (r: int)
    requires m > 0
    ensures -m < r < m
    ensures a >= 0 ==> r >= 0
    ensures a < 0 ==> r <= 0
  {
    if a >= 0 then a % m else -((-a) % m)
  }

  /** The residue of x in [0, Q). */
  function Red(x: int): (r: int)
    ensures 0 <= r < 8380417
  {
    x % 8380417
  }

  /** `x * y % q64` computed in int64: the product must fit. */
  function MulRem(x: int, y: int): (r: int)
    requires IsInt64(x * y)
    ensures Red(r) == Red(x * y) && -8380417 < r < 8380417
    ensures x * y >= 0 ==> r == Red(x * y)
  {
    var p := x * y;
    RemRed(p);
    Rem(p, 8380417)
  }

  lemma RemRed(p: int)
    ensures Red(Rem(p, 8380417)) == Red(p)
  {
  }

  /** `modQ`: reduces an int64 into [0, Q). */
  function ModQ(a: int): (r: int)
    requires IsInt64(a)
    ensures r == Red(a)
  {
    RemRed(a);
    var m := Rem(a, 8380417);
    if m < 0 then m + 8380417 else m
  }

  /** `centered`: maps [0, Q) to (-Q/2, Q/2]. */
  function Centered(a: int): (r: int)
    requires 0 <= a < 8380417
    ensures Cong(r, a) && -4190208 <= r <= 4190208
  {
    if a > 4190208 then a - 8380417 else a
  }

  predicate Cong(x: int, y: int) {
    Red(x) == Red(y)
  }

  predicate CongSeq(a: seq<int>, b: seq<int>) {
    |a| == |b| && forall i :: 0 <= i < |a| ==> Cong(a[i], b[i])
  }

  predicate Reduced(a: seq<int>) {
    forall i :: 0 <= i < |a| ==> 0 <= a[i] < 8380417
  }

  lemma RedSmall(x: int)
    requires 0 <= x < 8380417
    ensures Red(x) == x
  {
  }

  lemma RedRed(x: int)
    ensures Red(Red(x)) == Red(x)
  {
  }

  lemma CongAdd(x: int, x': int, y: int, y': int)
    requires Cong(x, x') && Cong(y, y')
    ensures Cong(x + y, x' + y') && Cong(x - y, x' - y')
  {
    var k, l := x / 8380417 - x' / 8380417, y / 8380417 - y' / 8380417;
    assert x == x' + 8380417 * k && y == y' + 8380417 * l;
    Periodic(x' + y', k + l);
    Periodic(x' - y', k - l);
  }

  /** Congruence is compatible with multiplication. */
  lemma CongMul(x: int, x': int, y: int, y': int)
    requires Cong(x, x') && Cong(y, y')
    ensures Cong(x * y, x' * y')
  {
    var k, l := x / 8380417 - x' / 8380417, y / 8380417 - y' / 8380417;
    var w := x' * l + k * y' + 8380417 * (k * l);
    ProductOfShifts(x', k, y', l);
    assert x == x' + 8380417 * k && y == y' + 8380417 * l;
    Periodic(x' * y', w);
  }

  lemma ProductOfShifts(x: int, k: int, y: int, l: int)
    ensures (x + 8380417 * k) * (y + 8380417 * l) == x * y + 8380417 * (x * l + k * y + 8380417 * (k * l))
  {
  }

  lemma Periodic(x: int, w: int)
    ensures Cong(x + 8380417 * w, x)
  {
  }

  /** Two congruent numbers less than Q apart are equal. */
  lemma CongSmall(x: int, y: int)
    requires Cong(x, y) && -8380417 < x - y < 8380417
    ensures x == y
  {
  }

  function Pow(b: int, e: nat): int {
    if e == 0 then 1 else b * Pow(b, e - 1)
  }

  function Exp2(e: nat): (r: nat)
    ensures r >= 1
  {
    if e == 0 then 1 else 2 * Exp2(e - 1)
  }

  lemma {:induction false} Exp2Monotone(e: nat, f: nat)
    requires e <= f
    ensures Exp2(e) <= Exp2(f)
  {
    if e < f {
      Exp2Monotone(e, f - 1);
    }
  }

  lemma {:induction false} Exp2Sum(e: nat, f: nat)
    ensures Exp2(e + f) == Exp2(e) * Exp2(f)
  {
    if e > 0 {
      Exp2Sum(e - 1, f);
      assert Exp2(e + f) == 2 * Exp2(e - 1 + f);
      assert 2 * Exp2(e - 1) * Exp2(f) == 2 * (Exp2(e - 1) * Exp2(f));
    }
  }

  lemma {:induction false} PowAdd(b: int, e: nat, f: nat)
    ensures Pow(b, e + f) == Pow(b, e) * Pow(b, f)
  {
    if e > 0 {
      PowAdd(b, e - 1, f);
      assert Pow(b, e + f) == b * Pow(b, e - 1 + f);
      assert b * (Pow(b, e - 1) * Pow(b, f)) == b * Pow(b, e - 1) * Pow(b, f);
    }
  }

  lemma {:induction false} PowCong(b: int, b': int, e: nat)
    requires Cong(b, b')
    ensures Cong(Pow(b, e), Pow(b', e))
  {
    hide Red;
    if e > 0 {
      PowCong(b, b', e - 1);
      CongMul(b, b', Pow(b, e - 1), Pow(b', e - 1));
    }
  }
}
