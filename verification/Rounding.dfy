/**
 Rounding and hints (section 7.4 of FIPS 204): Power2Round, Decompose and UseHint as the code
 computes them, and the two facts signing relies on. A hint recovers the high bits through a
 perturbation of at most gamma2, and a small perturbation of a value whose low bits are far
 from the boundary does not move its high bits at all.
 */
module Rounding {
  import opened Modular

  /** The two values gamma2 takes: (Q-1)/88 and (Q-1)/32. */
  type Gamma2 = g: int | g == 95232 || g == 261888 witness 95232

  /** `power2Round`. */
  function Power2Round(r: int): (p: (int, int))
    ensures p.0 * 8192 + p.1 == Red(r)
    ensures 0 <= p.0 < 1024 && -4096 < p.1 <= 4096
  {
    var x := Red(r);
    var low := x % 8192;
    var a := if low > 4096 then low - 8192 else low;
    ((x - a) / 8192, a)
  }

  /** `decompose`. */
  function Decompose(r: int, g: Gamma2): (p: (int, int))
    ensures 0 <= p.0 && p.0 * (2 * g) < 8380416
    ensures var x := Red(r);
      || (x == p.0 * (2 * g) + p.1 && 0 < p.1 + g <= 2 * g)
      || (p.0 == 0 && p.1 == x - 8380417 && 0 <= p.1 + g && p.1 < 0)
  {
    var x := Red(r);
    var alpha := 2 * g;
    var low := x % alpha;
    var a := if low > alpha / 2 then low - alpha else low;
    DecomposeExact(x, g, a);
    if x - a == 8380417 - 1 then (0, a - 1) else ((x - a) / alpha, a)
  }

  lemma DecomposeExact(x: int, g: Gamma2, a: int)
    requires 0 <= x < 8380417
    requires a == if x % (2 * g) > 2 * g / 2 then x % (2 * g) - 2 * g else x % (2 * g)
    ensures 0 < a + g <= 2 * g
    ensures (x - a) / (2 * g) * (2 * g) == x - a && 0 <= x - a <= 8380416
    ensures x - a == 8380416 ==> a <= 0
  {
    if g == 95232 {
      ExactSmall(x, a);
    } else {
      ExactLarge(x, a);
    }
  }

  lemma ExactSmall(x: int, a: int)
    requires 0 <= x < 8380417
    requires a == if x % 190464 > 95232 then x % 190464 - 190464 else x % 190464
    ensures (x - a) / 190464 * 190464 == x - a && 0 <= x - a <= 8380416
  {
  }

  lemma ExactLarge(x: int, a: int)
    requires 0 <= x < 8380417
    requires a == if x % 523776 > 261888 then x % 523776 - 523776 else x % 523776
    ensures (x - a) / 523776 * 523776 == x - a && 0 <= x - a <= 8380416
  {
  }

  function HighBits(r: int, g: Gamma2): (h: int)
    ensures 0 <= h && h * (2 * g) < 8380416
  {
    Decompose(r, g).0
  }

  function LowBits(r: int, g: Gamma2): int
  {
    Decompose(r, g).1
  }

  /** `useHint`; Go's remainder keeps the sign of r1, hence the final correction. */
  function UseHint(h: int, r: int, g: Gamma2): (u: int)
    ensures 0 <= u
  {
    var m := 8380416 / (2 * g);
    var (r1, r0) := Decompose(r, g);
    if h == 0 then r1 else
      var moved := Rem(if r0 > 0 then r1 + 1 else r1 - 1, m);
      if moved < 0 then moved + m else moved
  }

  lemma UseHintSteps(r: int, g: Gamma2)
    ensures var m := if g == 95232 then 44 else 16;
      var (r1, r0) := Decompose(r, g);
      UseHint(1, r, g) == if r0 > 0 then (if r1 + 1 == m then 0 else r1 + 1) else (if r1 == 0 then m - 1 else r1 - 1)
  {
    hide Decompose;
    if g == 95232 {
      assert 8380416 / (2 * g) == 44;
    } else {
      assert 8380416 / (2 * g) == 16;
    }
  }

  lemma UseHintBound(h: int, r: int, g: Gamma2)
    ensures UseHint(h, r, g) * (2 * g) < 8380416
  {
    hide Decompose;
    if g == 95232 {
      assert 8380416 / (2 * g) == 44;
    } else {
      assert 8380416 / (2 * g) == 16;
    }
  }

  /** Section 7.4 of FIPS 204: a hint set exactly when the high bits of r and r + t differ lets
      the verifier, who only knows r + t, recover the high bits of r, for every |t| up to gamma2. */
  lemma HintRecovery(r: int, t: int, s: int, g: Gamma2)
    requires 0 <= r < 8380417 && 0 <= s < 8380417
    requires 0 <= t + g <= 2 * g && Cong(s, r + t)
    ensures UseHint(if HighBits(s, g) != HighBits(r, g) then 1 else 0, s, g) == HighBits(r, g)
  {
    hide Decompose, UseHint;
    RedSmall(r);
    RedSmall(s);
    Wrap(r, t, s);
    UseHintSteps(s, g);
    NoHint(s, g);
    if g == 95232 {
      RecoverSmall(r, t, s);
    } else {
      RecoverLarge(r, t, s);
    }
  }

  /** One more than gamma2 is too much: at r = gamma2 the hint then points the wrong way. */
  lemma HintRecoveryIsSharp(g: Gamma2)
    ensures HighBits(2 * g + 1, g) != HighBits(g, g)
    ensures UseHint(1, 2 * g + 1, g) != HighBits(g, g)
  {
    hide Decompose, UseHint;
    RedSmall(g);
    RedSmall(2 * g + 1);
    UseHintSteps(2 * g + 1, g);
    assert Decompose(g, g).0 == 0 && Decompose(2 * g + 1, g) == (1, 1);
  }

  lemma NoHint(r: int, g: Gamma2)
    ensures UseHint(0, r, g) == HighBits(r, g)
  {
  }

  lemma Wrap(r: int, t: int, s: int)
    requires 0 <= r < 8380417 && 0 <= s < 8380417 && -261888 <= t <= 261888 && Cong(s, r + t)
    ensures s == r + t || s == r + t - 8380417 || s == r + t + 8380417
  {
  }

  /** Decompose as a relation between plain integers. */
  predicate Split(x: int, g: int, r1: int, r0: int) {
    && 0 <= r1 && r1 * (2 * g) < 8380416
    && ((x == r1 * (2 * g) + r0 && -g < r0 <= g) || (r1 == 0 && r0 == x - 8380417 && -g <= r0 < 0))
  }

  lemma RecoverSmall(r: int, t: int, s: int)
    requires 0 <= r < 8380417 && 0 <= s < 8380417 && -95232 <= t <= 95232
    requires s == r + t || s == r + t - 8380417 || s == r + t + 8380417
    ensures var (r1, r0) := Decompose(s, 95232);
      var h := HighBits(r, 95232);
      r1 != h ==> h == if r0 > 0 then (if r1 + 1 == 44 then 0 else r1 + 1) else (if r1 == 0 then 43 else r1 - 1)
  {
    hide Decompose;
    RedSmall(r);
    RedSmall(s);
    NeighboursSmall(r, Decompose(r, 95232).0, Decompose(r, 95232).1, s, Decompose(s, 95232).0, Decompose(s, 95232).1, t);
  }

  lemma NeighboursSmall(r: int, h: int, l: int, s: int, r1: int, r0: int, t: int)
    requires 0 <= r < 8380417 && 0 <= s < 8380417 && -95232 <= t <= 95232
    requires s == r + t || s == r + t - 8380417 || s == r + t + 8380417
    requires Split(r, 95232, h, l) && Split(s, 95232, r1, r0)
    ensures r1 != h ==> h == if r0 > 0 then (if r1 + 1 == 44 then 0 else r1 + 1) else (if r1 == 0 then 43 else r1 - 1)
  {
  }

  lemma RecoverLarge(r: int, t: int, s: int)
    requires 0 <= r < 8380417 && 0 <= s < 8380417 && -261888 <= t <= 261888
    requires s == r + t || s == r + t - 8380417 || s == r + t + 8380417
    ensures var (r1, r0) := Decompose(s, 261888);
      var h := HighBits(r, 261888);
      r1 != h ==> h == if r0 > 0 then (if r1 + 1 == 16 then 0 else r1 + 1) else (if r1 == 0 then 15 else r1 - 1)
  {
    hide Decompose;
    RedSmall(r);
    RedSmall(s);
    NeighboursLarge(r, Decompose(r, 261888).0, Decompose(r, 261888).1, s, Decompose(s, 261888).0, Decompose(s, 261888).1, t);
  }

  lemma NeighboursLarge(r: int, h: int, l: int, s: int, r1: int, r0: int, t: int)
    requires 0 <= r < 8380417 && 0 <= s < 8380417 && -261888 <= t <= 261888
    requires s == r + t || s == r + t - 8380417 || s == r + t + 8380417
    requires Split(r, 261888, h, l) && Split(s, 261888, r1, r0)
    ensures r1 != h ==> h == if r0 > 0 then (if r1 + 1 == 16 then 0 else r1 + 1) else (if r1 == 0 then 15 else r1 - 1)
  {
  }

  /** If the low bits of v leave room for a perturbation of size beta, then no such
      perturbation changes the high bits. */
  lemma HighBitsStable(w: int, v: int, e: int, beta: int, g: Gamma2)
    requires 0 <= w < 8380417 && 0 <= v < 8380417
    requires -beta <= e <= beta && Cong(w, v + e)
    requires -(g - beta) < LowBits(v, g) < g - beta
    ensures HighBits(w, g) == HighBits(v, g)
  {
    hide Decompose;
    RedSmall(w);
    RedSmall(v);
    Wrap(v, e, w);
    var (h, l) := Decompose(v, g);
    var (r1, r0) := Decompose(w, g);
    if g == 95232 {
      StableSmall(v, h, l, w, r1, r0, e);
    } else {
      StableLarge(v, h, l, w, r1, r0, e);
    }
  }

  lemma StableSmall(v: int, h: int, l: int, w: int, r1: int, r0: int, e: int)
    requires 0 <= v < 8380417 && 0 <= w < 8380417
    requires w == v + e || w == v + e - 8380417 || w == v + e + 8380417
    requires Split(v, 95232, h, l) && Split(w, 95232, r1, r0) && -95232 < l + e < 95232
    ensures r1 == h
  {
  }

  lemma StableLarge(v: int, h: int, l: int, w: int, r1: int, r0: int, e: int)
    requires 0 <= v < 8380417 && 0 <= w < 8380417
    requires w == v + e || w == v + e - 8380417 || w == v + e + 8380417
    requires Split(v, 261888, h, l) && Split(w, 261888, r1, r0) && -261888 < l + e < 261888
    ensures r1 == h
  {
  }
}
