/**
 The root-of-unity table of the negacyclic transform: zetas[i] = 1753^bitrev8(i) mod Q and
 ninv = 256^(Q-2) mod Q, built by loops at start-up, and the relations between the entries
 on which the transform rests.
 */
module Zetas {
  import opened Arith
  import opened Modular

  /** The low n bits of x, lowest bit first in the most significant place. */
  function BitRev(x: nat, n: nat): nat {
    if n == 0 then 0 else (if x % 2 == 1 then Exp2(n - 1) else 0) + BitRev(x / 2, n - 1)
  }

  function Shift(x: nat, n: nat): nat {
    if n == 0 then x else Shift(x / 2, n - 1)
  }

  /** Entry k of the table, as the comment beside its declaration defines it. */
  function Zeta(k: nat): (z: int)
    ensures 0 <= z < 8380417
  {
    Red(Pow(1753, BitRev(k, 8)))
  }

  const NINV: int := 8347681

  ghost function ZetaTable(): (zs: seq<int>)
    ensures |zs| == 256
    ensures forall i :: 0 <= i < 256 ==> zs[i] == Zeta(i)
  {
    seq(256, i requires 0 <= i => Zeta(i))
  }

  datatype Tables = Tables(zetas: seq<int>, ninv: int) {
    ghost predicate Valid() {
      zetas == ZetaTable() && ninv == NINV
    }
  }

  /** `bitrev8`: eight steps of shift-and-or. */
  method BitRev8(x: nat) returns (r: nat)
    ensures r == BitRev(x, 8)
  {
    r := 0;
    var shifted := x;
    for i := 0 to 8
      invariant r == BitRev(x, i)
      invariant shifted == Shift(x, i)
    {
      BitRevAppend(x, i);
      r := 2 * r + shifted % 2;
      shifted := shifted / 2;
    }
  }

  /** Reversing one bit more doubles the result and adds that bit. */
  lemma {:induction false} BitRevAppend(x: nat, n: nat)
    ensures BitRev(x, n + 1) == 2 * BitRev(x, n) + Shift(x, n) % 2
    ensures Shift(x, n + 1) == Shift(x, n) / 2
  {
    if n > 0 {
      BitRevAppend(x / 2, n - 1);
    } else {
      assert BitRev(x / 2, 0) == 0;
    }
  }

  /** `modPow` for the modulus Q: square and multiply; an exponent below one gives 1. */
  method ModPow(base: int, exp: int) returns (r: int)
    requires IsInt64(base)
    ensures exp <= 0 ==> r == 1
    ensures exp > 0 ==> r == Red(Pow(base, exp))
  {
    hide Pow, Red;
    var b := Rem(base, 8380417);
    RemRed(base);
    Periodic(b, 1);
    if b < 0 {
      b := b + 8380417;
    }
    r := 1;
    if exp <= 0 {
      return;
    }
    var e: nat := exp;
    PowCong(b, base, e);
    while e > 0
      invariant 0 <= b < 8380417 && 0 <= r < 8380417
      invariant Cong(r * Pow(b, e), Pow(base, exp))
    {
      ghost var r0, b0 := r, b;
      if e % 2 == 1 {
        Product64(r, b);
        r := MulRem(r, b);
      }
      Product64(b, b);
      b := MulRem(b, b);
      SquareMultiply(r0, b0, e, r, b);
      e := e / 2;
    }
    PowZero(b, r);
    RedSmall(r);
  }

  lemma PowZero(b: int, r: int)
    ensures r * Pow(b, 0) == r
  {
  }

  /** One round of square-and-multiply keeps r·b^e. */
  lemma SquareMultiply(r: int, b: int, e: nat, r': int, b': int)
    requires e > 0 && Cong(b', b * b) && Cong(r', if e % 2 == 1 then r * b else r)
    ensures Cong(r' * Pow(b', e / 2), r * Pow(b, e))
  {
    PowHalve(b, e);
    PowCong(b', b * b, e / 2);
    Reassociate(r, b, e % 2 == 1, r', Pow(b', e / 2), Pow(b * b, e / 2));
  }

  lemma Reassociate(r: int, b: int, odd: bool, r': int, p: int, rest: int)
    requires Cong(r', if odd then r * b else r) && Cong(p, rest)
    ensures Cong(r' * p, r * ((if odd then b else 1) * rest))
  {
    CongMul(r', if odd then r * b else r, p, rest);
    assert r * b * rest == r * (b * rest);
  }

  lemma Product64(x: int, y: int)
    requires 0 <= x < 8380417 && 0 <= y < 8380417
    ensures 0 <= x * y && IsInt64(x * y)
  {
    MulLe(x, y, 8380417, 8380417);
  }

  lemma PowHalve(b: int, e: nat)
    requires e > 0
    ensures Pow(b, e) == (if e % 2 == 1 then b else 1) * Pow(b * b, e / 2)
  {
    PowSquare(b, e / 2);
    assert e % 2 == 1 ==> Pow(b, e) == b * Pow(b, 2 * (e / 2));
  }

  lemma {:induction false} PowSquare(b: int, h: nat)
    ensures Pow(b * b, h) == Pow(b, 2 * h)
  {
    if h > 0 {
      PowSquare(b, h - 1);
      assert Pow(b, 2 * h) == b * (b * Pow(b, 2 * (h - 1)));
    }
  }

  /** The package initialiser. */
  method InitTables() returns (t: Tables)
    ensures t.Valid()
  {
    var zetas: seq<int> := [];
    for i := 0 to 256
      invariant |zetas| == i
      invariant forall j :: 0 <= j < i ==> zetas[j] == Zeta(j)
    {
      var e := BitRev8(i);
      var z := ModPow(1753, e);
      zetas := zetas + [z];
    }
    var exp := 8380417 - 2;
    var ninv := ModPow(256, exp);
    FermatInverse(exp);
    t := Tables(zetas, ninv);
  }

  /** One double-and-add step of an exponent chain, with the residues checked as numbers. */
  lemma PowStep(b: int, e: nat, v: int, odd: bool, w: int) returns (f: nat)
    requires Red(Pow(b, e)) == v
    requires Red(v * v * (if odd then b else 1)) == w
    ensures f == e + e + (if odd then 1 else 0)
    ensures Red(Pow(b, f)) == w
  {
    f := e + e;
    PowAdd(b, e, e);
    StepResidue(Pow(b, e), v, b);
    if odd {
      f := f + 1;
      assert Pow(b, f) == b * Pow(b, f - 1);
    }
  }

  lemma StepResidue(p: int, v: int, b: int)
    requires Cong(p, v)
    ensures Cong(p * p, v * v)
    ensures Cong(b * (p * p), v * v * b)
  {
    CongMul(p, v, p, v);
    CongMul(p * p, v * v, b, b);
  }

  lemma PowOne(b: int)
    ensures Pow(b, 1) == b
  {
    assert Pow(b, 1) == b * Pow(b, 0);
  }

  /** 1753 is a primitive 512-th root of unity: its 256-th power is -1. */
  lemma RootHalfOrder(half: nat)
    requires half + half == 512
    ensures Cong(Pow(1753, half), -1)
  {
    hide Pow;
    PowOne(1753);
    var e: nat := 1;
    e := PowStep(1753, e, 1753, false, 3073009);
    e := PowStep(1753, e, 3073009, false, 3602218);
    e := PowStep(1753, e, 3602218, false, 5010068);
    e := PowStep(1753, e, 5010068, false, 7778734);
    e := PowStep(1753, e, 7778734, false, 5178923);
    e := PowStep(1753, e, 5178923, false, 3765607);
    e := PowStep(1753, e, 3765607, false, 4808194);
    e := PowStep(1753, e, 4808194, false, 8380416);
    assert e == half;
  }

  /** The Fermat power the initialiser computes is the inverse of 256. */
  lemma FermatInverse(exp: nat)
    requires exp + 2 == 8380417
    ensures Red(Pow(256, exp)) == NINV
    ensures Cong(256 * NINV, 1)
  {
    hide Pow;
    PowOne(256);
    var e: nat := 1;
    e := PowStep(256, e, 256, true, 16382);
    e := PowStep(256, e, 16382, true, 41978);
    e := PowStep(256, e, 41978, true, 1569211);
    e := PowStep(256, e, 1569211, true, 7778913);
    e := PowStep(256, e, 7778913, true, 1620757);
    e := PowStep(256, e, 1620757, true, 5459360);
    e := PowStep(256, e, 5459360, true, 4699327);
    e := PowStep(256, e, 4699327, true, 7803087);
    e := PowStep(256, e, 7803087, false, 3983976);
    e := PowStep(256, e, 3983976, true, 4236571);
    e := PowStep(256, e, 4236571, true, 679363);
    e := PowStep(256, e, 679363, true, 591891);
    e := PowStep(256, e, 591891, true, 924928);
    e := PowStep(256, e, 924928, true, 3743169);
    e := PowStep(256, e, 3743169, true, 3357099);
    e := PowStep(256, e, 3357099, true, 8333727);
    e := PowStep(256, e, 8333727, true, 32736);
    e := PowStep(256, e, 32736, true, 8347681);
    e := PowStep(256, e, 8347681, true, 8347681);
    e := PowStep(256, e, 8347681, true, 8347681);
    e := PowStep(256, e, 8347681, true, 8347681);
    e := PowStep(256, e, 8347681, true, 8347681);
    assert e == exp;
  }

  /** Products of entries add exponents. */
  lemma ZetaProduct(k: nat, l: nat)
    ensures Cong(Zeta(k) * Zeta(l), Pow(1753, BitRev(k, 8) + BitRev(l, 8)))
  {
    hide Pow, BitRev;
    ResidueProduct(1753, BitRev(k, 8), BitRev(l, 8), Zeta(k), Zeta(l));
  }

  lemma ResidueProduct(b: int, e: nat, f: nat, x: int, y: int)
    requires Cong(x, Pow(b, e)) && Cong(y, Pow(b, f))
    ensures Cong(x * y, Pow(b, e + f))
  {
    PowAdd(b, e, f);
    CongMul(x, Pow(b, e), y, Pow(b, f));
  }

  lemma HalfTurn(half: nat, e: nat, z: int)
    requires half + half == 512 && Cong(z, Pow(1753, e))
    ensures Cong(Pow(1753, half + e), -z)
  {
    PowAdd(1753, half, e);
    RootHalfOrder(half);
    CongMul(Pow(1753, half), -1, Pow(1753, e), z);
  }

  lemma ChildExponents(k: nat, n: nat)
    requires 1 <= n && k < Exp2(n - 1)
    ensures 2 * BitRev(2 * k, n) == BitRev(k, n)
    ensures 2 * BitRev(2 * k + 1, n) == Exp2(n) + BitRev(k, n)
  {
    BitRevAppend(k, n - 1);
    ShiftOut(k, n - 1);
  }

  lemma {:induction false} ShiftOut(x: nat, n: nat)
    requires x < Exp2(n)
    ensures Shift(x, n) == 0
  {
    if n > 0 {
      ShiftOut(x / 2, n - 1);
    }
  }

  /** A node's two children hold the two square roots: of its own value and of its negation. */
  lemma ChildSquares(k: nat)
    requires 1 <= k < 128
    ensures Cong(Zeta(2 * k) * Zeta(2 * k), Zeta(k))
    ensures Cong(Zeta(2 * k + 1) * Zeta(2 * k + 1), -Zeta(k))
  {
    hide Pow, BitRev;
    assert Exp2(7) == 128 && Exp2(8) == 256 by { Exp2Table(); }
    ChildExponents(k, 8);
    ZetaProduct(2 * k, 2 * k);
    ZetaProduct(2 * k + 1, 2 * k + 1);
    HalfTurn(Exp2(8), BitRev(k, 8), Zeta(k));
  }

  /** The root node squares to -1: the transform starts from x^256 + 1. */
  lemma RootSquare()
    ensures Cong(Zeta(1) * Zeta(1), -1)
  {
    hide Pow, BitRev;
    ZetaProduct(1, 1);
    MirrorSum(0, 0, 8);
    assert Exp2(8) == 256 by { Exp2Table(); }
    RootHalfOrder(Exp2(8));
  }

  /** Mirrored indices inside one level reverse to exponents that add up to 2^n. */
  lemma {:induction false} MirrorSum(t: nat, i: nat, n: nat)
    requires t < n && i < Exp2(t)
    ensures BitRev(Exp2(t) + i, n) + BitRev(2 * Exp2(t) - 1 - i, n) == Exp2(n)
  {
    var m := Exp2(t);
    if t == 0 {
      ZeroRev(n - 1);
    } else {
      var h := Exp2(t - 1);
      MirrorSum(t - 1, i / 2, n - 1);
      assert (m + i) / 2 == h + i / 2 && (2 * m - 1 - i) / 2 == 2 * h - 1 - i / 2;
    }
  }

  lemma {:induction false} ZeroRev(n: nat)
    ensures BitRev(0, n) == 0
  {
    if n > 0 {
      ZeroRev(n - 1);
    }
  }

  lemma Exp2Table()
    ensures Exp2(0) == 1 && Exp2(1) == 2 && Exp2(2) == 4 && Exp2(3) == 8 && Exp2(4) == 16
    ensures Exp2(5) == 32 && Exp2(6) == 64 && Exp2(7) == 128 && Exp2(8) == 256
  {
  }

  lemma NegatedFactor(x: int, y: int)
    requires Cong(x * y, -1)
    ensures Cong(x * (8380417 - y), 1)
  {
    assert x * (8380417 - y) == 8380417 * x - x * y;
  }

  /** The negated entry at the mirrored index, which the inverse transform multiplies by,
      is the inverse of the entry the forward transform used for the same block. */
  lemma MirrorInverse(t: nat, i: nat)
    requires t < 8 && i < Exp2(t)
    ensures Cong(Zeta(Exp2(t) + i) * (8380417 - Zeta(2 * Exp2(t) - 1 - i)), 1)
  {
    hide Pow, BitRev;
    var k, l := Exp2(t) + i, 2 * Exp2(t) - 1 - i;
    MirrorSum(t, i, 8);
    assert Exp2(8) == 256 by { Exp2Table(); }
    ZetaProduct(k, l);
    RootHalfOrder(Exp2(8));
    NegatedFactor(Zeta(k), Zeta(l));
  }
}
