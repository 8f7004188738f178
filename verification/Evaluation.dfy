/**
 What the transform computes, without its tree: coefficient i of the transform of a polynomial is
 the value of the polynomial at 1753^(2·bitrev8(i) + 1), the odd powers of the root in bit-reversed
 order. Hence the inverse transform is interpolation at those points.
 */
module Evaluation {
  import opened Modular
  import opened Zetas
  import opened NttTree
  import opened Transform

  /** The value of a polynomial. */
  function Eval(a: Poly, x: int): int {
    if a == [] then 0 else a[0] + x * Eval(a[1..], x)
  }

  lemma Horner(c: int, x: int, e: int, p: int, f: int)
    ensures c + x * (e + p * f) == c + x * e + x * p * f
  {
    assert x * (e + p * f) == x * e + x * (p * f);
    assert x * (p * f) == x * p * f;
  }

  lemma {:induction false} EvalConcat(a: Poly, b: Poly, x: int)
    ensures Eval(a + b, x) == Eval(a, x) + Pow(x, |a|) * Eval(b, x)
  {
    if a == [] {
      assert a + b == b;
    } else {
      EvalConcat(a[1..], b, x);
      assert (a + b)[1..] == a[1..] + b;
      Horner(a[0], x, Eval(a[1..], x), Pow(x, |a| - 1), Eval(b, x));
    }
  }

  lemma LinearStep(c: int, z: int, d: int, x: int, e: int, f: int)
    ensures c + z * d + x * (e + z * f) == c + x * e + z * (d + x * f)
  {
    assert x * (e + z * f) == x * e + x * z * f;
    assert z * (d + x * f) == z * d + z * x * f;
    assert x * z * f == z * x * f;
  }

  /** Evaluation is linear, up to residues. */
  lemma {:induction false} EvalCombined(a: Poly, b: Poly, z: int, r: Poly, x: int)
    requires |a| == |b| == |r| && forall j :: 0 <= j < |r| ==> Cong(r[j], a[j] + z * b[j])
    ensures Cong(Eval(r, x), Eval(a, x) + z * Eval(b, x))
  {
    hide Red;
    if r != [] {
      EvalCombined(a[1..], b[1..], z, r[1..], x);
      var e, f := Eval(a[1..], x), Eval(b[1..], x);
      CongMul(x, x, Eval(r[1..], x), e + z * f);
      CongAdd(r[0], a[0] + z * b[0], x * Eval(r[1..], x), x * (e + z * f));
      LinearStep(a[0], z, b[0], x, e, f);
    }
  }

  /** At a root of x^L = z, a polynomial and its residue modulo x^L - z have the same value. */
  lemma EvalHalf(front: Poly, back: Poly, z: int, r: Poly, x: int)
    requires |front| == |back| == |r| && Cong(Pow(x, |front|), z)
    requires forall j :: 0 <= j < |r| ==> Cong(r[j], front[j] + z * back[j])
    ensures Cong(Eval(r, x), Eval(front + back, x))
  {
    hide Red, Eval, Pow;
    EvalCombined(front, back, z, r, x);
    EvalConcat(front, back, x);
    var e, f := Eval(front, x), Eval(back, x);
    CongMul(Pow(x, |front|), z, f, f);
    CongAdd(e, e, Pow(x, |front|) * f, z * f);
  }

  lemma EvalLoHi(a: Poly, z: int, x: int)
    requires |a| % 2 == 0
    ensures Cong(Pow(x, |a| / 2), z) ==> Cong(Eval(Lo(a, z), x), Eval(a, x))
    ensures Cong(Pow(x, |a| / 2), -z) ==> Cong(Eval(Hi(a, z), x), Eval(a, x))
  {
    hide Red, Eval, Pow, Lo, Hi;
    var l := |a| / 2;
    var front, back, lo, hi := a[..l], a[l..], Lo(a, z), Hi(a, z);
    assert front + back == a;
    forall j | 0 <= j < l
      ensures Cong(lo[j], front[j] + z * back[j]) && Cong(hi[j], front[j] + -z * back[j])
    {
      LoHiAt(a, z, j);
      assert back[j] == a[j + l];
      RedRed(a[j] + z * a[j + l]);
      RedRed(a[j] - z * a[j + l]);
      NegProduct(z, a[j + l]);
    }
    if Cong(Pow(x, l), z) {
      EvalHalf(front, back, z, lo, x);
    }
    if Cong(Pow(x, l), -z) {
      EvalHalf(front, back, -z, hi, x);
    }
  }

  lemma NegProduct(z: int, y: int)
    ensures -z * y == -(z * y)
  {
  }

  /** The powers of x meet the roots on the way from node k down to its leaf j. */
  ghost predicate OnPath(zs: seq<int>, k: nat, d: nat, j: nat, x: int)
    requires |zs| == 256 && Node(k, d) && j < Exp2(d)
    decreases d
  {
    d == 0 ||
    (NodeRange(k, d);
     var l := Exp2(d - 1);
     if j < l then Cong(Pow(x, l), zs[k]) && OnPath(zs, 2 * k, d - 1, j, x)
     else Cong(Pow(x, l), -zs[k]) && OnPath(zs, 2 * k + 1, d - 1, j - l, x))
  }

  lemma EvalOne(a: Poly, x: int)
    requires |a| == 1
    ensures Eval(a, x) == a[0]
  {
    assert Eval(a[1..], x) == 0;
  }

  lemma {:induction false} NttEvaluates(zs: seq<int>, a: Poly, k: nat, d: nat, j: nat, x: int)
    requires |zs| == 256 && Node(k, d) && |a| == Exp2(d) && j < Exp2(d) && OnPath(zs, k, d, j, x)
    ensures Cong(Ntt(zs, a, k, d)[j], Eval(a, x))
    decreases d
  {
    hide Red, Eval, Pow, Lo, Hi, Node, Exp2, Ntt;
    if d == 0 {
      NttLeaf(zs, a, k);
      EvalOne(a, x);
      RedRed(a[0]);
    } else {
      NttStep(zs, a, k, d);
      var l := Exp2(d - 1);
      EvalLoHi(a, zs[k], x);
      if j < l {
        NttEvaluates(zs, Lo(a, zs[k]), 2 * k, d - 1, j, x);
      } else {
        NttEvaluates(zs, Hi(a, zs[k]), 2 * k + 1, d - 1, j - l, x);
      }
    }
  }

  // ---- the points ---------------------------------------------------------------------------------

  lemma SquareOfSign(u: int, z: int, plus: bool)
    requires Cong(u, if plus then z else -z)
    ensures Cong(u * u, z * z)
  {
    CongMul(u, if plus then z else -z, u, if plus then z else -z);
    assert -z * -z == z * z;
  }

  lemma PowDouble(x: int, d: nat)
    requires d > 1
    ensures Pow(x, Exp2(d - 1)) == Pow(x, Exp2(d - 2)) * Pow(x, Exp2(d - 2))
  {
    var l := Exp2(d - 2);
    assert Exp2(d - 1) == l + l;
    PowAdd(x, l, l);
  }

  /** x meets plus or minus the root of a node, depending on the side its leaf is on. */
  ghost predicate Meets(zs: seq<int>, k: nat, d: nat, j: nat, x: int)
    requires |zs| == 256 && k < 256 && d > 0
  {
    var l := Exp2(d - 1);
    Cong(Pow(x, l), if j < l then zs[k] else -zs[k])
  }

  lemma PathStep(zs: seq<int>, k: nat, d: nat, j: nat, x: int, c: nat, i: nat)
    requires |zs| == 256 && Node(k, d) && d > 0 && j < Exp2(d) && k < 256 && Meets(zs, k, d, j, x)
    requires var l := Exp2(d - 1); if j < l then c == 2 * k && i == j else c == 2 * k + 1 && i == j - l
    requires Node(c, d - 1) && i < Exp2(d - 1) && OnPath(zs, c, d - 1, i, x)
    ensures OnPath(zs, k, d, j, x)
  {
    hide Red, Pow, Node, Exp2;
  }

  lemma MeetsParent(zs: seq<int>, k: nat, d: nat, j: nat, x: int, c: nat, i: nat)
    requires Roots(zs) && d > 1 && 1 <= k < 128
    requires var l := Exp2(d - 1); if j < l then c == 2 * k && i == j else c == 2 * k + 1 && i == j - l
    requires Meets(zs, c, d - 1, i, x)
    ensures Meets(zs, k, d, j, x)
  {
    hide Red, Pow, Node, Exp2, Roots;
    assert |zs| == 256 by { RootsSize(zs); }
    PowDouble(x, d);
    SquareOfSign(Pow(x, Exp2(d - 2)), zs[c], i < Exp2(d - 2));
    ChildOf(zs, k);
  }

  lemma RootsSize(zs: seq<int>)
    requires Roots(zs)
    ensures |zs| == 256
  {
  }

  /** Squaring on the way up, x meets plus or minus the root of every node above its leaf. */
  lemma {:induction false} Climb(zs: seq<int>, k: nat, d: nat, j: nat, x: int, leaf: nat)
    requires Roots(zs) && Node(k, d) && j < Exp2(d) && leaf == k * Exp2(d) + j && 256 <= leaf < 512
    requires Cong(x, if leaf % 2 == 0 then zs[leaf / 2] else -zs[leaf / 2])
    ensures OnPath(zs, k, d, j, x) && (d > 0 ==> k < 256 && Meets(zs, k, d, j, x))
    decreases d
  {
    hide Red, Pow, Node, Exp2, Roots, Meets;
    RootsSize(zs);
    if d > 0 {
      NodeRange(k, d);
      var l := Exp2(d - 1);
      var c, i := if j < l then 2 * k else 2 * k + 1, if j < l then j else j - l;
      ChildLeaf(k, l, j);
      Climb(zs, c, d - 1, i, x, leaf);
      if d == 1 {
        FirstPower(zs, x, leaf, k, j);
      } else {
        MeetsParent(zs, k, d, j, x, c, i);
      }
      PathStep(zs, k, d, j, x, c, i);
    }
  }

  lemma ChildOf(zs: seq<int>, k: nat)
    requires Roots(zs) && 1 <= k < 128
    ensures Cong(zs[2 * k] * zs[2 * k], zs[k]) && Cong(zs[2 * k + 1] * zs[2 * k + 1], -zs[k])
  {
    hide Red, Node, Exp2;
    assert ChildRoots(zs, k);
  }

  lemma ChildLeaf(k: nat, l: nat, j: nat)
    ensures k * (2 * l) + j == if j < l then 2 * k * l + j else (2 * k + 1) * l + (j - l)
  {
    assert k * (2 * l) == 2 * k * l;
    assert (2 * k + 1) * l == 2 * k * l + l;
  }

  lemma FirstPower(zs: seq<int>, x: int, leaf: nat, k: nat, j: nat)
    requires |zs| == 256 && k < 256 && j < Exp2(1) && leaf == k * Exp2(1) + j
    requires leaf < 512 && Cong(x, if leaf % 2 == 0 then zs[leaf / 2] else -zs[leaf / 2])
    ensures Meets(zs, k, 1, j, x)
  {
    hide Red, Pow;
    PowOne(x);
    assert Exp2(0) == 1 && Exp2(1) == 2;
  }

  // ---- the exponents --------------------------------------------------------------------------------

  lemma {:induction false} LowBits(x: nat, n: nat)
    ensures BitRev(x + Exp2(n), n) == BitRev(x, n)
    ensures x < Exp2(n) ==> Shift(x + Exp2(n), n) == 1
  {
    if n > 0 {
      var h := Exp2(n - 1);
      assert (x + 2 * h) / 2 == x / 2 + h && (x + 2 * h) % 2 == x % 2;
      LowBits(x / 2, n - 1);
    }
  }

  /** Point i is plus or minus the root at the last node above leaf i. */
  lemma PointAtLeaf(i: nat, x: int)
    requires i < 256 && x == Pow(1753, 2 * BitRev(i, 8) + 1)
    ensures var z := Zeta((256 + i) / 2); Cong(x, if i % 2 == 0 then z else -z)
  {
    hide Red, Pow, BitRev;
    var m, k := i / 2, (256 + i) / 2;
    LeafExponent(i, m, k);
    var e := BitRev(k, 8);
    RedRed(Pow(1753, e));
    if i % 2 == 1 {
      HalfTurn(256, e, Zeta(k));
    }
  }

  lemma LeafExponent(i: nat, m: nat, k: nat)
    requires i < 256 && m == i / 2 && k == 128 + m
    ensures 2 * BitRev(i, 8) + 1 == BitRev(k, 8) + if i % 2 == 1 then 256 else 0
  {
    assert Exp2(7) == 128;
    LowBits(m, 7);
    BitRevAppend(k, 7);
    assert BitRev(i, 8) == (if i % 2 == 1 then Exp2(7) else 0) + BitRev(m, 7);
  }

  lemma ForwardCong(a: Poly, i: nat, x: int)
    requires |a| == 256 && i < 256 && x == Pow(1753, 2 * BitRev(i, 8) + 1)
    ensures Cong(Forward(a)[i], Eval(a, x))
  {
    hide Red, Eval, Pow, Roots, OnPath, Meets, Zeta;
    var zs := ZetaTable();
    TableRoots();
    RootNode();
    PointAtLeaf(i, x);
    Climb(zs, 1, 8, i, x, 256 + i);
    NttEvaluates(zs, a, 1, 8, i, x);
  }

  /** Coefficient i of the transform is the residue of the value at 1753^(2·bitrev8(i) + 1). */
  lemma ForwardEvaluates(a: Poly, i: nat)
    requires |a| == 256 && i < 256
    ensures Forward(a)[i] == Red(Eval(a, Pow(1753, 2 * BitRev(i, 8) + 1)))
  {
    hide Red, Eval, Pow, Forward, BitRev;
    ForwardCong(a, i, Pow(1753, 2 * BitRev(i, 8) + 1));
    ForwardReduced(a);
    RedSmall(Forward(a)[i]);
  }

  /** The inverse transform gives a polynomial with the given values at those points. */
  lemma BackwardInterpolates(b: Poly, i: nat)
    requires |b| == 256 && i < 256
    ensures Cong(Eval(Backward(b), Pow(1753, 2 * BitRev(i, 8) + 1)), b[i])
  {
    hide Red, Eval, Pow, Forward, Backward, BitRev;
    ForwardOfBackward(b);
    ForwardEvaluates(Backward(b), i);
    RedRed(b[i]);
  }
}
