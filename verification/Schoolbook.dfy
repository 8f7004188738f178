/**
 The products of the scheme without the transform: a matrix row times a vector is a sum of
 schoolbook products modulo x^256 + 1, once the matrix is taken back from the transformed domain in
 which it is sampled.
 */
module Schoolbook {
  import opened Modular
  import opened NttTree
  import opened Convolution
  import opened Transform
  import opened BitPacking
  import opened Sampling
  import opened Challenge
  import opened PolyAlgebra
  import opened Scheme

  /** Coefficient k of the sum of the first n schoolbook products of a row, whose entries are in the
      transformed domain, with a vector. */
  ghost function SumAt(row: PolyVec, v: PolyVec, n: nat, k: nat): int
    requires n <= |row| && n <= |v| && k < 256
  {
    if n == 0 then 0 else SumAt(row, v, n - 1, k) + Negacyclic(Backward(row[n - 1]), v[n - 1])[k]
  }

  ghost predicate ReducedVec(row: PolyVec) {
    forall i :: 0 <= i < |row| ==> ReducedPoly(row[i])
  }

  /** One transformed entry times a transformed polynomial. */
  lemma EntryProduct(u: Poly256, v: Poly256)
    requires ReducedPoly(u)
    ensures Backward(Pointwise(u, Forward(v))) == Negacyclic(Backward(u), v)
  {
    hide Forward, Backward, Pointwise, Negacyclic, RedPoly, ReducedPoly;
    ForwardOfBackward(u);
    ResiduesOfReduced(u);
    ProductTheorem(Backward(u), v);
  }

  lemma RowStep(row: PolyVec, v: PolyVec, n: nat)
    requires 0 < n <= |row| == |v|
    ensures RowAcc(row, ForwardVec(v), n) == AddRed(RowAcc(row, ForwardVec(v), n - 1), Pointwise(row[n - 1], Forward(v[n - 1])))
  {
    hide AddRed, Pointwise, Forward;
  }

  lemma ZeroBack(k: nat)
    requires k < 256
    ensures Backward(Zero())[k] == 0
  {
    hide Forward, Backward, SubRed, Red;
    ZeroIsReduced();
    BackwardLinear(Zero(), Zero());
    assert SubRed(Zero(), Zero()) == Zero() by { ZeroMinusZero(); }
    AddRedAt(Backward(Zero()), Backward(Zero()), k);
    RedOfZero();
  }

  lemma RedOfZero()
    ensures Red(0) == 0
  {
  }

  lemma ZeroMinusZero()
    ensures SubRed(Zero(), Zero()) == Zero()
  {
  }

  lemma ZeroIsReduced()
    ensures ReducedPoly(Zero())
  {
  }

  /** A row product, transformed back, is the schoolbook sum. */
  lemma {:induction false} RowAt(row: PolyVec, v: PolyVec, n: nat, k: nat)
    requires ReducedVec(row) && n <= |row| == |v| && k < 256
    ensures Backward(RowAcc(row, ForwardVec(v), n))[k] == Red(SumAt(row, v, n, k))
  {
    hide Forward, Backward, Pointwise, Negacyclic, AddRed, RowAcc, ReducedPoly, Red;
    if n == 0 {
      NoRow(row, v);
      ZeroBack(k);
      RedOfZero();
    } else {
      RowAt(row, v, n - 1, k);
      RowStep(row, v, n);
      var acc, p: Poly256 := RowAcc(row, ForwardVec(v), n - 1), Pointwise(row[n - 1], Forward(v[n - 1]));
      RowAccReduced(row, ForwardVec(v), n - 1);
      PointwisePoly(row[n - 1], Forward(v[n - 1]));
      BackwardLinear(acc, p);
      EntryProduct(row[n - 1], v[n - 1]);
      AddRedAt(Backward(acc), Backward(p), k);
      RedAdd(SumAt(row, v, n - 1, k), Negacyclic(Backward(row[n - 1]), v[n - 1])[k]);
    }
  }

  lemma NoRow(row: PolyVec, v: PolyVec)
    requires |row| == |v|
    ensures RowAcc(row, ForwardVec(v), 0) == Zero()
  {
    hide Forward;
  }

  lemma PointwisePoly(u: Poly256, v: Poly256)
    ensures ReducedPoly(Pointwise(u, v))
  {
    hide Pointwise;
    PointwiseReduced(u, v);
  }

  lemma MatrixRowReduced(x: Xof, rho: seq<byte>, r: nat, l: nat)
    ensures ReducedVec(MatrixRow(x, rho, r, l))
  {
    hide MatrixEntry, ReducedPoly;
    forall s | 0 <= s < l
      ensures ReducedPoly(MatrixRow(x, rho, r, l)[s])
    {
      MatrixEntryReduced(x, rho, s, r);
    }
  }

  /** The coefficients of t1·2^13, not reduced. */
  function Shifted(t1: T1Poly): Poly256 {
    seq(256, c requires 0 <= c < 256 => t1[c] * 8192)
  }

  lemma NegacyclicCong(a: Poly256, b: Poly256, b': Poly256)
    requires CongSeq(b, b')
    ensures Negacyclic(a, b) == Negacyclic(a, b')
  {
    hide MulMod, RedPoly, Red;
    CongRefl(a);
    MulModCong(a, a, b, b', -1, -1);
    SameResidues(MulMod(a, b, -1), MulMod(a, b', -1));
  }

  lemma ScaledCong(t1: T1Poly)
    ensures CongSeq(ScaledT1(t1), Shifted(t1))
  {
    hide Red;
    forall c | 0 <= c < 256
      ensures Cong(ScaledT1(t1)[c], Shifted(t1)[c])
    {
      RedRed(t1[c] * 8192);
    }
  }

  lemma ShiftedProduct(c: Poly256, t1: T1Poly)
    ensures Backward(Pointwise(Forward(c), Forward(ScaledT1(t1)))) == Negacyclic(c, Shifted(t1))
  {
    hide Forward, Backward, Pointwise, Negacyclic, CongSeq, ScaledT1, Shifted;
    ProductTheorem(c, ScaledT1(t1));
    ScaledCong(t1);
    NegacyclicCong(c, ScaledT1(t1), Shifted(t1));
  }

  lemma RecomputedIs(row: PolyVec, z: PolyVec, c: Poly256, t1: T1Poly)
    requires |row| == |z|
    ensures Recomputed(row, z, c, t1) == SubRed(Backward(RowAcc(row, ForwardVec(z), |row|)), Negacyclic(c, Shifted(t1)))
  {
    hide Forward, Backward, Pointwise, Negacyclic, SubRed, RowAcc, ReducedPoly, ScaledT1, Shifted;
    var a: Poly256, p: Poly256 := RowAcc(row, ForwardVec(z), |row|), Pointwise(Forward(c), Forward(ScaledT1(t1)));
    RowAccReduced(row, ForwardVec(z), |row|);
    PointwisePoly(Forward(c), Forward(ScaledT1(t1)));
    BackwardLinear(a, p);
    ShiftedProduct(c, t1);
  }

  /** What the verifier recomputes, without the transform: A·z - c·t1·2^13. */
  lemma RecomputedAt(row: PolyVec, z: PolyVec, c: Poly256, t1: T1Poly, k: nat)
    requires ReducedVec(row) && |row| == |z| && k < 256
    ensures Recomputed(row, z, c, t1)[k] == Red(SumAt(row, z, |row|, k) - Negacyclic(c, Shifted(t1))[k])
  {
    hide Recomputed, Backward, Negacyclic, SubRed, RowAcc, ReducedVec, Red, Shifted, SumAt;
    RecomputedIs(row, z, c, t1);
    RowAt(row, z, |row|, k);
    var back: Poly256, product: Poly256 := Backward(RowAcc(row, ForwardVec(z), |row|)), Negacyclic(c, Shifted(t1));
    AddRedAt(back, product, k);
    RedAdd(SumAt(row, z, |row|, k), product[k]);
  }
}
