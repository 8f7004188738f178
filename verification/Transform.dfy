/**
 The transform the rest of the scheme uses: the tree of NttTree over the table of Zetas, and
 its laws. Forward and Backward undo each other, Forward is linear, and Backward of a
 pointwise product is the negacyclic product.
 */
module Transform {
  import opened Modular
  import opened Zetas
  import opened NttTree
  import opened Convolution

  /** Coefficients the code can hold: int32. */
  ghost predicate Int32Poly(a: Poly) {
    |a| == 256 && forall i :: 0 <= i < 256 ==> IsInt32(a[i])
  }

  ghost predicate ReducedPoly(a: Poly) {
    |a| == 256 && Reduced(a)
  }

  lemma RootNode()
    ensures Node(1, 8) && Exp2(8) == 256
  {
  }

  ghost function Forward(a: Poly): (r: Poly)
    requires |a| == 256
    ensures |r| == 256
  {
    RootNode();
    Ntt(ZetaTable(), a, 1, 8)
  }

  ghost function ScaleRed(e: int, a: Poly): (r: Poly)
    ensures |r| == |a|
  {
    seq(|a|, i requires 0 <= i < |a| => Red(e * a[i]))
  }

  ghost function Backward(b: Poly): (r: Poly)
    requires |b| == 256
    ensures |r| == 256
  {
    RootNode();
    ScaleRed(NINV, Inv(ZetaTable(), b, 1, 8))
  }

  ghost function RedPoly(a: Poly): (r: Poly)
    ensures |r| == |a|
  {
    seq(|a|, i requires 0 <= i < |a| => Red(a[i]))
  }

  ghost function Pointwise(u: Poly, v: Poly): (r: Poly)
    requires |u| == |v|
    ensures |r| == |u|
  {
    seq(|u|, i requires 0 <= i < |u| => Red(u[i] * v[i]))
  }

  ghost function AddRed(a: Poly, b: Poly): (r: Poly)
    requires |a| == |b|
    ensures |r| == |a|
  {
    seq(|a|, i requires 0 <= i < |a| => Red(a[i] + b[i]))
  }

  ghost function SubRed(a: Poly, b: Poly): (r: Poly)
    requires |a| == |b|
    ensures |r| == |a|
  {
    seq(|a|, i requires 0 <= i < |a| => Red(a[i] - b[i]))
  }

  /** The product modulo x^256 + 1 and Q. */
  ghost function Negacyclic(a: Poly, b: Poly): (c: Poly)
    requires |a| == |b|
    ensures |c| == |a|
  {
    RedPoly(MulMod(a, b, -1))
  }

  // ---- the table -----------------------------------------------------------------

  lemma TableRoots()
    ensures Roots(ZetaTable())
  {
    hide Red, Zeta, InvZeta, Node;
    var zs := ZetaTable();
    RootSquare();
    forall k | 1 <= k < 128
      ensures ChildRoots(zs, k)
    {
      ChildSquares(k);
    }
    forall k: nat, d: nat | Node(k, d) && d > 0
      ensures InverseAt(zs, k, d)
    {
      InverseEntry(zs, k, d);
    }
  }

  lemma InverseEntry(zs: seq<int>, k: nat, d: nat)
    requires zs == ZetaTable() && Node(k, d) && d > 0
    ensures InverseAt(zs, k, d)
  {
    hide Red, Zeta, ZetaTable;
    NodeRange(k, d);
    MirrorInverse(8 - d, k - Exp2(8 - d));
  }

  // ---- reduction -------------------------------------------------------------------

  lemma ReducedIsItsResidue(a: Poly)
    requires Reduced(a)
    ensures RedPoly(a) == a
  {
    forall i | 0 <= i < |a|
      ensures RedPoly(a)[i] == a[i]
    {
      RedSmall(a[i]);
    }
  }

  lemma RedPolyCong(a: Poly)
    ensures CongSeq(RedPoly(a), a) && Reduced(RedPoly(a))
  {
    hide Red;
    forall i | 0 <= i < |a|
      ensures Cong(RedPoly(a)[i], a[i])
    {
      RedRed(a[i]);
    }
  }

  lemma SameResidues(a: Poly, b: Poly)
    requires CongSeq(a, b)
    ensures RedPoly(a) == RedPoly(b)
  {
    hide Red;
  }

  lemma {:induction false} NttReduced(zs: seq<int>, a: Poly, k: nat, d: nat)
    requires |zs| == 256 && Node(k, d) && |a| == Exp2(d)
    ensures Reduced(Ntt(zs, a, k, d))
    decreases d
  {
    hide Red, Lo, Hi, Node, Exp2, Ntt;
    if d == 0 {
      NttLeaf(zs, a, k);
    } else {
      NttStep(zs, a, k, d);
      NttReduced(zs, Lo(a, zs[k]), 2 * k, d - 1);
      NttReduced(zs, Hi(a, zs[k]), 2 * k + 1, d - 1);
    }
  }

  lemma ForwardReduced(a: Poly)
    requires |a| == 256
    ensures ReducedPoly(Forward(a))
  {
    hide Ntt, ZetaTable;
    RootNode();
    NttReduced(ZetaTable(), a, 1, 8);
  }

  lemma BackwardReduced(b: Poly)
    requires |b| == 256
    ensures ReducedPoly(Backward(b))
  {
    hide Inv, ZetaTable, Red;
  }

  lemma PointwiseReduced(u: Poly, v: Poly)
    requires |u| == |v|
    ensures Reduced(Pointwise(u, v))
  {
    hide Red;
  }

  lemma ForwardCong(a: Poly, b: Poly)
    requires |a| == 256 && CongSeq(a, b)
    ensures |b| == 256 && Forward(a) == Forward(b)
  {
    hide Ntt, ZetaTable, Red;
    RootNode();
    NttCong(ZetaTable(), a, b, 1, 8);
  }

  lemma ScaleRedCong(e: int, a: Poly, b: Poly)
    requires CongSeq(a, b)
    ensures ScaleRed(e, a) == ScaleRed(e, b)
  {
    hide Red;
    forall i | 0 <= i < |a|
      ensures ScaleRed(e, a)[i] == ScaleRed(e, b)[i]
    {
      CongMul(e, e, a[i], b[i]);
    }
  }

  lemma BackwardCong(a: Poly, b: Poly)
    requires |a| == 256 && CongSeq(a, b)
    ensures |b| == 256 && Backward(a) == Backward(b)
  {
    hide Inv, ZetaTable, Red, ScaleRed, CongSeq;
    CongLength(a, b);
    RootNode();
    InvCong(ZetaTable(), a, b, 1, 8);
    ScaleRedCong(NINV, Inv(ZetaTable(), a, 1, 8), Inv(ZetaTable(), b, 1, 8));
  }

  // ---- inverses --------------------------------------------------------------------

  /** 256 times ninv is one. */
  lemma Unscale(c: Poly, a: Poly)
    requires CongSeq(c, Scale(256, a))
    ensures ScaleRed(NINV, c) == RedPoly(a)
  {
    hide Red, Scale, NINV;
    forall i | 0 <= i < |a|
      ensures ScaleRed(NINV, c)[i] == RedPoly(a)[i]
    {
      ScaleAt(256, a, i);
      CancelScale(c[i], a[i]);
    }
  }

  lemma CancelScale(c: int, a: int)
    requires Cong(c, 256 * a)
    ensures Red(NINV * c) == Red(a)
  {
    hide Red;
    NinvUnit();
    CongMul(NINV, NINV, c, 256 * a);
    CongMul(256 * NINV, 1, a, a);
    assert NINV * (256 * a) == 256 * NINV * a;
  }

  lemma NinvUnit()
    ensures Cong(256 * NINV, 1)
  {
  }

  /** The inverse transform undoes the forward transform on every polynomial. */
  lemma BackwardOfForward(a: Poly)
    requires |a| == 256
    ensures Backward(Forward(a)) == RedPoly(a)
  {
    hide Ntt, Inv, ZetaTable, Red, ScaleRed, RedPoly, Roots, Scale, CongSeq;
    RootNode();
    TableRoots();
    InvNtt(ZetaTable(), a, 1, 8);
    Unscale(Inv(ZetaTable(), Forward(a), 1, 8), a);
  }

  /** The forward transform undoes the inverse transform. */
  lemma ForwardOfBackward(b: Poly)
    requires |b| == 256
    ensures Forward(Backward(b)) == RedPoly(b)
  {
    hide Ntt, Inv, ZetaTable, Red, ScaleRed, RedPoly, Roots, Scale, CongSeq, Comb;
    RootNode();
    TableRoots();
    var zs := ZetaTable();
    var x := Inv(zs, b, 1, 8);
    NttInv(zs, b, 1, 8);
    ScaleIsComb(NINV, x);
    ScaleRedIsScale(NINV, x);
    NttCong(zs, Backward(b), Scale(NINV, x), 1, 8);
    NttLinear(zs, NINV, x, 0, x, 1, 8);
    ScaleIsComb(NINV, Ntt(zs, x, 1, 8));
    ForwardReduced(Backward(b));
    ReducedIsItsResidue(Forward(Backward(b)));
    SameResidues(Forward(Backward(b)), Scale(NINV, Ntt(zs, x, 1, 8)));
    ScaleRedIsScale(NINV, Ntt(zs, x, 1, 8));
    Unscale(Ntt(zs, x, 1, 8), b);
  }

  lemma ScaleRedIsScale(e: int, a: Poly)
    ensures RedPoly(Scale(e, a)) == ScaleRed(e, a)
    ensures CongSeq(ScaleRed(e, a), Scale(e, a))
  {
    hide Red, Scale;
    forall i | 0 <= i < |a|
      ensures RedPoly(Scale(e, a))[i] == ScaleRed(e, a)[i] && Cong(ScaleRed(e, a)[i], Scale(e, a)[i])
    {
      ScaleAt(e, a, i);
      RedRed(e * a[i]);
    }
  }

  // ---- multiplication --------------------------------------------------------------

  lemma PointwiseIsPointMul(u: Poly, v: Poly)
    requires |u| == |v|
    ensures Pointwise(u, v) == RedPoly(PointMul(u, v))
  {
    hide Red;
  }

  /** Transform, multiply pointwise, transform back: the negacyclic product. */
  lemma ProductTheorem(a: Poly, b: Poly)
    requires |a| == |b| == 256
    ensures Backward(Pointwise(Forward(a), Forward(b))) == Negacyclic(a, b)
  {
    hide Ntt, Inv, ZetaTable, Red, ScaleRed, RedPoly, Roots, MulMod, CongSeq, PointMul, Pointwise, Backward;
    RootNode();
    TableRoots();
    var zs := ZetaTable();
    var m := MulMod(a, b, -1);
    RootOfUnity(zs);
    NttProduct(zs, a, b, -1, 1, 8);
    var u, v := Forward(a), Forward(b);
    PointwiseIsPointMul(u, v);
    RedPolyCong(PointMul(u, v));
    CongSym(Pointwise(u, v), PointMul(u, v));
    CongTrans(Forward(m), PointMul(u, v), Pointwise(u, v));
    BackwardCong(Forward(m), Pointwise(u, v));
    BackwardOfForward(m);
  }

  lemma RootOfUnity(zs: seq<int>)
    requires Roots(zs)
    ensures |zs| == 256 && Cong(-1, zs[1] * zs[1])
  {
    hide Red;
  }
}
