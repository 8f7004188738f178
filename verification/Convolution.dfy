/**
 The convolution theorem: the transform turns the product modulo x^n - r, and in particular
 the negacyclic product modulo x^256 + 1, into the pointwise product.
 */
module Convolution {
  import opened Modular
  import opened NttTree

  /** Coefficient pair (i, k - i), wrapped around with factor r when k - i is negative. */
  function Term(a: Poly, b: Poly, r: int, k: nat, i: nat): int
    requires |a| == |b| && k < |a| && i < |a|
  {
    if i <= k then a[i] * b[k - i] else r * (a[i] * b[|a| + k - i])
  }

  /** The first n terms of coefficient k of a·b modulo x^|a| - r. */
  function ConvSum(a: Poly, b: Poly, r: int, k: nat, n: nat): int
    requires |a| == |b| && k < |a| && n <= |a|
  {
    if n == 0 then 0 else ConvSum(a, b, r, k, n - 1) + Term(a, b, r, k, n - 1)
  }

  /** Schoolbook product of two polynomials modulo x^|a| - r, over the integers. */
  function MulMod(a: Poly, b: Poly, r: int): (c: Poly)
    requires |a| == |b|
    ensures |c| == |a|
  {
    seq(|a|, k requires 0 <= k < |a| => ConvSum(a, b, r, k, |a|))
  }

  lemma MulModAt(a: Poly, b: Poly, r: int, k: nat)
    requires |a| == |b| && k < |a|
    ensures MulMod(a, b, r)[k] == ConvSum(a, b, r, k, |a|)
  {
  }

  lemma ConvSumStep(a: Poly, b: Poly, r: int, k: nat, n: nat)
    requires |a| == |b| && k < |a| && 0 < n <= |a|
    ensures ConvSum(a, b, r, k, n) == ConvSum(a, b, r, k, n - 1) + Term(a, b, r, k, n - 1)
  {
    hide Term;
  }

  lemma ConvSumZero(a: Poly, b: Poly, r: int, k: nat)
    requires |a| == |b| && k < |a|
    ensures ConvSum(a, b, r, k, 0) == 0
  {
  }

  // ---- dependence on residues only -------------------------------------------------

  lemma TermCong(a: Poly, a': Poly, b: Poly, b': Poly, r: int, r': int, k: nat, i: nat)
    requires |a| == |b| && k < |a| && i < |a|
    requires CongSeq(a, a') && CongSeq(b, b') && Cong(r, r')
    ensures Cong(Term(a, b, r, k, i), Term(a', b', r', k, i))
  {
    hide Red;
    var j := if i <= k then k - i else |a| + k - i;
    CongMul(a[i], a'[i], b[j], b'[j]);
    CongMul(r, r', a[i] * b[j], a'[i] * b'[j]);
  }

  lemma {:induction false} ConvSumCong(a: Poly, a': Poly, b: Poly, b': Poly, r: int, r': int, k: nat, n: nat)
    requires |a| == |b| && k < |a| && n <= |a|
    requires CongSeq(a, a') && CongSeq(b, b') && Cong(r, r')
    ensures |a'| == |b'| == |a| && Cong(ConvSum(a, b, r, k, n), ConvSum(a', b', r', k, n))
  {
    hide Red, Term;
    if n > 0 {
      ConvSumCong(a, a', b, b', r, r', k, n - 1);
      TermCong(a, a', b, b', r, r', k, n - 1);
      CongAdd(ConvSum(a, b, r, k, n - 1), ConvSum(a', b', r', k, n - 1),
              Term(a, b, r, k, n - 1), Term(a', b', r', k, n - 1));
    }
  }

  lemma MulModCong(a: Poly, a': Poly, b: Poly, b': Poly, r: int, r': int)
    requires |a| == |b| && CongSeq(a, a') && CongSeq(b, b') && Cong(r, r')
    ensures |a'| == |b'| && CongSeq(MulMod(a, b, r), MulMod(a', b', r'))
  {
    hide Red, ConvSum;
    forall k | 0 <= k < |a|
      ensures Cong(MulMod(a, b, r)[k], MulMod(a', b', r')[k])
    {
      ConvSumCong(a, a', b, b', r, r', k, |a|);
    }
  }

  // ---- splitting x^2L - z^2 ----------------------------------------------------------

  /** The unreduced residue modulo x^L - z. */
  function Fold(a: Poly, z: int): (f: Poly)
    requires |a| % 2 == 0
    ensures |f| == |a| / 2
  {
    seq(|a| / 2, j requires 0 <= j < |a| / 2 => a[j] + z * a[j + |a| / 2])
  }

  lemma FoldAt(a: Poly, z: int, j: nat)
    requires |a| % 2 == 0 && j < |a| / 2
    ensures Fold(a, z)[j] == a[j] + z * a[j + |a| / 2]
  {
  }

  lemma FoldedProduct(a0: int, a1: int, b0: int, b1: int, z: int)
    ensures a0 * b0 + z * z * (a1 * b1) + z * (a0 * b1 + a1 * b0) == (a0 + z * a1) * (b0 + z * b1)
  {
  }

  lemma WrappedProduct(p: int, q: int, u: int, v: int, z: int)
    ensures z * z * q + z * z * u + z * (p + z * z * v) == z * (p + z * z * v + z * (q + u))
  {
    assert z * (z * (q + u)) == z * z * q + z * z * u;
  }

  /** The four terms of index i and i + L in coefficients k and k + L of the long product
      make one term of the short product. */
  lemma FourTerms(a: Poly, b: Poly, z: int, k: nat, i: nat)
    requires |a| == |b| && |a| % 2 == 0 && k < |a| / 2 && i < |a| / 2
    ensures var l := |a| / 2;
      Term(a, b, z * z, k, i) + Term(a, b, z * z, k, i + l)
        + z * (Term(a, b, z * z, k + l, i) + Term(a, b, z * z, k + l, i + l))
      == Term(Fold(a, z), Fold(b, z), z, k, i)
  {
    var l := |a| / 2;
    var j := if i <= k then k - i else l + k - i;
    FoldAt(a, z, i);
    FoldAt(b, z, j);
    FoldedProduct(a[i], a[i + l], b[j], b[j + l], z);
    WrappedProduct(a[i] * b[j], a[i] * b[j + l], a[i + l] * b[j], a[i + l] * b[j + l], z);
  }

  /** How far the paired partial sums of coefficient k have got after n pairs. */
  function PairSum(a: Poly, b: Poly, r: int, k: nat, n: nat): int
    requires |a| == |b| && |a| % 2 == 0 && k < |a| && n <= |a| / 2
  {
    ConvSum(a, b, r, k, n) + ConvSum(a, b, r, k, |a| / 2 + n) - ConvSum(a, b, r, k, |a| / 2)
  }

  lemma PairSumStep(a: Poly, b: Poly, r: int, k: nat, n: nat)
    requires |a| == |b| && |a| % 2 == 0 && k < |a| && 0 < n <= |a| / 2
    ensures PairSum(a, b, r, k, n)
            == PairSum(a, b, r, k, n - 1) + Term(a, b, r, k, n - 1) + Term(a, b, r, k, n - 1 + |a| / 2)
  {
    hide ConvSum, Term;
    ConvSumStep(a, b, r, k, n);
    ConvSumStep(a, b, r, k, |a| / 2 + n);
  }

  lemma DistributeZ(z: int, p: int, q: int)
    ensures z * (p + q) == z * p + z * q
  {
  }

  lemma {:induction false} FoldSum(a: Poly, b: Poly, z: int, k: nat, n: nat)
    requires |a| == |b| && |a| % 2 == 0 && k < |a| / 2 && n <= |a| / 2
    ensures PairSum(a, b, z * z, k, n) + z * PairSum(a, b, z * z, k + |a| / 2, n)
            == ConvSum(Fold(a, z), Fold(b, z), z, k, n)
  {
    hide Term, Fold, ConvSum, PairSum;
    var l, r := |a| / 2, z * z;
    if n == 0 {
      EmptyPairs(a, b, r, k);
      EmptyPairs(a, b, r, k + l);
      ConvSumZero(Fold(a, z), Fold(b, z), z, k);
    } else {
      FoldSum(a, b, z, k, n - 1);
      PairSumStep(a, b, r, k, n);
      PairSumStep(a, b, r, k + l, n);
      FourTerms(a, b, z, k, n - 1);
      ConvSumStep(Fold(a, z), Fold(b, z), z, k, n);
      DistributeZ(z, PairSum(a, b, r, k + l, n - 1),
                  Term(a, b, r, k + l, n - 1) + Term(a, b, r, k + l, n - 1 + l));
    }
  }

  lemma EmptyPairs(a: Poly, b: Poly, r: int, k: nat)
    requires |a| == |b| && |a| % 2 == 0 && k < |a|
    ensures PairSum(a, b, r, k, 0) == 0
  {
    hide Term;
    ConvSumZero(a, b, r, k);
  }

  lemma FullPairs(a: Poly, b: Poly, r: int, k: nat)
    requires |a| == |b| && |a| % 2 == 0 && k < |a|
    ensures PairSum(a, b, r, k, |a| / 2) == ConvSum(a, b, r, k, |a|)
  {
    hide Term, ConvSum;
  }

  /** Folding a product modulo x^2L - z^2 gives the product of the folds modulo x^L - z. */
  lemma FoldProduct(a: Poly, b: Poly, z: int)
    requires |a| == |b| && |a| % 2 == 0
    ensures Fold(MulMod(a, b, z * z), z) == MulMod(Fold(a, z), Fold(b, z), z)
  {
    hide Fold, MulMod, ConvSum, PairSum;
    var l := |a| / 2;
    var m := MulMod(a, b, z * z);
    forall k | 0 <= k < l
      ensures Fold(m, z)[k] == MulMod(Fold(a, z), Fold(b, z), z)[k]
    {
      FoldAt(m, z, k);
      MulModAt(a, b, z * z, k);
      MulModAt(a, b, z * z, k + l);
      MulModAt(Fold(a, z), Fold(b, z), z, k);
      FullPairs(a, b, z * z, k);
      FullPairs(a, b, z * z, k + l);
      FoldSum(a, b, z, k, l);
    }
  }

  lemma LoHiFold(a: Poly, z: int)
    requires |a| % 2 == 0
    ensures CongSeq(Lo(a, z), Fold(a, z)) && CongSeq(Hi(a, z), Fold(a, -z))
  {
    hide Red, Lo, Hi, Fold;
    forall j | 0 <= j < |a| / 2
      ensures Cong(Lo(a, z)[j], Fold(a, z)[j]) && Cong(Hi(a, z)[j], Fold(a, -z)[j])
    {
      LoHiAt(a, z, j);
      FoldAt(a, z, j);
      FoldAt(a, -z, j);
      RedRed(a[j] + z * a[j + |a| / 2]);
      RedRed(a[j] - z * a[j + |a| / 2]);
      assert -z * a[j + |a| / 2] == -(z * a[j + |a| / 2]);
    }
  }

  lemma CongSym(a: Poly, b: Poly)
    requires CongSeq(a, b)
    ensures CongSeq(b, a)
  {
  }

  /** One residue of a product is the product of the residues: y is z for Lo and -z for Hi. */
  lemma ResidueOfProduct(a: Poly, b: Poly, r: int, y: int, am: Poly, bm: Poly, half: Poly)
    requires |a| == |b| && |a| % 2 == 0 && Cong(r, y * y)
    requires CongSeq(am, Fold(a, y)) && CongSeq(bm, Fold(b, y)) && CongSeq(half, Fold(MulMod(a, b, r), y))
    ensures |am| == |bm| && CongSeq(half, MulMod(am, bm, y))
  {
    hide Red, Fold, MulMod, CongSeq;
    CongLength(am, Fold(a, y));
    CongLength(bm, Fold(b, y));
    CongRefl(a);
    CongRefl(b);
    MulModCong(a, a, b, b, r, y * y);
    FoldCong(MulMod(a, b, r), MulMod(a, b, y * y), y);
    FoldProduct(a, b, y);
    CongSym(am, Fold(a, y));
    CongSym(bm, Fold(b, y));
    MulModCong(Fold(a, y), am, Fold(b, y), bm, y, y);
    CongTrans(half, Fold(MulMod(a, b, r), y), Fold(MulMod(a, b, y * y), y));
    CongTrans(half, MulMod(Fold(a, y), Fold(b, y), y), MulMod(am, bm, y));
  }

  lemma FoldCong(a: Poly, b: Poly, z: int)
    requires |a| == |b| && |a| % 2 == 0 && CongSeq(a, b)
    ensures CongSeq(Fold(a, z), Fold(b, z))
  {
    hide Red, Fold;
    forall j | 0 <= j < |a| / 2
      ensures Cong(Fold(a, z)[j], Fold(b, z)[j])
    {
      var l := |a| / 2;
      FoldAt(a, z, j);
      FoldAt(b, z, j);
      CongMul(z, z, a[j + l], b[j + l]);
      CongAdd(a[j], b[j], z * a[j + l], z * b[j + l]);
    }
  }

  // ---- the theorem -------------------------------------------------------------------

  function PointMul(u: Poly, v: Poly): (p: Poly)
    requires |u| == |v|
    ensures |p| == |u|
  {
    seq(|u|, i requires 0 <= i < |u| => u[i] * v[i])
  }

  lemma PointConcat(u: Poly, u': Poly, v: Poly, v': Poly)
    requires |u| == |v| && |u'| == |v'|
    ensures PointMul(u + u', v + v') == PointMul(u, v) + PointMul(u', v')
  {
  }

  lemma PointLeaf(a: Poly, b: Poly, r: int)
    requires |a| == |b| == 1
    ensures CongSeq([Red(MulMod(a, b, r)[0])], PointMul([Red(a[0])], [Red(b[0])]))
  {
    hide Red;
    assert ConvSum(a, b, r, 0, 1) == ConvSum(a, b, r, 0, 0) + Term(a, b, r, 0, 0);
    RedRed(a[0]);
    RedRed(b[0]);
    RedRed(a[0] * b[0]);
    CongMul(Red(a[0]), a[0], Red(b[0]), b[0]);
  }

  lemma ChildFacts(zs: seq<int>, k: nat, d: nat)
    requires Roots(zs) && Node(k, d) && d > 1
    ensures 1 <= k < 128
    ensures Cong(zs[k], zs[2 * k] * zs[2 * k]) && Cong(-zs[k], zs[2 * k + 1] * zs[2 * k + 1])
  {
    hide Red;
    NodeRange(k, d);
    assert ChildRoots(zs, k);
  }

  lemma SquareOfNegation(z: int)
    ensures -z * -z == z * z
  {
  }

  /** The transform of a product modulo x^n - zs[k]^2 is the pointwise product of the transforms. */
  lemma {:induction false} NttProduct(zs: seq<int>, a: Poly, b: Poly, r: int, k: nat, d: nat)
    requires Roots(zs) && Node(k, d) && |a| == |b| == Exp2(d)
    requires d > 0 ==> 1 <= k < 256 && Cong(r, zs[k] * zs[k])
    ensures CongSeq(Ntt(zs, MulMod(a, b, r), k, d), PointMul(Ntt(zs, a, k, d), Ntt(zs, b, k, d)))
    decreases d
  {
    hide Red, Lo, Hi, Fold, MulMod, PointMul, CongSeq, Roots, Node, Exp2, Ntt;
    TableSize(zs);
    var m := MulMod(a, b, r);
    if d == 0 {
      NttLeaf(zs, a, k);
      NttLeaf(zs, b, k);
      NttLeaf(zs, m, k);
      PointLeaf(a, b, r);
    } else {
      NttStep(zs, a, k, d);
      NttStep(zs, b, k, d);
      NttStep(zs, m, k, d);
      var z := zs[k];
      var al, ah, bl, bh := Lo(a, z), Hi(a, z), Lo(b, z), Hi(b, z);
      LoHiFold(a, z);
      LoHiFold(b, z);
      LoHiFold(m, z);
      SquareOfNegation(z);
      ResidueOfProduct(a, b, r, z, al, bl, Lo(m, z));
      ResidueOfProduct(a, b, r, -z, ah, bh, Hi(m, z));
      NttCong(zs, Lo(m, z), MulMod(al, bl, z), 2 * k, d - 1);
      NttCong(zs, Hi(m, z), MulMod(ah, bh, -z), 2 * k + 1, d - 1);
      if d > 1 {
        ChildFacts(zs, k, d);
      }
      NttProduct(zs, al, bl, z, 2 * k, d - 1);
      NttProduct(zs, ah, bh, -z, 2 * k + 1, d - 1);
      var ul, uh := Ntt(zs, al, 2 * k, d - 1), Ntt(zs, ah, 2 * k + 1, d - 1);
      var vl, vh := Ntt(zs, bl, 2 * k, d - 1), Ntt(zs, bh, 2 * k + 1, d - 1);
      PointConcat(ul, uh, vl, vh);
      CongConcat(Ntt(zs, Lo(m, z), 2 * k, d - 1), Ntt(zs, Hi(m, z), 2 * k + 1, d - 1),
                 PointMul(ul, vl), PointMul(uh, vh));
    }
  }
}
