/**
 The negacyclic transform as a binary tree of butterflies over a table zs of roots. Node k
 splits a polynomial modulo x^2L - zs[k]^2 into its residues modulo x^L - zs[k] and
 x^L + zs[k]. The in-place loops are proved against these functions elsewhere; here is what
 the functions compute.
 */
module NttTree {
  import opened Modular

  type Poly = seq<int>

  /** Node k has depth 8 - d and so carries 2^d coefficients. */
  predicate Node(k: nat, d: nat) {
    d <= 8 && Exp2(8 - d) <= k < 2 * Exp2(8 - d)
  }

  lemma NodeRange(k: nat, d: nat)
    requires Node(k, d) && d > 0
    ensures 1 <= k < 256
    ensures d > 1 ==> k < 128
    ensures 0 < 3 * Exp2(8 - d) - 1 - k < 256
    ensures Node(2 * k, d - 1) && Node(2 * k + 1, d - 1)
    ensures Exp2(d) == 2 * Exp2(d - 1)
  {
    assert Exp2(8 - (d - 1)) == 2 * Exp2(8 - d);
    assert Exp2(7) == 128 && Exp2(6) == 64;
    Exp2Monotone(8 - d, 7);
    if d > 1 {
      Exp2Monotone(8 - d, 6);
    }
  }

  /** What the inverse multiplies by at node k: the negated table entry at the mirrored index. */
  function InvZeta(zs: seq<int>, k: nat, d: nat): int
    requires |zs| == 256 && Node(k, d) && d > 0
  {
    NodeRange(k, d);
    8380417 - zs[3 * Exp2(8 - d) - 1 - k]
  }

  /** What the transform needs to know about its table. */
  ghost predicate Roots(zs: seq<int>) {
    && |zs| == 256
    && Reduced(zs)
    && Cong(zs[1] * zs[1], -1)
    && (forall k :: 1 <= k < 128 ==> ChildRoots(zs, k))
    && (forall k: nat, d: nat :: Node(k, d) && d > 0 ==> InverseAt(zs, k, d))
  }

  ghost predicate ChildRoots(zs: seq<int>, k: nat)
    requires |zs| == 256 && 1 <= k < 128
  {
    Cong(zs[2 * k] * zs[2 * k], zs[k]) && Cong(zs[2 * k + 1] * zs[2 * k + 1], -zs[k])
  }

  ghost predicate InverseAt(zs: seq<int>, k: nat, d: nat)
    requires |zs| == 256 && Node(k, d) && d > 0
  {
    NodeRange(k, d);
    Cong(zs[k] * InvZeta(zs, k, d), 1)
  }

  /** The residue modulo x^L - z. */
  function Lo(a: Poly, z: int): (r: Poly)
    requires |a| % 2 == 0
    ensures |r| == |a| / 2
  {
    seq(|a| / 2, j requires 0 <= j < |a| / 2 => Red(a[j] + z * a[j + |a| / 2]))
  }

  /** The residue modulo x^L + z. */
  function Hi(a: Poly, z: int): (r: Poly)
    requires |a| % 2 == 0
    ensures |r| == |a| / 2
  {
    seq(|a| / 2, j requires 0 <= j < |a| / 2 => Red(a[j] - z * a[j + |a| / 2]))
  }

  function Ntt(zs: seq<int>, a: Poly, k: nat, d: nat): (r: Poly)
    requires |zs| == 256 && Node(k, d) && |a| == Exp2(d)
    ensures |r| == |a|
    decreases d
  {
    if d == 0 then [Red(a[0])] else
      NodeRange(k, d);
      Ntt(zs, Lo(a, zs[k]), 2 * k, d - 1) + Ntt(zs, Hi(a, zs[k]), 2 * k + 1, d - 1)
  }

  /** Undoes one split, up to a factor of two. */
  function Merge(lo: Poly, hi: Poly, w: int): (r: Poly)
    requires |lo| == |hi|
    ensures |r| == 2 * |lo|
  {
    seq(2 * |lo|, i requires 0 <= i < 2 * |lo| =>
      if i < |lo| then Red(lo[i] + hi[i]) else Red(w * (lo[i - |lo|] - hi[i - |lo|])))
  }

  function Inv(zs: seq<int>, b: Poly, k: nat, d: nat): (r: Poly)
    requires |zs| == 256 && Node(k, d) && |b| == Exp2(d)
    ensures |r| == |b|
    decreases d
  {
    if d == 0 then b else
      NodeRange(k, d);
      var l := Exp2(d - 1);
      Merge(Inv(zs, b[..l], 2 * k, d - 1), Inv(zs, b[l..], 2 * k + 1, d - 1), InvZeta(zs, k, d))
  }

  lemma NttStep(zs: seq<int>, a: Poly, k: nat, d: nat)
    requires |zs| == 256 && Node(k, d) && |a| == Exp2(d) && d > 0
    ensures Node(2 * k, d - 1) && Node(2 * k + 1, d - 1) && 1 <= k < 256
    ensures Exp2(d) == 2 * Exp2(d - 1)
    ensures Ntt(zs, a, k, d) == Ntt(zs, Lo(a, zs[k]), 2 * k, d - 1) + Ntt(zs, Hi(a, zs[k]), 2 * k + 1, d - 1)
  {
    hide Lo, Hi;
    NodeRange(k, d);
  }

  lemma InvStep(zs: seq<int>, b: Poly, k: nat, d: nat)
    requires |zs| == 256 && Node(k, d) && |b| == Exp2(d) && d > 0
    ensures Node(2 * k, d - 1) && Node(2 * k + 1, d - 1) && 1 <= k < 256
    ensures Exp2(d) == 2 * Exp2(d - 1)
    ensures Inv(zs, b, k, d) == Merge(Inv(zs, b[..Exp2(d - 1)], 2 * k, d - 1),
                                      Inv(zs, b[Exp2(d - 1)..], 2 * k + 1, d - 1), InvZeta(zs, k, d))
  {
    hide Merge, InvZeta;
    NodeRange(k, d);
  }

  lemma NttLeaf(zs: seq<int>, a: Poly, k: nat)
    requires |zs| == 256 && Node(k, 0) && |a| == Exp2(0)
    ensures |a| == 1 && Ntt(zs, a, k, 0) == [Red(a[0])]
  {
    hide Red;
  }

  lemma InvLeaf(zs: seq<int>, b: Poly, k: nat)
    requires |zs| == 256 && Node(k, 0) && |b| == Exp2(0)
    ensures |b| == 1 && Inv(zs, b, k, 0) == b
  {
  }

  // ---- reading one coefficient ------------------------------------------------------

  lemma LoHiAt(a: Poly, z: int, j: nat)
    requires |a| % 2 == 0 && j < |a| / 2
    ensures Lo(a, z)[j] == Red(a[j] + z * a[j + |a| / 2])
    ensures Hi(a, z)[j] == Red(a[j] - z * a[j + |a| / 2])
  {
  }

  lemma MergeAt(lo: Poly, hi: Poly, w: int, j: nat)
    requires |lo| == |hi| && j < |lo|
    ensures Merge(lo, hi, w)[j] == Red(lo[j] + hi[j])
    ensures Merge(lo, hi, w)[j + |lo|] == Red(w * (lo[j] - hi[j]))
  {
  }

  /** x·a + y·b, coefficient by coefficient. */
  function Comb(x: int, a: Poly, y: int, b: Poly): (r: Poly)
    requires |a| == |b|
    ensures |r| == |a|
  {
    seq(|a|, i requires 0 <= i < |a| => x * a[i] + y * b[i])
  }

  function Scale(e: int, a: Poly): (r: Poly)
    ensures |r| == |a|
  {
    seq(|a|, i requires 0 <= i < |a| => e * a[i])
  }

  lemma CombAt(x: int, a: Poly, y: int, b: Poly, i: nat)
    requires |a| == |b| && i < |a|
    ensures Comb(x, a, y, b)[i] == x * a[i] + y * b[i]
  {
  }

  lemma ScaleAt(e: int, a: Poly, i: nat)
    requires i < |a|
    ensures Scale(e, a)[i] == e * a[i]
  {
  }

  lemma CombConcat(x: int, a: Poly, a': Poly, y: int, b: Poly, b': Poly)
    requires |a| == |b| && |a'| == |b'|
    ensures Comb(x, a + a', y, b + b') == Comb(x, a, y, b) + Comb(x, a', y, b')
  {
  }

  lemma ScaleParts(e: int, a: Poly, l: nat)
    requires l <= |a|
    ensures Scale(e, a) == Scale(e, a[..l]) + Scale(e, a[l..])
  {
  }

  lemma CongConcat(a: Poly, a': Poly, b: Poly, b': Poly)
    requires CongSeq(a, b) && CongSeq(a', b')
    ensures CongSeq(a + a', b + b')
  {
    hide Red;
  }

  lemma CongParts(a: Poly, b: Poly, l: nat)
    requires CongSeq(a, b) && l <= |a|
    ensures CongSeq(a[..l], b[..l]) && CongSeq(a[l..], b[l..])
  {
    hide Red;
  }

  lemma CongTrans(a: Poly, b: Poly, c: Poly)
    requires CongSeq(a, b) && CongSeq(b, c)
    ensures CongSeq(a, c)
  {
    hide Red;
  }

  // ---- dependence on residues only -------------------------------------------------

  lemma SplitCong(a: Poly, b: Poly, z: int)
    requires |a| % 2 == 0 && CongSeq(a, b)
    ensures Lo(a, z) == Lo(b, z) && Hi(a, z) == Hi(b, z)
  {
    hide Red, Lo, Hi;
    var l := |a| / 2;
    forall j | 0 <= j < l
      ensures Lo(a, z)[j] == Lo(b, z)[j] && Hi(a, z)[j] == Hi(b, z)[j]
    {
      LoHiAt(a, z, j);
      LoHiAt(b, z, j);
      CongMul(z, z, a[j + l], b[j + l]);
      CongAdd(a[j], b[j], z * a[j + l], z * b[j + l]);
    }
  }

  /** The transform sees residues only. */
  lemma NttCong(zs: seq<int>, a: Poly, b: Poly, k: nat, d: nat)
    requires |zs| == 256 && Node(k, d) && |a| == Exp2(d) && CongSeq(a, b)
    ensures Ntt(zs, a, k, d) == Ntt(zs, b, k, d)
  {
    hide Red, Lo, Hi;
    if d > 0 {
      NodeRange(k, d);
      SplitCong(a, b, zs[k]);
    } else {
      assert Cong(a[0], b[0]);
    }
  }

  lemma MergeCong(x: Poly, x': Poly, y: Poly, y': Poly, w: int)
    requires |x| == |y| && CongSeq(x, x') && CongSeq(y, y')
    ensures Merge(x, y, w) == Merge(x', y', w)
  {
    hide Red, Merge;
    var r, s := Merge(x, y, w), Merge(x', y', w);
    forall i | 0 <= i < 2 * |x|
      ensures r[i] == s[i]
    {
      var j := if i < |x| then i else i - |x|;
      MergeAt(x, y, w, j);
      MergeAt(x', y', w, j);
      CongAdd(x[j], x'[j], y[j], y'[j]);
      CongMul(w, w, x[j] - y[j], x'[j] - y'[j]);
    }
  }

  lemma {:induction false} InvCong(zs: seq<int>, a: Poly, b: Poly, k: nat, d: nat)
    requires |zs| == 256 && Node(k, d) && |a| == Exp2(d) && CongSeq(a, b)
    ensures CongSeq(Inv(zs, a, k, d), Inv(zs, b, k, d))
    decreases d
  {
    hide Red, Merge, InvZeta, CongSeq, Node, Exp2, Inv;
    CongLength(a, b);
    if d == 0 {
      InvLeaf(zs, a, k);
      InvLeaf(zs, b, k);
    } else {
      InvStep(zs, a, k, d);
      InvStep(zs, b, k, d);
      var l := Exp2(d - 1);
      CongParts(a, b, l);
      InvCong(zs, a[..l], b[..l], 2 * k, d - 1);
      InvCong(zs, a[l..], b[l..], 2 * k + 1, d - 1);
      MergeCong(Inv(zs, a[..l], 2 * k, d - 1), Inv(zs, b[..l], 2 * k, d - 1),
                Inv(zs, a[l..], 2 * k + 1, d - 1), Inv(zs, b[l..], 2 * k + 1, d - 1), InvZeta(zs, k, d));
      CongRefl(Inv(zs, a, k, d));
    }
  }

  lemma CongRefl(a: Poly)
    ensures CongSeq(a, a)
  {
  }

  lemma RootInverse(zs: seq<int>, k: nat, d: nat)
    requires Roots(zs) && Node(k, d) && d > 0
    ensures 1 <= k < 256 && Cong(zs[k] * InvZeta(zs, k, d), 1)
  {
    hide Red, InvZeta;
    assert InverseAt(zs, k, d);
    NodeRange(k, d);
  }

  // ---- linearity -------------------------------------------------------------------

  lemma CombRed(x: int, p: int, y: int, q: int)
    ensures Cong(x * Red(p) + y * Red(q), x * p + y * q)
  {
    hide Red;
    RedRed(p);
    RedRed(q);
    CongMul(x, x, Red(p), p);
    CongMul(y, y, Red(q), q);
    CongAdd(x * Red(p), x * p, y * Red(q), y * q);
  }

  lemma RegroupComb(x: int, a0: int, a1: int, y: int, b0: int, b1: int, z: int)
    ensures x * a0 + y * b0 + z * (x * a1 + y * b1) == x * (a0 + z * a1) + y * (b0 + z * b1)
    ensures x * a0 + y * b0 - z * (x * a1 + y * b1) == x * (a0 - z * a1) + y * (b0 - z * b1)
  {
    assert z * (x * a1 + y * b1) == x * (z * a1) + y * (z * b1);
  }

  lemma CombSplitAt(x: int, a0: int, a1: int, y: int, b0: int, b1: int, z: int, c0: int, c1: int)
    requires c0 == x * a0 + y * b0 && c1 == x * a1 + y * b1
    ensures Cong(Red(c0 + z * c1), x * Red(a0 + z * a1) + y * Red(b0 + z * b1))
    ensures Cong(Red(c0 - z * c1), x * Red(a0 - z * a1) + y * Red(b0 - z * b1))
  {
    hide Red;
    RegroupComb(x, a0, a1, y, b0, b1, z);
    CombRed(x, a0 + z * a1, y, b0 + z * b1);
    CombRed(x, a0 - z * a1, y, b0 - z * b1);
    RedRed(c0 + z * c1);
    RedRed(c0 - z * c1);
  }

  lemma CombSplit(x: int, a: Poly, y: int, b: Poly, z: int)
    requires |a| == |b| && |a| % 2 == 0
    ensures CongSeq(Lo(Comb(x, a, y, b), z), Comb(x, Lo(a, z), y, Lo(b, z)))
    ensures CongSeq(Hi(Comb(x, a, y, b), z), Comb(x, Hi(a, z), y, Hi(b, z)))
  {
    hide Red, Lo, Hi, Comb;
    var l := |a| / 2;
    var c := Comb(x, a, y, b);
    forall j | 0 <= j < l
      ensures Cong(Lo(c, z)[j], Comb(x, Lo(a, z), y, Lo(b, z))[j])
      ensures Cong(Hi(c, z)[j], Comb(x, Hi(a, z), y, Hi(b, z))[j])
    {
      CombAt(x, a, y, b, j);
      CombAt(x, a, y, b, j + l);
      LoHiAt(a, z, j);
      LoHiAt(b, z, j);
      LoHiAt(c, z, j);
      CombAt(x, Lo(a, z), y, Lo(b, z), j);
      CombAt(x, Hi(a, z), y, Hi(b, z), j);
      CombSplitAt(x, a[j], a[j + l], y, b[j], b[j + l], z, c[j], c[j + l]);
    }
  }

  /** The transform is linear. */
  lemma {:induction false} NttLinear(zs: seq<int>, x: int, a: Poly, y: int, b: Poly, k: nat, d: nat)
    requires |zs| == 256 && Node(k, d) && |a| == |b| == Exp2(d)
    ensures CongSeq(Ntt(zs, Comb(x, a, y, b), k, d), Comb(x, Ntt(zs, a, k, d), y, Ntt(zs, b, k, d)))
    decreases d
  {
    hide Red, Lo, Hi, Comb, CongSeq, Node, Exp2, Ntt;
    var c := Comb(x, a, y, b);
    if d == 0 {
      NttLeaf(zs, a, k);
      NttLeaf(zs, b, k);
      NttLeaf(zs, c, k);
      LinearLeaf(x, a, y, b);
    } else {
      NttStep(zs, a, k, d);
      NttStep(zs, b, k, d);
      NttStep(zs, c, k, d);
      var z := zs[k];
      var al, ah, bl, bh := Lo(a, z), Hi(a, z), Lo(b, z), Hi(b, z);
      CombSplit(x, a, y, b, z);
      NttCong(zs, Lo(c, z), Comb(x, al, y, bl), 2 * k, d - 1);
      NttCong(zs, Hi(c, z), Comb(x, ah, y, bh), 2 * k + 1, d - 1);
      NttLinear(zs, x, al, y, bl, 2 * k, d - 1);
      NttLinear(zs, x, ah, y, bh, 2 * k + 1, d - 1);
      var tl, th := Ntt(zs, Lo(c, z), 2 * k, d - 1), Ntt(zs, Hi(c, z), 2 * k + 1, d - 1);
      var ul, uh := Ntt(zs, al, 2 * k, d - 1), Ntt(zs, ah, 2 * k + 1, d - 1);
      var vl, vh := Ntt(zs, bl, 2 * k, d - 1), Ntt(zs, bh, 2 * k + 1, d - 1);
      CombConcat(x, ul, uh, y, vl, vh);
      CongConcat(tl, th, Comb(x, ul, y, vl), Comb(x, uh, y, vh));
    }
  }

  lemma LinearLeaf(x: int, a: Poly, y: int, b: Poly)
    requires |a| == |b| == 1
    ensures CongSeq([Red(Comb(x, a, y, b)[0])], Comb(x, [Red(a[0])], y, [Red(b[0])]))
  {
    hide Red;
    CombRed(x, a[0], y, b[0]);
    RedRed(x * a[0] + y * b[0]);
  }

  // ---- the two transforms undo each other ------------------------------------------

  lemma SumAndDifference(a0: int, a1: int, z: int, w: int, e: int)
    ensures e * (a0 + z * a1) + e * (a0 - z * a1) == 2 * e * a0
    ensures w * (e * (a0 + z * a1) - e * (a0 - z * a1)) == z * w * (2 * e * a1)
  {
    assert e * (a0 + z * a1) == e * a0 + e * (z * a1) && e * (a0 - z * a1) == e * a0 - e * (z * a1);
    assert w * (2 * (e * (z * a1))) == z * w * (2 * e * a1);
  }

  /** Merging two scaled residues gives back the coefficients, scaled by twice as much. */
  lemma MergeOfSplit(a0: int, a1: int, z: int, w: int, e: int, x: int, y: int)
    requires Cong(z * w, 1)
    requires Cong(x, e * Red(a0 + z * a1)) && Cong(y, e * Red(a0 - z * a1))
    ensures Cong(Red(x + y), 2 * e * a0) && Cong(Red(w * (x - y)), 2 * e * a1)
  {
    hide Red;
    var p, q := a0 + z * a1, a0 - z * a1;
    RedRed(p);
    RedRed(q);
    CongMul(e, e, Red(p), p);
    CongMul(e, e, Red(q), q);
    CongAdd(x, e * p, y, e * q);
    RedRed(x + y);
    RedRed(w * (x - y));
    CongMul(w, w, x - y, e * p - e * q);
    CongMul(z * w, 1, 2 * e * a1, 2 * e * a1);
    SumAndDifference(a0, a1, z, w, e);
  }

  lemma MergeSplit(a: Poly, z: int, w: int, e: int, x: Poly, y: Poly)
    requires |a| % 2 == 0 && Cong(z * w, 1)
    requires CongSeq(x, Scale(e, Lo(a, z))) && CongSeq(y, Scale(e, Hi(a, z)))
    ensures CongSeq(Merge(x, y, w), Scale(2 * e, a))
  {
    hide Red, Lo, Hi, Scale, Merge;
    var l := |a| / 2;
    forall i | 0 <= i < |a|
      ensures Cong(Merge(x, y, w)[i], Scale(2 * e, a)[i])
    {
      var j := if i < l then i else i - l;
      LoHiAt(a, z, j);
      ScaleAt(e, Lo(a, z), j);
      ScaleAt(e, Hi(a, z), j);
      ScaleAt(2 * e, a, i);
      MergeAt(x, y, w, j);
      MergeOfSplit(a[j], a[j + l], z, w, e, x[j], y[j]);
    }
  }

  /** Forward, then inverse without the final scaling: every coefficient times 2^d. */
  lemma {:induction false} InvNtt(zs: seq<int>, a: Poly, k: nat, d: nat)
    requires Roots(zs) && Node(k, d) && |a| == Exp2(d)
    ensures CongSeq(Inv(zs, Ntt(zs, a, k, d), k, d), Scale(Exp2(d), a))
    decreases d
  {
    hide Red, Lo, Hi, Merge, Scale, InvZeta, CongSeq, Roots, Node, Exp2, Ntt, Inv;
    TableSize(zs);
    if d == 0 {
      NttLeaf(zs, a, k);
      InvLeaf(zs, Ntt(zs, a, k, 0), k);
      UnitScale(a);
    } else {
      NttStep(zs, a, k, d);
      var z, w, l := zs[k], InvZeta(zs, k, d), Exp2(d - 1);
      var lo, hi := Lo(a, z), Hi(a, z);
      InvNtt(zs, lo, 2 * k, d - 1);
      InvNtt(zs, hi, 2 * k + 1, d - 1);
      var t := Ntt(zs, a, k, d);
      assert t[..l] == Ntt(zs, lo, 2 * k, d - 1) && t[l..] == Ntt(zs, hi, 2 * k + 1, d - 1);
      InvStep(zs, t, k, d);
      RootInverse(zs, k, d);
      MergeSplit(a, z, w, l, Inv(zs, t[..l], 2 * k, d - 1), Inv(zs, t[l..], 2 * k + 1, d - 1));
    }
  }

  lemma SplitOfMerge(x: int, y: int, z: int, w: int)
    requires Cong(z * w, 1)
    ensures Cong(Red(Red(x + y) + z * Red(w * (x - y))), 2 * x)
    ensures Cong(Red(Red(x + y) - z * Red(w * (x - y))), 2 * y)
  {
    hide Red;
    var s, t := x + y, w * (x - y);
    RedRed(s);
    RedRed(t);
    RedRed(Red(s) + z * Red(t));
    RedRed(Red(s) - z * Red(t));
    CongMul(z, z, Red(t), t);
    CongMul(z * w, 1, x - y, x - y);
    assert z * t == z * w * (x - y);
    CongAdd(Red(s), s, z * Red(t), x - y);
  }

  lemma SplitMerge(x: Poly, y: Poly, z: int, w: int)
    requires |x| == |y| && Cong(z * w, 1)
    ensures CongSeq(Lo(Merge(x, y, w), z), Scale(2, x))
    ensures CongSeq(Hi(Merge(x, y, w), z), Scale(2, y))
  {
    hide Red, Lo, Hi, Merge, Scale;
    var m := Merge(x, y, w);
    forall j | 0 <= j < |x|
      ensures Cong(Lo(m, z)[j], Scale(2, x)[j]) && Cong(Hi(m, z)[j], Scale(2, y)[j])
    {
      SplitOfMerge(x[j], y[j], z, w);
      MergeAt(x, y, w, j);
      LoHiAt(m, z, j);
      ScaleAt(2, x, j);
      ScaleAt(2, y, j);
    }
  }

  lemma ScaleIsComb(e: int, a: Poly)
    ensures Comb(e, a, 0, a) == Scale(e, a)
  {
  }

  lemma ScaleTwice(e: int, a: Poly, b: Poly)
    requires CongSeq(a, Scale(e, b))
    ensures CongSeq(Scale(2, a), Scale(2 * e, b))
  {
    hide Red, Scale;
    forall i | 0 <= i < |a|
      ensures Cong(Scale(2, a)[i], Scale(2 * e, b)[i])
    {
      ScaleAt(2, a, i);
      ScaleAt(e, b, i);
      ScaleAt(2 * e, b, i);
      CongAdd(a[i], e * b[i], a[i], e * b[i]);
      assert 2 * e * b[i] == e * b[i] + e * b[i];
    }
  }

  /** If x transforms to a multiple of b then 2x transforms to twice that multiple. */
  lemma DoubledTransform(zs: seq<int>, m: Poly, x: Poly, b: Poly, e: int, k: nat, d: nat)
    requires |zs| == 256 && Node(k, d) && |x| == |b| == Exp2(d)
    requires CongSeq(Ntt(zs, x, k, d), Scale(e, b)) && CongSeq(m, Scale(2, x))
    ensures CongSeq(Ntt(zs, m, k, d), Scale(2 * e, b))
  {
    hide Red, Scale, Comb, CongSeq, Ntt;
    assert |m| == |x| by { CongLength(m, Scale(2, x)); }
    NttCong(zs, m, Scale(2, x), k, d);
    ScaleIsComb(2, x);
    NttLinear(zs, 2, x, 0, x, k, d);
    var t := Ntt(zs, x, k, d);
    ScaleIsComb(2, t);
    ScaleTwice(e, t, b);
    CongTrans(Ntt(zs, m, k, d), Scale(2, t), Scale(2 * e, b));
  }

  lemma CongLength(a: Poly, b: Poly)
    requires CongSeq(a, b)
    ensures |a| == |b|
  {
  }

  /** Inverse, then forward: every value times 2^d. */
  lemma {:induction false} NttInv(zs: seq<int>, b: Poly, k: nat, d: nat)
    requires Roots(zs) && Node(k, d) && |b| == Exp2(d)
    ensures CongSeq(Ntt(zs, Inv(zs, b, k, d), k, d), Scale(Exp2(d), b))
    decreases d
  {
    hide Red, Lo, Hi, Merge, Scale, InvZeta, CongSeq, Roots, Node, Exp2, Ntt, Inv;
    TableSize(zs);
    if d == 0 {
      InvLeaf(zs, b, k);
      NttLeaf(zs, b, k);
      UnitScale(b);
    } else {
      InvStep(zs, b, k, d);
      var z, w, l := zs[k], InvZeta(zs, k, d), Exp2(d - 1);
      var x, y := Inv(zs, b[..l], 2 * k, d - 1), Inv(zs, b[l..], 2 * k + 1, d - 1);
      RootInverse(zs, k, d);
      SplitMerge(x, y, z, w);
      var m := Merge(x, y, w);
      NttStep(zs, m, k, d);
      NttInv(zs, b[..l], 2 * k, d - 1);
      NttInv(zs, b[l..], 2 * k + 1, d - 1);
      DoubledTransform(zs, Lo(m, z), x, b[..l], l, 2 * k, d - 1);
      DoubledTransform(zs, Hi(m, z), y, b[l..], l, 2 * k + 1, d - 1);
      ScaleParts(2 * l, b, l);
      CongConcat(Ntt(zs, Lo(m, z), 2 * k, d - 1), Ntt(zs, Hi(m, z), 2 * k + 1, d - 1),
                 Scale(2 * l, b[..l]), Scale(2 * l, b[l..]));
    }
  }

  lemma UnitScale(a: Poly)
    requires |a| == 1
    ensures CongSeq([Red(a[0])], Scale(Exp2(0), a))
  {
    hide Red;
    RedRed(a[0]);
  }

  lemma TableSize(zs: seq<int>)
    requires Roots(zs)
    ensures |zs| == 256
  {
  }
}
