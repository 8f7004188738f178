/**
 The in-place transforms: three nested loops over block length, block and coefficient, with
 the table index running through the blocks. Each is proved to compute Transform's function.
 */
module NttLoops {
  import opened Arith
  import opened Modular
  import opened Zetas
  import opened NttTree
  import opened Transform

  /** Where block c of size n starts. */
  function Off(c: nat, n: nat): nat {
    c * n
  }

  lemma OffFacts(c: nat, m: nat, n: nat)
    requires c < m
    ensures Off(c, n) + n <= Off(m, n)
  {
    MulLe(c + 1, n, m, n);
    assert (c + 1) * n == c * n + n;
  }

  lemma OffHalves(c: nat, h: nat)
    ensures Off(2 * c, h) == Off(c, 2 * h) && Off(2 * c + 1, h) == Off(c, 2 * h) + h
  {
    assert 2 * c * h == c * (2 * h) && (2 * c + 1) * h == 2 * c * h + h;
  }

  lemma OffNext(c: nat, n: nat)
    ensures Off(c + 1, n) == Off(c, n) + n
  {
    assert (c + 1) * n == c * n + n;
  }

  /** Node Exp2(8 - d) + c is the c-th node of its level. */
  lemma LevelNode(c: nat, d: nat)
    requires d <= 8 && c < Exp2(8 - d)
    ensures Node(Exp2(8 - d) + c, d)
    ensures d > 0 ==> 1 <= Exp2(8 - d) + c < 256 && Exp2(8 - (d - 1)) == 2 * Exp2(8 - d) && Exp2(d) == 2 * Exp2(d - 1)
    ensures Off(c, Exp2(d)) + Exp2(d) <= 256
  {
    if d > 0 {
      NodeRange(Exp2(8 - d) + c, d);
      assert Exp2(8 - (d - 1)) == 2 * Exp2(8 - d);
    }
    OffFacts(c, Exp2(8 - d), Exp2(d));
    Exp2Sum(8 - d, d);
  }

  /** b is a with the n entries from offset o on replaced by w. */
  ghost predicate Patched(a: Poly, b: Poly, o: nat, n: nat, w: Poly) {
    |a| == |b| && o + n <= |a| && |w| == n && b == a[..o] + w + a[o + n..]
  }

  lemma PatchedInside(a: Poly, b: Poly, o: nat, n: nat, w: Poly)
    requires Patched(a, b, o, n, w)
    ensures b[o..o + n] == w
  {
  }

  lemma PatchedOutside(a: Poly, b: Poly, o: nat, n: nat, w: Poly, p: nat, q: nat)
    requires Patched(a, b, o, n, w) && p <= q <= |a| && (q <= o || o + n <= p)
    ensures b[p..q] == a[p..q]
  {
    forall i | p <= i < q
      ensures b[i] == a[i]
    {
      PatchedAt(a, b, o, n, w, i);
    }
    var x, y := b[p..q], a[p..q];
    assert |x| == |y| && forall i :: 0 <= i < |x| ==> x[i] == y[i];
  }

  lemma PatchedAt(a: Poly, b: Poly, o: nat, n: nat, v: Poly, j: nat)
    requires Patched(a, b, o, n, v) && j < |b|
    ensures b[j] == if o <= j < o + n then v[j - o] else a[j]
  {
  }

  lemma PatchedRange(a: Poly, b: Poly, o: nat, n: nat, v: Poly)
    requires Patched(a, b, o, n, v) && Reduced(v)
    requires Int32Poly(a) && forall j :: 0 <= j < o ==> 0 <= a[j] < 8380417
    ensures Int32Poly(b) && forall j :: 0 <= j < o + n ==> 0 <= b[j] < 8380417
  {
    forall j | 0 <= j < |b|
      ensures b[j] == if o <= j < o + n then v[j - o] else a[j]
    {
      PatchedAt(a, b, o, n, v, j);
    }
  }

  // ---- forward -----------------------------------------------------------------------

  /** The c-th subtree of depth 8 - d still has to turn block c into block c of the target. */
  ghost predicate Pending(a: Poly, target: Poly, c: nat, d: nat) {
    && |a| == |target| == 256 && d <= 8 && c < Exp2(8 - d)
    && (LevelNode(c, d);
        var o, n := Off(c, Exp2(d)), Exp2(d);
        Ntt(ZetaTable(), a[o..o + n], Exp2(8 - d) + c, d) == target[o..o + n])
  }

  ghost predicate AllPending(a: Poly, target: Poly, d: nat, lo: nat, hi: nat) {
    forall c: nat :: lo <= c < hi ==> Pending(a, target, c, d)
  }

  /** Layers above d are done, the first i blocks of layer d are done, the rest are not. */
  ghost predicate MidLayer(a: Poly, target: Poly, d: nat, i: nat) {
    && |a| == |target| == 256 && 0 < d <= 8 && i <= Exp2(8 - d)
    && AllPending(a, target, d - 1, 0, 2 * i) && AllPending(a, target, d, i, Exp2(8 - d))
  }

  ghost predicate AtLayer(a: Poly, target: Poly, d: nat) {
    && |a| == |target| == 256 && d <= 8
    && AllPending(a, target, d, 0, Exp2(8 - d))
  }

  lemma FirstLayer(a: Poly)
    requires |a| == 256
    ensures AtLayer(a, Forward(a), 8)
  {
    hide Ntt, ZetaTable;
    RootNode();
    var t := Forward(a);
    assert Off(0, 256) == 0;
    assert a[0..256] == a && t[0..256] == t;
    assert Exp2(0) == 1;
    assert Pending(a, t, 0, 8);
  }

  lemma NextLayer(a: Poly, target: Poly, d: nat)
    requires 0 < d <= 8 && MidLayer(a, target, d, Exp2(8 - d))
    ensures AtLayer(a, target, d - 1)
  {
    hide Pending;
    assert Exp2(8 - (d - 1)) == 2 * Exp2(8 - d);
  }

  lemma PendingIntro(b: Poly, target: Poly, c: nat, d: nat, o: nat, n: nat, x: Poly)
    requires |b| == |target| == 256 && d <= 8 && c < Exp2(8 - d) && n == Exp2(d) && o == Off(c, n) && o + n <= 256
    requires Node(Exp2(8 - d) + c, d) && b[o..o + n] == x
    requires Ntt(ZetaTable(), x, Exp2(8 - d) + c, d) == target[o..o + n]
    ensures Pending(b, target, c, d)
  {
    hide Ntt, ZetaTable, Node, Exp2, Off;
  }

  lemma PendingElim(a: Poly, target: Poly, c: nat, d: nat, o: nat, n: nat)
    requires Pending(a, target, c, d) && n == Exp2(d) && o == Off(c, n)
    ensures |a| == |target| == 256 && d <= 8 && c < Exp2(8 - d) && o + n <= 256
    ensures Node(Exp2(8 - d) + c, d) && Ntt(ZetaTable(), a[o..o + n], Exp2(8 - d) + c, d) == target[o..o + n]
  {
    hide Ntt, ZetaTable, Node, Exp2, Off;
    LevelNode(c, d);
  }

  /** One block of butterflies turns a pending node into its two pending children. */
  lemma SplitBlock(a: Poly, b: Poly, target: Poly, d: nat, i: nat, o: nat, n: nat, z: int, w: Poly)
    requires 0 < d && Pending(a, target, i, d) && n == Exp2(d) && o == Off(i, n)
    requires Exp2(8 - d) + i < 256 && z == ZetaTable()[Exp2(8 - d) + i]
    requires o + n <= |a| && w == a[o..o + n] && |w| % 2 == 0
    requires Patched(a, b, o, n, Lo(w, z) + Hi(w, z))
    ensures Pending(b, target, 2 * i, d - 1) && Pending(b, target, 2 * i + 1, d - 1)
  {
    hide Ntt, ZetaTable, Lo, Hi, Node, Exp2, Red, Off, Patched, Pending;
    PendingElim(a, target, i, d, o, n);
    var zs, k, h := ZetaTable(), Exp2(8 - d) + i, Exp2(d - 1);
    LevelNode(i, d);
    OffHalves(i, h);
    NttStep(zs, w, k, d);
    var l, r := Lo(w, z), Hi(w, z);
    PatchedLength(a, b, o, n, l + r);
    PatchedInside(a, b, o, n, l + r);
    var x, y := Ntt(zs, l, 2 * k, d - 1), Ntt(zs, r, 2 * k + 1, d - 1);
    SliceHalves(b, o, h, l, r);
    SliceHalves(target, o, h, x, y);
    PendingIntro(b, target, 2 * i, d - 1, o, h, l);
    PendingIntro(b, target, 2 * i + 1, d - 1, o + h, h, r);
  }

  lemma SliceHalves(s: Poly, o: nat, h: nat, l: Poly, r: Poly)
    requires o + 2 * h <= |s| && s[o..o + 2 * h] == l + r && |l| == h
    ensures s[o..o + h] == l && s[o + h..o + h + h] == r
  {
    var t := s[o..o + 2 * h];
    assert s[o..o + h] == t[..h] && s[o + h..o + h + h] == t[h..];
  }

  lemma KeepPending(a: Poly, b: Poly, target: Poly, c: nat, d: nat, o: nat, n: nat, w: Poly)
    requires Pending(a, target, c, d) && Patched(a, b, o, n, w)
    requires Off(c, Exp2(d)) + Exp2(d) <= o || o + n <= Off(c, Exp2(d))
    ensures Pending(b, target, c, d)
  {
    hide Ntt, ZetaTable, Node, Exp2, Off, Patched;
    assert |b| == |a| by { PatchedLength(a, b, o, n, w); }
    LevelNode(c, d);
    PatchedOutside(a, b, o, n, w, Off(c, Exp2(d)), Off(c, Exp2(d)) + Exp2(d));
  }

  lemma PatchedLength(a: Poly, b: Poly, o: nat, n: nat, w: Poly)
    requires Patched(a, b, o, n, w)
    ensures |a| == |b| && o + n <= |a| && |w| == n
  {
  }

  /** Finishing block i of layer d. */
  lemma MidStep(a: Poly, b: Poly, target: Poly, d: nat, i: nat, o: nat, n: nat, z: int, w: Poly)
    requires MidLayer(a, target, d, i) && i < Exp2(8 - d) && n == Exp2(d) && o == Off(i, n)
    requires Exp2(8 - d) + i < 256 && z == ZetaTable()[Exp2(8 - d) + i]
    requires o + n <= 256 && w == a[o..o + n] && |w| % 2 == 0
    requires Patched(a, b, o, n, Lo(w, z) + Hi(w, z))
    ensures MidLayer(b, target, d, i + 1)
  {
    hide Pending, ZetaTable, Lo, Hi, Red, Off, Exp2, Patched;
    var lr := Lo(w, z) + Hi(w, z);
    PatchedLength(a, b, o, n, lr);
    LevelNode(i, d);
    OffHalves(i, Exp2(d - 1));
    SplitBlock(a, b, target, d, i, o, n, z, w);
    var e := d - 1;
    forall c: nat | c < 2 * (i + 1)
      ensures Pending(b, target, c, e)
    {
      if c < 2 * i {
        OffFacts(c, 2 * i, Exp2(d - 1));
        KeepPending(a, b, target, c, d - 1, o, n, lr);
      } else {
        assert c == 2 * i || c == 2 * i + 1;
      }
    }
    forall c: nat | i + 1 <= c < Exp2(8 - d)
      ensures Pending(b, target, c, d)
    {
      OffFacts(i, c, n);
      KeepPending(a, b, target, c, d, o, n, lr);
    }
  }

  lemma LastLayer(a: Poly, target: Poly)
    requires AtLayer(a, target, 0) && Reduced(a)
    ensures a == target
  {
    hide ZetaTable, Pending;
    assert Exp2(8) == 256;
    forall c: nat | c < 256
      ensures a[c] == target[c]
    {
      assert Pending(a, target, c, 0);
      LeafValue(a, target, c);
    }
  }

  lemma LeafValue(a: Poly, target: Poly, c: nat)
    requires Pending(a, target, c, 0) && c < |a| && 0 <= a[c] < 8380417
    ensures a[c] == target[c]
  {
    hide ZetaTable, Ntt, Node, Red;
    assert Exp2(0) == 1 && Off(c, 1) == c;
    assert Exp2(8) == 256;
    LevelNode(c, 0);
    NttLeaf(ZetaTable(), a[c..c + 1], 256 + c);
    RedSmall(a[c]);
    assert target[c..c + 1] == [target[c]];
  }

  // ---- the innermost loops -------------------------------------------------------------

  lemma ButterflyValue(z: int, x: int, y: int, t: int)
    requires Red(t) == Red(z * y)
    ensures Red(x - t) == Red(x - z * y) && Red(x + t) == Red(x + z * y)
  {
    hide Red;
    CongAdd(x, x, t, z * y);
  }

  lemma ZetaProduct64(z: int, x: int)
    requires 0 <= z < 8380417 && IsInt32(x)
    ensures IsInt64(z * x)
  {
    if x >= 0 {
      MulLe(z, x, 8380417, 0x8000_0000);
    } else {
      MulLe(z, -x, 8380417, 0x8000_0000);
      assert z * x == -(z * -x);
    }
  }

  /** The forward butterflies of one block: the block becomes its two residues. */
  method ForwardBlock(a: array<int>, start: nat, length: nat, zeta: int)
    requires start + 2 * length <= a.Length && 0 <= zeta < 8380417
    requires forall i :: 0 <= i < a.Length ==> IsInt32(a[i])
    modifies a
    ensures Patched(old(a[..]), a[..], start, 2 * length,
                    Lo(old(a[start..start + 2 * length]), zeta) + Hi(old(a[start..start + 2 * length]), zeta))
  {
    hide Red, Rem, Lo, Hi;
    ghost var before := a[..];
    ghost var w := a[start..start + 2 * length];
    assert w == before[start..start + 2 * length];
    ghost var goal := Replaced(before, start, 2 * length, Lo(w, zeta) + Hi(w, zeta));
    for j := start to start + length
      invariant forall i :: 0 <= i < a.Length ==> IsInt32(a[i])
      invariant forall i :: 0 <= i < a.Length ==> a[i] == if Touched(i, start, length, j) then goal[i] else before[i]
    {
      ghost var x, y := a[j], a[j + length];
      ZetaProduct64(zeta, a[j + length]);
      var t := MulRem(zeta, a[j + length]);
      ButterflyValue(zeta, x, y, t);
      ForwardGoal(before, start, length, zeta, j);
      a[j + length] := ModQ(a[j] - t);
      a[j] := ModQ(a[j] + t);
    }
    UntouchedGoal(before, start, length, Lo(w, zeta) + Hi(w, zeta));
    assert a[..] == goal;
  }

  /** A sequence with n elements from o on replaced. */
  ghost function Replaced(a: Poly, o: nat, n: nat, w: Poly): (r: Poly)
    requires o + n <= |a| && |w| == n
    ensures |r| == |a|
  {
    a[..o] + w + a[o + n..]
  }

  /** Positions a loop over a block has dealt with when it is at j. */
  ghost predicate Touched(i: int, start: nat, length: nat, j: nat) {
    start <= i < j || start + length <= i < j + length
  }

  lemma UntouchedGoal(a: Poly, start: nat, length: nat, w: Poly)
    requires start + 2 * length <= |a| && |w| == 2 * length
    ensures forall i :: 0 <= i < |a| && !Touched(i, start, length, start + length) ==> Replaced(a, start, 2 * length, w)[i] == a[i]
  {
  }

  lemma ReplacedAt(a: Poly, o: nat, n: nat, w: Poly, i: nat)
    requires o + n <= |a| && |w| == n && o <= i < o + n
    ensures Replaced(a, o, n, w)[i] == w[i - o]
  {
  }

  lemma ForwardGoal(a: Poly, start: nat, length: nat, z: int, j: nat)
    requires start + 2 * length <= |a| && start <= j < start + length
    ensures var w := a[start..start + 2 * length];
      var goal := Replaced(a, start, 2 * length, Lo(w, z) + Hi(w, z));
      goal[j] == Red(a[j] + z * a[j + length]) && goal[j + length] == Red(a[j] - z * a[j + length])
  {
    hide Red, Lo, Hi, Replaced;
    var w := a[start..start + 2 * length];
    LoHiAt(w, z, j - start);
    ReplacedAt(a, start, 2 * length, Lo(w, z) + Hi(w, z), j);
    ReplacedAt(a, start, 2 * length, Lo(w, z) + Hi(w, z), j + length);
  }

  /** `nttForward`: in place, for any int32 input, with the result in [0, Q). */
  method NttForward(t: Tables, a: array<int>)
    requires t.Valid() && a.Length == 256 && Int32Poly(a[..])
    modifies a
    ensures a[..] == Forward(old(a[..])) && ReducedPoly(a[..])
  {
    hide Forward, MidLayer, AtLayer, ZetaTable, Red, Zeta, Lo, Hi, Patched, Off, NINV;
    ghost var target := Forward(a[..]);
    ForwardReduced(a[..]);
    FirstLayer(a[..]);
    RootNode();
    assert Exp2(7) == 128 && Exp2(0) == 1;
    var k := 0;
    var length := 128;
    ghost var d: nat := 8;
    while length > 0
      invariant d <= 8 && length == (if d == 0 then 0 else Exp2(d - 1))
      invariant k + 1 == Exp2(8 - d)
      invariant Int32Poly(a[..]) && (d < 8 ==> Reduced(a[..]))
      invariant AtLayer(a[..], target, d)
      decreases d
    {
      k := ForwardLayer(t, a, k, length, d, target);
      length := length / 2;
      d := d - 1;
    }
    LastLayer(a[..], target);
  }

  /** One layer of the forward transform. */
  method ForwardLayer(t: Tables, a: array<int>, k0: nat, length: nat, ghost d: nat, ghost target: Poly)
    returns (k: nat)
    requires t.Valid() && a.Length == 256 && Int32Poly(a[..])
    requires 0 < d <= 8 && length == Exp2(d - 1) && k0 + 1 == Exp2(8 - d)
    requires AtLayer(a[..], target, d)
    modifies a
    ensures AtLayer(a[..], target, d - 1) && ReducedPoly(a[..]) && Int32Poly(a[..])
    ensures k + 1 == Exp2(8 - (d - 1))
  {
    hide ZetaTable, Red, Zeta, Lo, Hi, Patched, Off, NINV, Pending, Exp2;
    k := k0;
    var start := 0;
    ghost var i: nat, n: nat := 0, 2 * length;
    ghost var m := Exp2(8 - d);
    LevelNode(0, d);
    Level(d);
    while start < 256
      invariant i <= m && start == Off(i, n) <= 256 && k == k0 + i
      invariant MidLayer(a[..], target, d, i)
      invariant Int32Poly(a[..])
      invariant forall j :: 0 <= j < start ==> 0 <= a[j] < 8380417
      decreases m - i
    {
      BlockExists(i, m, n);
      LevelNode(i, d);
      k := k + 1;
      ZetaEntry(t, k);
      ghost var before := a[..];
      ghost var w := before[start..start + n];
      ForwardBlock(a, start, length, t.zetas[k]);
      MidStep(before, a[..], target, d, i, start, n, t.zetas[k], w);
      BlockRange(before, a[..], start, n, w, t.zetas[k]);
      OffNext(i, n);
      start := start + 2 * length;
      i := i + 1;
    }
    BlocksDone(i, m, n);
    NextLayer(a[..], target, d);
  }

  lemma Level(d: nat)
    requires 0 < d <= 8
    ensures Off(0, Exp2(d)) == 0 && Off(Exp2(8 - d), Exp2(d)) == 256
    ensures Exp2(d) == 2 * Exp2(d - 1) && Exp2(8 - (d - 1)) == 2 * Exp2(8 - d)
  {
    Exp2Sum(8 - d, d);
    assert Exp2(8) == 256;
  }

  lemma BlockExists(i: nat, m: nat, n: nat)
    requires i <= m && Off(m, n) == 256 && Off(i, n) < 256
    ensures i < m
  {
  }

  lemma BlocksDone(i: nat, m: nat, n: nat)
    requires i <= m && Off(m, n) == 256 && Off(i, n) >= 256
    ensures i == m
  {
    if i < m {
      OffFacts(i, m, n);
    }
  }

  lemma ZetaEntry(t: Tables, k: nat)
    requires t.Valid() && k < 256
    ensures |t.zetas| == 256 && 0 <= t.zetas[k] < 8380417 && t.zetas[k] == ZetaTable()[k]
  {
    hide Zeta;
    assert t.zetas[k] == Zeta(k);
  }

  lemma BlockRange(a: Poly, b: Poly, o: nat, n: nat, w: Poly, z: int)
    requires |w| == n && n % 2 == 0 && Patched(a, b, o, n, Lo(w, z) + Hi(w, z))
    requires Int32Poly(a) && forall j :: 0 <= j < o ==> 0 <= a[j] < 8380417
    ensures Int32Poly(b) && forall j :: 0 <= j < o + n ==> 0 <= b[j] < 8380417
  {
    hide Red;
    var v := Lo(w, z) + Hi(w, z);
    assert Reduced(v) by { SplitReduced(w, z); }
    PatchedRange(a, b, o, n, v);
  }

  lemma SplitReduced(w: Poly, z: int)
    requires |w| % 2 == 0
    ensures Reduced(Lo(w, z) + Hi(w, z))
  {
  }

  // ---- inverse -----------------------------------------------------------------------

  /** Block c holds the inverse subtree applied to block c of the input. */
  ghost predicate Merged(a: Poly, input: Poly, c: nat, d: nat) {
    && |a| == |input| == 256 && d <= 8 && c < Exp2(8 - d)
    && (LevelNode(c, d);
        var o, n := Off(c, Exp2(d)), Exp2(d);
        a[o..o + n] == Inv(ZetaTable(), input[o..o + n], Exp2(8 - d) + c, d))
  }

  ghost predicate AllMerged(a: Poly, input: Poly, d: nat, lo: nat, hi: nat) {
    forall c: nat :: lo <= c < hi ==> Merged(a, input, c, d)
  }

  /** Subtrees of size 2^d are merged everywhere and the first i of size 2^(d+1) as well. */
  ghost predicate MidMerge(a: Poly, input: Poly, d: nat, i: nat) {
    && |a| == |input| == 256 && 0 < d <= 8 && i <= Exp2(8 - d)
    && AllMerged(a, input, d, 0, i) && AllMerged(a, input, d - 1, 2 * i, 2 * Exp2(8 - d))
  }

  lemma MergedLeaves(a: Poly)
    requires |a| == 256
    ensures AllMerged(a, a, 0, 0, 256)
  {
    hide ZetaTable, Inv, Node;
    assert Exp2(8) == 256 && Exp2(0) == 1;
    forall c: nat | c < 256
      ensures Merged(a, a, c, 0)
    {
      LevelNode(c, 0);
      assert Off(c, 1) == c;
      InvLeaf(ZetaTable(), a[c..c + 1], 256 + c);
    }
  }

  lemma MergedIntro(b: Poly, input: Poly, c: nat, d: nat, o: nat, n: nat, x: Poly)
    requires |b| == |input| == 256 && d <= 8 && c < Exp2(8 - d) && n == Exp2(d) && o == Off(c, n) && o + n <= 256
    requires Node(Exp2(8 - d) + c, d) && input[o..o + n] == x
    requires b[o..o + n] == Inv(ZetaTable(), x, Exp2(8 - d) + c, d)
    ensures Merged(b, input, c, d)
  {
    hide Inv, ZetaTable, Node, Exp2, Off;
  }

  /** Merging two finished sibling blocks finishes their parent. */
  lemma MergeBlocks(a: Poly, b: Poly, input: Poly, d: nat, i: nat, o: nat, h: nat, z: int, lo: Poly, hi: Poly)
    requires 0 < d <= 8 && i < Exp2(8 - d) && h == Exp2(d - 1) && o == Off(i, 2 * h)
    requires Merged(a, input, 2 * i, d - 1) && Merged(a, input, 2 * i + 1, d - 1)
    requires Node(Exp2(8 - d) + i, d) && z == InvZeta(ZetaTable(), Exp2(8 - d) + i, d)
    requires o + 2 * h <= |a| && lo == a[o..o + h] && hi == a[o + h..o + 2 * h]
    requires Patched(a, b, o, 2 * h, Merge(lo, hi, z))
    ensures Merged(b, input, i, d)
  {
    hide Inv, ZetaTable, Merge, Node, Exp2, Off, Patched, InvZeta;
    var zs, k := ZetaTable(), Exp2(8 - d) + i;
    LevelNode(i, d);
    OffHalves(i, h);
    PatchedLength(a, b, o, 2 * h, Merge(lo, hi, z));
    PatchedInside(a, b, o, 2 * h, Merge(lo, hi, z));
    var x := input[o..o + 2 * h];
    InvStep(zs, x, k, d);
    assert x[..h] == input[o..o + h] && x[h..] == input[o + h..o + 2 * h];
    MergedIntro(b, input, i, d, o, 2 * h, x);
  }

  lemma KeepMerged(a: Poly, b: Poly, input: Poly, c: nat, d: nat, o: nat, n: nat, w: Poly)
    requires Merged(a, input, c, d) && Patched(a, b, o, n, w)
    requires Off(c, Exp2(d)) + Exp2(d) <= o || o + n <= Off(c, Exp2(d))
    ensures Merged(b, input, c, d)
  {
    hide Inv, ZetaTable, Node, Exp2, Off, Patched;
    PatchedLength(a, b, o, n, w);
    LevelNode(c, d);
    PatchedOutside(a, b, o, n, w, Off(c, Exp2(d)), Off(c, Exp2(d)) + Exp2(d));
  }

  lemma MergeMidStep(a: Poly, b: Poly, input: Poly, d: nat, i: nat, o: nat, h: nat, z: int, lo: Poly, hi: Poly)
    requires MidMerge(a, input, d, i) && i < Exp2(8 - d) && h == Exp2(d - 1) && o == Off(i, 2 * h)
    requires Node(Exp2(8 - d) + i, d) && z == InvZeta(ZetaTable(), Exp2(8 - d) + i, d)
    requires o + 2 * h <= 256 && lo == a[o..o + h] && hi == a[o + h..o + 2 * h]
    requires Patched(a, b, o, 2 * h, Merge(lo, hi, z))
    ensures MidMerge(b, input, d, i + 1)
  {
    hide Merged, ZetaTable, Merge, Node, Off, Exp2, Patched, InvZeta;
    var w := Merge(lo, hi, z);
    var e, n := d - 1, 2 * h;
    PatchedLength(a, b, o, n, w);
    LevelNode(i, d);
    OffHalves(i, h);
    OffNext(2 * i + 1, h);
    assert Merged(a, input, 2 * i, e) && Merged(a, input, 2 * i + 1, e);
    MergeBlocks(a, b, input, d, i, o, h, z, lo, hi);
    forall c: nat | c < i + 1
      ensures Merged(b, input, c, d)
    {
      if c < i {
        OffFacts(c, i, n);
        KeepMerged(a, b, input, c, d, o, n, w);
      }
    }
    forall c: nat | 2 * (i + 1) <= c < 2 * Exp2(8 - d)
      ensures Merged(b, input, c, e)
    {
      OffFacts(2 * i + 1, c, h);
      KeepMerged(a, b, input, c, e, o, n, w);
    }
  }

  lemma MergedRoot(a: Poly, input: Poly)
    requires |a| == |input| == 256 && Merged(a, input, 0, 8)
    ensures ScaleRed(NINV, a) == Backward(input)
  {
    hide Inv, ZetaTable, ScaleRed;
    RootNode();
    assert Exp2(0) == 1 && Off(0, 256) == 0;
    assert a[0..256] == a && input[0..256] == input;
  }

  lemma MergeValue(w: int, x: int, y: int, v: int)
    requires v == Red(x - y)
    ensures Red(w * v) == Red(w * (x - y))
  {
    hide Red;
    RedRed(x - y);
    CongMul(w, w, v, x - y);
  }

  /** The inverse butterflies of one block. */
  method InverseBlock(a: array<int>, start: nat, length: nat, zeta: int)
    requires start + 2 * length <= a.Length && 0 <= zeta <= 8380417
    requires forall i :: 0 <= i < a.Length ==> IsInt32(a[i])
    modifies a
    ensures Patched(old(a[..]), a[..], start, 2 * length,
                    Merge(old(a[start..start + length]), old(a[start + length..start + 2 * length]), zeta))
  {
    hide Red, Rem, Merge;
    ghost var before := a[..];
    ghost var x, y := a[start..start + length], a[start + length..start + 2 * length];
    assert x == before[start..start + length] && y == before[start + length..start + 2 * length];
    ghost var goal := Replaced(before, start, 2 * length, Merge(x, y, zeta));
    for j := start to start + length
      invariant forall i :: 0 <= i < a.Length ==> IsInt32(a[i])
      invariant forall i :: 0 <= i < a.Length ==> a[i] == if Touched(i, start, length, j) then goal[i] else before[i]
    {
      InverseGoal(before, start, length, zeta, j);
      var t, u := a[j], a[j + length];
      a[j] := ModQ(t + u);
      a[j + length] := ModQ(t - u);
      NonNegativeProduct(zeta, a[j + length]);
      MergeValue(zeta, t, u, a[j + length]);
      a[j + length] := MulRem(zeta, a[j + length]);
    }
    UntouchedGoal(before, start, length, Merge(x, y, zeta));
    assert a[..] == goal;
  }

  lemma InverseGoal(a: Poly, start: nat, length: nat, z: int, j: nat)
    requires start + 2 * length <= |a| && start <= j < start + length
    ensures var x, y := a[start..start + length], a[start + length..start + 2 * length];
      var goal := Replaced(a, start, 2 * length, Merge(x, y, z));
      goal[j] == Red(a[j] + a[j + length]) && goal[j + length] == Red(z * (a[j] - a[j + length]))
  {
    hide Red, Merge, Replaced;
    var x, y := a[start..start + length], a[start + length..start + 2 * length];
    MergeAt(x, y, z, j - start);
    ReplacedAt(a, start, 2 * length, Merge(x, y, z), j);
    ReplacedAt(a, start, 2 * length, Merge(x, y, z), j + length);
  }

  lemma NonNegativeProduct(z: int, x: int)
    requires 0 <= z <= 8380417 && 0 <= x < 8380417
    ensures 0 <= z * x && IsInt64(z * x)
  {
    MulLe(z, x, 8380417, 8380417);
  }

  lemma MergeRange(a: Poly, b: Poly, o: nat, n: nat, x: Poly, y: Poly, z: int)
    requires |x| == |y| && n == 2 * |x| && Patched(a, b, o, n, Merge(x, y, z))
    requires Int32Poly(a) && forall j :: 0 <= j < o ==> 0 <= a[j] < 8380417
    ensures Int32Poly(b) && forall j :: 0 <= j < o + n ==> 0 <= b[j] < 8380417
  {
    hide Red;
    assert Reduced(Merge(x, y, z)) by { MergeReduced(x, y, z); }
    PatchedRange(a, b, o, n, Merge(x, y, z));
  }

  lemma MergeReduced(x: Poly, y: Poly, z: int)
    requires |x| == |y|
    ensures Reduced(Merge(x, y, z))
  {
  }

  /** One layer of the inverse transform; k counts down through the table. */
  method InverseLayer(t: Tables, a: array<int>, k0: nat, length: nat, ghost d: nat, ghost input: Poly)
    returns (k: nat)
    requires t.Valid() && a.Length == 256 && Int32Poly(a[..]) && |input| == 256
    requires 0 < d <= 8 && length == Exp2(d - 1) && k0 == Exp2(8 - (d - 1))
    requires AllMerged(a[..], input, d - 1, 0, Exp2(8 - (d - 1)))
    modifies a
    ensures AllMerged(a[..], input, d, 0, Exp2(8 - d)) && ReducedPoly(a[..]) && Int32Poly(a[..])
    ensures k == Exp2(8 - d)
  {
    hide ZetaTable, Red, Zeta, Merge, Patched, Off, NINV, Merged, Exp2;
    k := k0;
    var start := 0;
    ghost var i: nat, n: nat := 0, 2 * length;
    ghost var m := Exp2(8 - d);
    LevelNode(0, d);
    Level(d);
    while start < 256
      invariant i <= m && start == Off(i, n) <= 256 && k == k0 - i
      invariant MidMerge(a[..], input, d, i)
      invariant Int32Poly(a[..])
      invariant forall j :: 0 <= j < start ==> 0 <= a[j] < 8380417
      decreases m - i
    {
      BlockExists(i, m, n);
      LevelNode(i, d);
      NodeRange(m + i, d);
      k := k - 1;
      ZetaEntry(t, k);
      var zeta := 8380417 - t.zetas[k];
      assert zeta == InvZeta(ZetaTable(), m + i, d);
      ghost var before := a[..];
      ghost var x, y := before[start..start + length], before[start + length..start + n];
      InverseBlock(a, start, length, zeta);
      MergeMidStep(before, a[..], input, d, i, start, length, zeta, x, y);
      MergeRange(before, a[..], start, n, x, y, zeta);
      OffNext(i, n);
      start := start + 2 * length;
      i := i + 1;
    }
    BlocksDone(i, m, n);
  }

  /** `nttInverse`: in place, with the result in [0, Q). */
  method NttInverse(t: Tables, a: array<int>)
    requires t.Valid() && a.Length == 256 && Int32Poly(a[..])
    modifies a
    ensures a[..] == Backward(old(a[..])) && ReducedPoly(a[..])
  {
    hide ZetaTable, Red, Zeta, Merged, NINV, Inv, ScaleRed;
    ghost var input := a[..];
    MergedLeaves(input);
    BackwardReduced(input);
    RootNode();
    assert Exp2(0) == 1;
    var k := 256;
    var length := 1;
    ghost var d: nat := 0;
    while length < 256
      invariant d <= 8 && length == Exp2(d) && k == Exp2(8 - d)
      invariant Int32Poly(a[..]) && (d > 0 ==> Reduced(a[..]))
      invariant AllMerged(a[..], input, d, 0, Exp2(8 - d))
      decreases 8 - d
    {
      SizeBelowRoot(d);
      k := InverseLayer(t, a, k, length, d + 1, input);
      length := length * 2;
      d := d + 1;
    }
    SizeAtRoot(d);
    assert Merged(a[..], input, 0, 8);
    MergedRoot(a[..], input);
    ghost var merged := a[..];
    for j := 0 to 256
      invariant forall i :: 0 <= i < j ==> a[i] == Red(NINV * merged[i])
      invariant forall i :: j <= i < 256 ==> a[i] == merged[i]
    {
      NinvRange(t);
      NonNegativeProduct(t.ninv, a[j]);
      a[j] := MulRem(t.ninv, a[j]);
    }
    ScaledResult(a[..], merged);
  }

  lemma NinvRange(t: Tables)
    requires t.Valid()
    ensures t.ninv == NINV && 0 <= t.ninv < 8380417
  {
  }

  lemma ScaledResult(a: Poly, merged: Poly)
    requires |a| == |merged| && forall i :: 0 <= i < |a| ==> a[i] == Red(NINV * merged[i])
    ensures a == ScaleRed(NINV, merged)
  {
    hide Red, NINV;
  }

  lemma SizeBelowRoot(d: nat)
    requires d <= 8 && Exp2(d) < 256
    ensures d < 8 && Exp2(d + 1) == 2 * Exp2(d) && Exp2(8 - d) == 2 * Exp2(8 - (d + 1))
  {
    assert Exp2(8) == 256;
  }

  lemma SizeAtRoot(d: nat)
    requires d <= 8 && Exp2(d) >= 256
    ensures d == 8 && Exp2(8 - d) == 1
  {
    assert Exp2(7) == 128;
    if d < 8 {
      Exp2Monotone(d, 7);
    }
  }

  // ---- the remaining array helpers -----------------------------------------------------

  /** `nttCopy`: the transform of a copy. */
  method NttCopy(t: Tables, a: Poly) returns (c: Poly)
    requires t.Valid() && Int32Poly(a)
    ensures c == Forward(a) && ReducedPoly(c)
  {
    hide Forward, Zeta, ZetaTable;
    var buffer := new int[256](i requires 0 <= i < 256 => a[i]);
    assert buffer[..] == a;
    NttForward(t, buffer);
    c := buffer[..];
  }

  lemma Int32Product(x: int, y: int)
    requires IsInt32(x) && IsInt32(y)
    ensures IsInt64(x * y)
  {
    var a, b := if x < 0 then -x else x, if y < 0 then -y else y;
    MulLe(a, b, 0x8000_0000, 0x8000_0000);
    assert x * y == a * b || x * y == -(a * b);
  }

  lemma ProductResidue(x: int, y: int, r: int)
    requires Red(r) == Red(x * y)
    ensures Cong(r, Red(x * y))
  {
    hide Red;
    RedRed(x * y);
  }

  /** `pointwise`: congruent to the products for all int32 coefficients, and the products' residues
      for reduced ones. */
  method PointwiseMul(a: Poly, b: Poly) returns (c: Poly)
    requires Int32Poly(a) && Int32Poly(b)
    ensures CongSeq(c, Pointwise(a, b)) && forall i :: 0 <= i < |c| ==> -8380417 < c[i] < 8380417
    ensures ReducedPoly(a) && ReducedPoly(b) ==> c == Pointwise(a, b) && ReducedPoly(c)
  {
    hide Red, Rem;
    c := [];
    for i := 0 to 256
      invariant |c| == i
      invariant forall j :: 0 <= j < i ==> Cong(c[j], Red(a[j] * b[j])) && -8380417 < c[j] < 8380417
      invariant ReducedPoly(a) && ReducedPoly(b) ==> forall j :: 0 <= j < i ==> c[j] == Red(a[j] * b[j])
    {
      Int32Product(a[i], b[i]);
      if ReducedPoly(a) && ReducedPoly(b) {
        NonNegativeProduct(a[i], b[i]);
      }
      var r := MulRem(a[i], b[i]);
      ProductResidue(a[i], b[i], r);
      c := c + [r];
    }
  }

  /** `polyAddInto`. */
  method PolyAddInto(dst: array<int>, src: Poly)
    requires dst.Length == 256 && Int32Poly(dst[..]) && Int32Poly(src)
    modifies dst
    ensures dst[..] == AddRed(old(dst[..]), src) && ReducedPoly(dst[..])
  {
    hide Red;
    for i := 0 to 256
      invariant forall j :: 0 <= j < i ==> dst[j] == Red(old(dst[j]) + src[j])
      invariant forall j :: i <= j < 256 ==> dst[j] == old(dst[j])
    {
      dst[i] := ModQ(dst[i] + src[i]);
    }
  }
}
