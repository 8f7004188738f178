/**
 Key generation, signing and verification step by step, as the Go package runs them. Each
 procedure returns what the function of the same name in Scheme describes, so what Completeness
 proves of those functions holds of these loops.
 */
module Signer {
  import opened Modular
  import opened Outcomes
  import opened Zetas
  import opened NttTree
  import opened Transform
  import opened NttLoops
  import opened Rounding
  import opened BitPacking
  import opened HintCodec
  import opened Sampling
  import opened Challenge
  import opened PolyAlgebra
  import opened Scheme
  import opened Schoolbook
  import opened Encodings
  import opened Completeness
  import opened KeyCodec

  /** `bitlen`. */
  method BitLength(x: int) returns (n: nat)
    ensures n == BitLen(x)
  {
    n := 0;
    var v := x;
    while v > 0
      invariant n + BitLen(v) == BitLen(x)
    {
      n := n + 1;
      v := v / 2;
    }
  }

  ghost predicate Int32Vec(v: PolyVec) {
    forall i :: 0 <= i < |v| ==> Int32Poly(v[i])
  }

  lemma ReducedIsInt32(p: Poly256)
    requires ReducedPoly(p)
    ensures Int32Poly(p)
  {
  }

  lemma SmallIsInt32(p: Poly256, bound: int)
    requires Small(p, bound) && bound < 0x8000_0000
    ensures Int32Poly(p)
  {
  }

  // ---- sampling -------------------------------------------------------------------------------

  lemma LiveStreams(x: Xof)
    requires LiveXof(x)
    ensures forall rho, s, r :: Enough(NttCandidates(NttStream(x, rho, s, r)), 256)
    ensures forall rhoP, nonce, eta: Eta :: Enough(HalfByteCandidates(BoundedStream(x, rhoP, nonce), eta), 256)
    ensures forall b, tau: Tau :: BallOk(x.shake256(b), tau)
  {
    hide Enough, NttCandidates, HalfByteCandidates, BallOk;
  }

  /** `expandA`. */
  method ExpandA(x: Xof, rho: seq<byte>, k: Dimension, l: Dimension) returns (a: seq<PolyVec>)
    requires LiveXof(x)
    ensures |a| == k && forall r :: 0 <= r < k ==> a[r] == MatrixRow(x, rho, r, l)
  {
    hide LiveXof, Enough, MatrixEntry, NttCandidates;
    LiveStreams(x);
    a := [];
    for r := 0 to k
      invariant |a| == r && forall i :: 0 <= i < r ==> a[i] == MatrixRow(x, rho, i, l)
    {
      var row: PolyVec := [];
      for s := 0 to l
        invariant |row| == s && forall j :: 0 <= j < s ==> row[j] == MatrixEntry(x, rho, j, r)
      {
        var entry := RejNTTPoly(x, rho, s, r);
        row := row + [entry];
      }
      a := a + [row];
    }
  }

  /** `expandS`. */
  method ExpandS(x: Xof, rhoP: seq<byte>, k: Dimension, l: Dimension, eta: Eta) returns (s1: PolyVec, s2: PolyVec)
    requires LiveXof(x)
    ensures s1 == SecretVec(x, rhoP, 0, l, eta) && s2 == SecretVec(x, rhoP, l, k, eta)
  {
    hide LiveXof, Enough, BoundedPoly, HalfByteCandidates;
    LiveStreams(x);
    s1, s2 := [], [];
    for i := 0 to l
      invariant |s1| == i && forall j :: 0 <= j < i ==> s1[j] == BoundedPoly(x, rhoP, 0 + j, eta)
    {
      var p := RejBoundedPoly(x, rhoP, i, eta);
      s1 := s1 + [p];
    }
    for i := 0 to k
      invariant |s2| == i && forall j :: 0 <= j < i ==> s2[j] == BoundedPoly(x, rhoP, l + j, eta)
    {
      var p := RejBoundedPoly(x, rhoP, l + i, eta);
      s2 := s2 + [p];
    }
  }

  /** Values unpacked at the z width are int32 coefficients. */
  lemma UnpackedInt32(q: Params, buf: seq<byte>)
    ensures Int32Poly(Offset(q.gamma1, Unpack(buf, ZBits(q), 256)))
  {
    hide Unpack, ZBits, Exp2;
    ZBitsFacts(q);
    UnpackInRange(buf, ZBits(q));
  }

  /** `expandMask`. */
  method ExpandMask(x: Xof, rhoPP: seq<byte>, kappa: nat, q: Params) returns (y: PolyVec)
    ensures y == Mask(x, rhoPP, kappa, q) && Int32Vec(y)
  {
    hide BitLen, Unpack, Offset, Int32Poly;
    var width := BitLength(2 * q.gamma1 - 1);
    ZBitsFacts(q);
    y := [];
    for i := 0 to q.l
      invariant |y| == i && Int32Vec(y) && forall j :: 0 <= j < i ==> y[j] == MaskPoly(x, rhoPP, kappa + j, q)
    {
      var nonce := (kappa + i) % 65536;
      var buf := Sum256(x, 256 * width / 8, rhoPP + [nonce % 256, nonce / 256]);
      var p := BitUnpack(buf, q.gamma1, width);
      UnpackedInt32(q, buf);
      y := y + [p];
    }
  }

  // ---- vectors in the transformed domain ----------------------------------------------------------

  method TransformVec(t: Tables, v: PolyVec) returns (r: PolyVec)
    requires t.Valid() && Int32Vec(v)
    ensures r == ForwardVec(v) && ReducedVec(r)
  {
    hide Forward, ReducedPoly, Int32Poly, ZetaTable;
    r := [];
    for i := 0 to |v|
      invariant |r| == i && ReducedVec(r) && forall j :: 0 <= j < i ==> r[j] == Forward(v[j])
    {
      var p := NttCopy(t, v[i]);
      r := r + [p];
    }
  }

  lemma RowAccStep(row: PolyVec, v: PolyVec, n: nat)
    requires n < |row| == |v|
    ensures RowAcc(row, v, 0) == Zero()
    ensures RowAcc(row, v, n + 1) == AddRed(RowAcc(row, v, n), Pointwise(row[n], v[n]))
  {
    hide AddRed, Pointwise;
  }

  /** The sum of the pointwise products of a row with a vector. */
  method RowTimes(row: PolyVec, v: PolyVec) returns (acc: array<int>)
    requires |row| == |v| > 0 && ReducedVec(row) && ReducedVec(v)
    ensures fresh(acc) && acc.Length == 256 && acc[..] == RowProduct(row, v) && ReducedPoly(acc[..])
  {
    hide AddRed, Pointwise, ReducedPoly, RowAcc, Int32Poly;
    acc := new int[256](i => 0);
    RowAccStep(row, v, 0);
    assert acc[..] == Zero();
    assert ReducedPoly(acc[..]) by { ZeroReduced(acc[..]); }
    for j := 0 to |row|
      invariant acc[..] == RowAcc(row, v, j) && ReducedPoly(acc[..])
    {
      RowAccStep(row, v, j);
      ReducedIsInt32(row[j]);
      ReducedIsInt32(v[j]);
      var p := PointwiseMul(row[j], v[j]);
      ReducedIsInt32(p);
      ReducedIsInt32(acc[..]);
      PolyAddInto(acc, p);
    }
  }

  lemma ZeroReduced(a: Poly)
    requires a == Zero()
    ensures ReducedPoly(a)
  {
  }

  /** A pointwise product transformed back. */
  method TimesChallenge(t: Tables, chat: Poly256, vhat: Poly256) returns (r: Poly256)
    requires t.Valid() && ReducedPoly(chat) && ReducedPoly(vhat)
    ensures r == Backward(Pointwise(chat, vhat)) && ReducedPoly(r)
  {
    hide Backward, Pointwise, ReducedPoly, Int32Poly, ZetaTable;
    ReducedIsInt32(chat);
    ReducedIsInt32(vhat);
    var p := PointwiseMul(chat, vhat);
    PolyLength(p);
    ReducedIsInt32(p);
    var a := new int[256](i requires 0 <= i < 256 => p[i]);
    assert a[..] == p;
    NttInverse(t, a);
    r := a[..];
  }

  /** `polyInfNorm` and the norm loops of `Sign`: the largest absolute value so far. */
  function MaxAbs(vals: seq<int>, n: nat, start: nat): (m: nat)
    requires n <= |vals|
  {
    if n == 0 then start else
      var m := MaxAbs(vals, n - 1, start);
      if Abs(vals[n - 1]) > m then Abs(vals[n - 1]) else m
  }

  lemma {:induction false} MaxAbsBelow(vals: seq<int>, n: nat, start: nat, bound: int)
    requires n <= |vals|
    ensures MaxAbs(vals, n, start) < bound <==> start < bound && forall j :: 0 <= j < n ==> Abs(vals[j]) < bound
  {
    if n > 0 {
      MaxAbsBelow(vals, n - 1, start, bound);
    }
  }

  ghost function CenteredSeq(p: Poly256): (r: seq<int>)
    ensures |r| == 256
  {
    seq(256, c requires 0 <= c < 256 => Centered(Red(p[c])))
  }

  ghost function LowSeq(p: Poly256, g: Gamma2): (r: seq<int>)
    ensures |r| == 256
  {
    seq(256, c requires 0 <= c < 256 => LowBits(p[c], g))
  }

  lemma CenteredNorm(p: Poly256, start: nat, bound: int)
    ensures MaxAbs(CenteredSeq(p), 256, start) < bound <==> start < bound && PolyNormBelow(p, bound)
  {
    hide Red, MaxAbs;
    MaxAbsBelow(CenteredSeq(p), 256, start, bound);
    if MaxAbs(CenteredSeq(p), 256, start) < bound {
      forall c | 0 <= c < 256
        ensures Abs(Centered(Red(p[c]))) < bound
      {
        assert Abs(CenteredSeq(p)[c]) < bound;
      }
    }
  }

  lemma LowNorm(p: Poly256, g: Gamma2, start: nat, bound: int)
    ensures MaxAbs(LowSeq(p, g), 256, start) < bound <==> start < bound && PolyLowBitsBelow(p, bound, g)
  {
    hide LowBits, MaxAbs;
    MaxAbsBelow(LowSeq(p, g), 256, start, bound);
    if MaxAbs(LowSeq(p, g), 256, start) < bound {
      forall c | 0 <= c < 256
        ensures Abs(LowBits(p[c], g)) < bound
      {
        assert Abs(LowSeq(p, g)[c]) < bound;
      }
    }
  }

  /** `polyInfNorm`. */
  method PolyInfNorm(p: Poly256) returns (max: nat)
    requires Int32Poly(p)
    ensures max == MaxAbs(CenteredSeq(p), 256, 0)
  {
    hide Red;
    max := 0;
    for c := 0 to 256
      invariant max == MaxAbs(CenteredSeq(p), c, 0)
    {
      var a := Centered(ModQ(p[c]));
      if a < 0 {
        a := -a;
      }
      if a > max {
        max := a;
      }
    }
  }

  lemma NormBelowStep(v: PolyVec, i: nat, bound: int)
    requires i < |v|
    ensures NormBelow(v[..i + 1], bound) <==> NormBelow(v[..i], bound) && PolyNormBelow(v[i], bound)
  {
    hide PolyNormBelow;
    var u := v[..i + 1];
    assert u[i] == v[i];
    assert forall j :: 0 <= j < i ==> u[j] == v[..i][j];
  }

  /** `polyVecInfNorm`: below a positive bound exactly when every coefficient is. */
  method PolyVecInfNorm(v: PolyVec) returns (max: nat)
    requires Int32Vec(v)
    ensures forall bound: int :: bound > 0 ==> (max < bound <==> NormBelow(v, bound))
  {
    hide MaxAbs, CenteredSeq, PolyNormBelow, Int32Poly;
    max := 0;
    for i := 0 to |v|
      invariant forall bound: int :: bound > 0 ==> (max < bound <==> NormBelow(v[..i], bound))
    {
      var n := PolyInfNorm(v[i]);
      ghost var before := max;
      if n > max {
        max := n;
      }
      ghost var done := v[..i + 1];
      forall bound: int | bound > 0
        ensures max < bound <==> NormBelow(done, bound)
      {
        CenteredNorm(v[i], 0, bound);
        NormBelowStep(v, i, bound);
        assert before < bound <==> NormBelow(v[..i], bound);
      }
    }
    assert v[..|v|] == v;
  }

  // ---- key generation ---------------------------------------------------------------------------

  /** The integer constants the parameter sets are named by; others are unknown. */
  function SetOf(param: int): Option<ParameterSet> {
    match param
    case 0 => Some(MLDSA44)
    case 1 => Some(MLDSA65)
    case 2 => Some(MLDSA87)
    case _ => None
  }

  lemma SecretVecInt32(x: Xof, rhoP: seq<byte>, first: nat, n: nat, eta: Eta)
    ensures Int32Vec(SecretVec(x, rhoP, first, n, eta))
  {
    hide BoundedPoly, Small, Int32Poly;
    forall i | 0 <= i < n
      ensures Int32Poly(SecretVec(x, rhoP, first, n, eta)[i])
    {
      BoundedPolySmall(x, rhoP, first + i, eta);
      SmallIsInt32(BoundedPoly(x, rhoP, first + i, eta), eta);
    }
  }

  /** Both halves of every coefficient. */
  method SplitPoly(t: Poly256) returns (t1: T1Poly, t0: Poly256)
    ensures t1 == HighPart(t) && t0 == LowPart(t)
  {
    hide Power2Round;
    var hi: seq<nat>, lo: seq<int> := [], [];
    for c := 0 to 256
      invariant |hi| == |lo| == c
      invariant forall j :: 0 <= j < c ==> hi[j] == Power2Round(t[j]).0 && lo[j] == Power2Round(t[j]).1
    {
      var (a, b) := Power2Round(t[c]);
      hi, lo := hi + [a], lo + [b];
    }
    assert hi == HighPart(t);
    t1, t0 := hi, lo;
  }

  /** Row i of t = A·s1 + s2. */
  method PublicRow(t: Tables, row: PolyVec, s1hat: PolyVec, s2: Poly256, ghost s1: PolyVec) returns (v: Poly256)
    requires t.Valid() && |row| == |s1| > 0 && ReducedVec(row) && ReducedVec(s1hat)
    requires s1hat == ForwardVec(s1) && Int32Poly(s2)
    ensures v == PublicValue(row, s1, s2)
  {
    hide Backward, RowProduct, ForwardVec, AddRed, ReducedVec, ReducedPoly, Int32Poly, ZetaTable;
    var acc := RowTimes(row, s1hat);
    ReducedIsInt32(acc[..]);
    NttInverse(t, acc);
    ReducedIsInt32(acc[..]);
    PolyAddInto(acc, s2);
    v := acc[..];
  }

  datatype GenerateError = UnknownParameterSet

  /** `keyGenFromSeed`: fails for an unknown parameter set only. */
  method KeyGen(x: Xof, t: Tables, param: int, xi: seq<byte>) returns (r: Result<(PublicKey, SecretKey), GenerateError>)
    requires t.Valid() && LiveXof(x)
    ensures r == match SetOf(param)
                 case None => Err(UnknownParameterSet)
                 case Some(p) => Ok(GenerateKeys(x, Info(p), xi))
  {
    hide LiveXof, ReducedVec, Int32Poly, PublicValue, MatrixRow, HighPart, LowPart, BoundedPoly, ForwardVec,
      EncodePublicKey, ZetaTable, Info;
    if SetOf(param).None? {
      return Err(UnknownParameterSet);
    }
    var q := Info(SetOf(param).value);
    var expanded := Sum256(x, 128, xi + [q.k] + [q.l]);
    var rho, rhoP, key := expanded[0..32], expanded[32..96], expanded[96..128];
    var a := ExpandA(x, rho, q.k, q.l);
    var s1, s2 := ExpandS(x, rhoP, q.k, q.l, q.eta);
    SecretVecInt32(x, rhoP, 0, q.l, q.eta);
    SecretVecInt32(x, rhoP, q.l, q.k, q.eta);
    var s1hat := TransformVec(t, s1);
    var t1: seq<T1Poly>, t0: PolyVec := [], [];
    for i := 0 to q.k
      invariant |t1| == |t0| == i
      invariant forall j :: 0 <= j < i ==> t1[j] == HighPart(PublicValue(MatrixRow(x, rho, j, q.l), s1, s2[j]))
      invariant forall j :: 0 <= j < i ==> t0[j] == LowPart(PublicValue(MatrixRow(x, rho, j, q.l), s1, s2[j]))
    {
      MatrixRowReduced(x, rho, i, q.l);
      var v := PublicRow(t, a[i], s1hat, s2[i], s1);
      var hi, lo := SplitPoly(v);
      t1, t0 := t1 + [hi], t0 + [lo];
    }
    var pk := PublicKey(rho, t1);
    var encoded := PublicKeyToBytes(pk);
    var sk := SecretKey(rho, key, Sum256(x, 64, encoded), s1, s2, t0);
    GeneratedParts(x, q, xi, pk, sk);
    return Ok((pk, sk));
  }

  lemma GeneratedParts(x: Xof, q: Params, xi: seq<byte>, pk: PublicKey, sk: SecretKey)
    requires var seed := Sum256(x, 128, xi + [q.k] + [q.l]);
      && pk.rho == sk.rho == seed[0..32] && sk.key == seed[96..128]
      && sk.s1 == SecretVec(x, seed[32..96], 0, q.l, q.eta) && sk.s2 == SecretVec(x, seed[32..96], q.l, q.k, q.eta)
    requires |pk.t1| == |sk.t0| == q.k && sk.tr == Sum256(x, 64, EncodePublicKey(pk))
    requires forall i :: 0 <= i < q.k ==> SplitRow(MatrixRow(x, sk.rho, i, q.l), sk.s1, sk.s2[i], pk.t1[i], sk.t0[i])
    ensures GenerateKeys(x, q, xi) == (pk, sk)
  {
    hide PublicValue, MatrixRow, HighPart, LowPart, EncodePublicKey, BoundedPoly;
    var seed := Sum256(x, 128, xi + [q.k] + [q.l]);
    assert seed[..32] == seed[0..32] && seed[96..] == seed[96..128];
    assert GenerateKeys(x, q, xi).0.t1 == pk.t1;
    assert GenerateKeys(x, q, xi).1.t0 == sk.t0;
  }

  // ---- signing ------------------------------------------------------------------------------------

  /** Row i of the commitment and its high bits. */
  method CommitRow(t: Tables, row: PolyVec, yhat: PolyVec, g: Gamma2, ghost y: PolyVec) returns (w: Poly256, w1: seq<nat>)
    requires t.Valid() && |row| == |y| > 0 && ReducedVec(row) && ReducedVec(yhat) && yhat == ForwardVec(y)
    ensures w == Backward(RowProduct(row, ForwardVec(y))) && ReducedPoly(w) && w1 == HighBitsPoly(w, g)
  {
    hide Backward, RowProduct, ForwardVec, ReducedVec, ReducedPoly, Int32Poly, ZetaTable, HighBits;
    var acc := RowTimes(row, yhat);
    ReducedIsInt32(acc[..]);
    NttInverse(t, acc);
    w := acc[..];
    w1 := [];
    for c := 0 to 256
      invariant |w1| == c && forall j :: 0 <= j < c ==> w1[j] == HighBits(w[j], g)
    {
      w1 := w1 + [HighBits(w[c], g)];
    }
  }

  /** w = A·y and its high bits. */
  method Commit(x: Xof, t: Tables, q: Params, rho: seq<byte>, a: seq<PolyVec>, y: PolyVec)
    returns (w: PolyVec, w1: seq<seq<nat>>)
    requires t.Valid() && |y| == q.l && Int32Vec(y)
    requires |a| == q.k && forall r :: 0 <= r < q.k ==> a[r] == MatrixRow(x, rho, r, q.l)
    ensures w == Commitment(x, rho, y, q) && w1 == HighBitsVec(w, q.gamma2) && ReducedVec(w)
  {
    hide Backward, RowProduct, ForwardVec, ReducedPoly, Int32Vec, ZetaTable, HighBitsPoly, MatrixRow;
    var yhat := TransformVec(t, y);
    w, w1 := [], [];
    for i := 0 to q.k
      invariant |w| == |w1| == i && ReducedVec(w)
      invariant forall j :: 0 <= j < i ==> w[j] == Backward(RowProduct(MatrixRow(x, rho, j, q.l), ForwardVec(y)))
      invariant forall j :: 0 <= j < i ==> w1[j] == HighBitsPoly(w[j], q.gamma2)
    {
      MatrixRowReduced(x, rho, i, q.l);
      var p, high := CommitRow(t, a[i], yhat, q.gamma2, y);
      w, w1 := w + [p], w1 + [high];
    }
  }

  /** `packW1`. */
  method PackW1(w1: seq<seq<nat>>, width: nat) returns (out: seq<byte>)
    requires width <= 32 && forall i :: 0 <= i < |w1| ==> Fits(w1[i], width)
    ensures out == PackAll(w1, width)
  {
    hide Pack, Exp2, Fits;
    out := [];
    for i := 0 to |w1|
      invariant out == PackAll(w1[..i], width)
    {
      var b := SimpleBitPack(w1[i], width);
      assert w1[..i + 1][..i] == w1[..i];
      out := out + b;
    }
    assert w1[..|w1|] == w1;
  }

  lemma HighBitsFit(q: Params, w: Poly256)
    ensures Fits(HighBitsPoly(w, q.gamma2), W1Bits(q))
  {
    hide HighBits, W1Bits, Exp2;
    W1BitsFacts(q);
  }

  /** The challenge hash of a commitment. */
  method HashCommitment(x: Xof, q: Params, mu: seq<byte>, w1: seq<seq<nat>>) returns (h: seq<byte>)
    requires forall i :: 0 <= i < |w1| ==> Fits(w1[i], W1Bits(q))
    ensures h == ChallengeHash(x, q, mu, w1)
  {
    hide PackAll, Fits, BitLen;
    var width := BitLength(8380416 / (2 * q.gamma2) - 1);
    W1BitsFacts(q);
    var packed := PackW1(w1, width);
    h := Sum256(x, q.ctBytes, mu + packed);
  }

  /** z_j = y_j + c·s1_j. */
  method RespondPoly(y: Poly256, cs1: Poly256) returns (z: Poly256)
    requires Int32Poly(y) && ReducedPoly(cs1)
    ensures z == ResponsePoly(y, cs1) && Int32Poly(z)
  {
    hide Red;
    var r: seq<int> := [];
    for c := 0 to 256
      invariant |r| == c && forall j :: 0 <= j < c ==> r[j] == Centered(Red(y[j] + cs1[j]))
    {
      r := r + [Centered(ModQ(y[c] + cs1[c]))];
    }
    z := r;
  }

  method Respond(t: Tables, y: PolyVec, chat: Poly256, s1hat: PolyVec, ghost c: Poly256, ghost s1: PolyVec)
    returns (z: PolyVec)
    requires t.Valid() && |y| == |s1| && Int32Vec(y) && ReducedPoly(chat) && ReducedVec(s1hat)
    requires chat == Forward(c) && s1hat == ForwardVec(s1)
    ensures z == ResponseVec(y, c, s1) && Int32Vec(z)
  {
    hide ResponsePoly, Backward, Forward, Pointwise, Int32Poly, ReducedPoly, ZetaTable;
    z := [];
    for j := 0 to |y|
      invariant |z| == j && Int32Vec(z)
      invariant forall i :: 0 <= i < j ==> z[i] == ResponsePoly(y[i], ChallengeTimes(c, s1[i]))
    {
      var cs1 := TimesChallenge(t, chat, s1hat[j]);
      var p := RespondPoly(y[j], cs1);
      z := z + [p];
    }
  }

  /** Row i of w - c·s2, and the running norm of the low bits. */
  method ResidualRow(w: Poly256, cs2: Poly256, g: Gamma2, start: nat) returns (r: Poly256, norm: nat)
    requires ReducedPoly(w) && ReducedPoly(cs2)
    ensures r == SubRed(w, cs2) && ReducedPoly(r) && norm == MaxAbs(LowSeq(r, g), 256, start)
  {
    hide Red, LowBits;
    var v: seq<int> := [];
    norm := start;
    ghost var goal: Poly256 := SubRed(w, cs2);
    for c := 0 to 256
      invariant |v| == c && v == goal[..c]
      invariant norm == MaxAbs(LowSeq(goal, g), c, start)
    {
      var d := ModQ(w[c] - cs2[c]);
      assert d == goal[c];
      v := v + [d];
      var lb := LowBits(d, g);
      if lb < 0 {
        lb := -lb;
      }
      if lb > norm {
        norm := lb;
      }
    }
    r := v;
  }

  lemma LowBelowStep(v: PolyVec, p: Poly256, bound: int, g: Gamma2)
    ensures LowBitsBelow(v + [p], bound, g) <==> LowBitsBelow(v, bound, g) && PolyLowBitsBelow(p, bound, g)
  {
    hide PolyLowBitsBelow;
    var u := v + [p];
    assert u[|v|] == p;
    assert forall j :: 0 <= j < |v| ==> u[j] == v[j];
  }

  lemma NormBelowAppend(v: PolyVec, p: Poly256, bound: int)
    ensures NormBelow(v + [p], bound) <==> NormBelow(v, bound) && PolyNormBelow(p, bound)
  {
    hide PolyNormBelow;
    var u := v + [p];
    assert u[|v|] == p;
    assert forall j :: 0 <= j < |v| ==> u[j] == v[j];
  }

  /** w - c·s2 and whether its low bits stay below the bound. */
  method Residual(t: Tables, q: Params, w: PolyVec, chat: Poly256, s2hat: PolyVec, ghost c: Poly256, ghost s2: PolyVec)
    returns (r: PolyVec, norm: nat)
    requires t.Valid() && |w| == |s2| && ReducedVec(w) && ReducedPoly(chat) && ReducedVec(s2hat)
    requires chat == Forward(c) && s2hat == ForwardVec(s2) && q.beta < q.gamma2
    ensures r == ResidualVec(w, c, s2) && ReducedVec(r)
    ensures norm < q.gamma2 - q.beta <==> LowBitsBelow(r, q.gamma2 - q.beta, q.gamma2)
  {
    hide Backward, Forward, Pointwise, ReducedPoly, ZetaTable, SubRed, MaxAbs, LowSeq, PolyLowBitsBelow;
    r, norm := [], 0;
    ghost var bound := q.gamma2 - q.beta;
    for i := 0 to |w|
      invariant |r| == i && ReducedVec(r)
      invariant forall j :: 0 <= j < i ==> r[j] == SubRed(w[j], ChallengeTimes(c, s2[j]))
      invariant norm < bound <==> LowBitsBelow(r, bound, q.gamma2)
    {
      var cs2 := TimesChallenge(t, chat, s2hat[i]);
      ghost var before := norm;
      var p;
      p, norm := ResidualRow(w[i], cs2, q.gamma2, norm);
      LowNorm(p, q.gamma2, before, bound);
      LowBelowStep(r, p, bound, q.gamma2);
      r := r + [p];
    }
  }

  /** Row i of the hints, with the running norm of c·t0 and the running number of ones. */
  method HintRow(r: Poly256, ct0: Poly256, g: Gamma2, start: nat, count0: nat) returns (h: Poly256, norm: nat, count: nat)
    requires ReducedPoly(r) && ReducedPoly(ct0)
    ensures h == HintPoly(r, ct0, g)
    ensures norm == MaxAbs(CenteredSeq(ct0), 256, start) && count == count0 + |Ones(h, 256)|
  {
    hide Red, HighBits, Ones;
    ghost var goal := HintPoly(r, ct0, g);
    var v: seq<int> := [];
    norm, count := start, count0;
    OnesStep(goal, 0);
    for c := 0 to 256
      invariant |v| == c && v == goal[..c]
      invariant norm == MaxAbs(CenteredSeq(ct0), c, start) && count == count0 + |Ones(goal, c)|
    {
      OnesStep(goal, c);
      var abs := Centered(ModQ(ct0[c]));
      if abs < 0 {
        abs := -abs;
      }
      if abs > norm {
        norm := abs;
      }
      var hi1, hi2 := HighBits(ModQ(r[c] + ct0[c]), g), HighBits(r[c], g);
      if hi1 != hi2 {
        v := v + [1];
        count := count + 1;
      } else {
        v := v + [0];
      }
    }
    assert v == goal;
    h := v;
  }

  lemma {:induction false} AllOnesOfPrefix(h: Hints, p: Poly256, n: nat)
    requires n <= |h|
    ensures AllOnes(h + [p], n) == AllOnes(h, n)
  {
    hide Ones;
    if n > 0 {
      AllOnesOfPrefix(h, p, n - 1);
    }
  }

  lemma WeightAppend(h: Hints, p: Poly256)
    ensures Weight(h + [p]) == Weight(h) + |Ones(p, 256)|
  {
    hide Ones, AllOnes;
    AllOnesOfPrefix(h, p, |h|);
    AllOnesStep(h + [p], |h|);
  }

  /** The hints, whether c·t0 stays below gamma2, and the number of ones. */
  method MakeHints(t: Tables, q: Params, r: PolyVec, chat: Poly256, t0hat: PolyVec, ghost c: Poly256, ghost t0: PolyVec)
    returns (h: Hints, norm: nat, count: nat)
    requires t.Valid() && |r| == |t0| && ReducedVec(r) && ReducedPoly(chat) && ReducedVec(t0hat)
    requires chat == Forward(c) && t0hat == ForwardVec(t0)
    ensures h == HintVec(r, ChallengeTimesVec(c, t0), q.gamma2) && count == Weight(h)
    ensures norm < q.gamma2 <==> NormBelow(ChallengeTimesVec(c, t0), q.gamma2)
  {
    hide Backward, Forward, Pointwise, ReducedPoly, ZetaTable, MaxAbs, CenteredSeq, PolyNormBelow, HintPoly, Ones, Weight;
    h, norm, count := [], 0, 0;
    ghost var done: PolyVec := [];
    NoWeight();
    for i := 0 to |r|
      invariant |h| == |done| == i && count == Weight(h)
      invariant forall j :: 0 <= j < i ==> done[j] == ChallengeTimes(c, t0[j])
      invariant forall j :: 0 <= j < i ==> h[j] == HintPoly(r[j], ChallengeTimes(c, t0[j]), q.gamma2)
      invariant norm < q.gamma2 <==> NormBelow(done, q.gamma2)
    {
      var ct0 := TimesChallenge(t, chat, t0hat[i]);
      ghost var before := norm;
      var p;
      p, norm, count := HintRow(r[i], ct0, q.gamma2, norm, count);
      CenteredNorm(ct0, before, q.gamma2);
      NormBelowAppend(done, ct0, q.gamma2);
      WeightAppend(h, p);
      h, done := h + [p], done + [ct0];
    }
    assert done == ChallengeTimesVec(c, t0);
  }

  lemma NoWeight()
    ensures Weight([]) == 0
  {
  }

  /** cTilde, the packed z, the packed hints. */
  method Assemble(q: Params, t: Trial) returns (r: Option<seq<byte>>)
    requires NormBelow(t.z, q.gamma1) && CenteredVec(t.z)
    ensures r.Some? <==> Weight(t.h) <= q.omega
    ensures r.Some? ==> r.value == EncodeSignature(q, t)
  {
    hide Pack, Exp2, FitsOffset, Offset, OffsetWords, BitLen, PolyNormBelow, HintByte, IsEncoding, Weight;
    var zbits := BitLength(2 * q.gamma1 - 1);
    ZBitsFacts(q);
    ghost var vs := OffsetVec(q.gamma1, t.z);
    var sig := t.ctilde;
    for j := 0 to |t.z|
      invariant sig == t.ctilde + PackAll(vs[..j], zbits)
    {
      StoredWords(q, t.z[j]);
      var b := BitPack(t.z[j], q.gamma1, zbits);
      assert vs[..j + 1][..j] == vs[..j];
      sig := sig + b;
    }
    assert vs[..|t.z|] == vs;
    var hints := HintPack(t.h, q.omega);
    if hints.None? {
      return None;
    }
    EncodingIsHintBytes(t.h, q.omega, hints.value);
    return Some(sig + hints.value);
  }

  /** What signing computes once, before its loop. */
  ghost predicate Prepared(x: Xof, q: Params, sk: SecretKey, a: seq<PolyVec>, s1hat: PolyVec, s2hat: PolyVec, t0hat: PolyVec) {
    && ShapedKey(q, sk) && |a| == q.k
    && (forall r :: 0 <= r < q.k ==> a[r] == MatrixRow(x, sk.rho, r, q.l))
    && s1hat == ForwardVec(sk.s1) && s2hat == ForwardVec(sk.s2) && t0hat == ForwardVec(sk.t0)
    && ReducedVec(s1hat) && ReducedVec(s2hat) && ReducedVec(t0hat)
  }

  lemma SparseIsInt32(c: Poly256, tau: nat)
    requires Sparse(c, tau)
    ensures Int32Poly(c)
  {
    hide AbsSum;
  }

  /** One pass of the signing loop; None where the source continues with the next one. */
  method Attempt(x: Xof, tables: Tables, q: Params, sk: SecretKey, a: seq<PolyVec>, s1hat: PolyVec, s2hat: PolyVec,
                 t0hat: PolyVec, mu: seq<byte>, rhoPP: seq<byte>, kappa: nat) returns (r: Option<seq<byte>>)
    requires tables.Valid() && LiveXof(x) && 0 < q.beta < q.gamma2 && q.beta < q.gamma1
    requires Prepared(x, q, sk, a, s1hat, s2hat, t0hat)
    ensures r.Some? <==> Survives(q, MakeTrial(x, q, sk, mu, rhoPP, kappa))
    ensures r.Some? ==> r.value == EncodeSignature(q, MakeTrial(x, q, sk, mu, rhoPP, kappa))
  {
    hide LiveXof, Mask, Commitment, HighBitsVec, ChallengeHash, ChallengePoly, ResponseVec, ResidualVec, HintVec, ForwardVec,
      ChallengeTimesVec, NormBelow, LowBitsBelow, Weight, Int32Vec, Enough, ReducedPoly, Int32Poly, Forward, EncodeSignature,
      Sparse, CenteredVec, ZetaTable, MatrixRow, W1Bits, Fits, BallOk;
    var y := ExpandMask(x, rhoPP, kappa, q);
    var w, w1 := Commit(x, tables, q, sk.rho, a, y);
    HighBitsVecFit(q, w);
    var ctilde := HashCommitment(x, q, mu, w1);
    LiveStreams(x);
    var c := SampleInBall(x, ctilde, q.tau);
    ChallengeBounded(x, ctilde, q.tau);
    SparseIsInt32(c, q.tau);
    var chat := NttCopy(tables, c);
    ghost var t := MakeTrial(x, q, sk, mu, rhoPP, kappa);
    var z := Respond(tables, y, chat, s1hat, c, sk.s1);
    assert z == t.z;
    var znorm := PolyVecInfNorm(z);
    if znorm >= q.gamma1 - q.beta {
      return None;
    }
    var res, r0norm := Residual(tables, q, w, chat, s2hat, c, sk.s2);
    assert res == t.r;
    if r0norm >= q.gamma2 - q.beta {
      return None;
    }
    var h, ct0norm, count := MakeHints(tables, q, res, chat, t0hat, c, sk.t0);
    assert h == t.h;
    if ct0norm >= q.gamma2 {
      return None;
    }
    if count > q.omega {
      return None;
    }
    NormWeaker(z, q.gamma1 - q.beta, q.gamma1);
    ResponseCentered(y, c, sk.s1);
    r := Assemble(q, Trial(y, w, ctilde, c, z, res, [], h));
    SameEncoding(q, Trial(y, w, ctilde, c, z, res, [], h), t);
  }

  lemma SameEncoding(q: Params, t: Trial, u: Trial)
    requires t.ctilde == u.ctilde && t.z == u.z && t.h == u.h && Weight(t.h) <= q.omega
    ensures EncodeSignature(q, t) == EncodeSignature(q, u)
  {
    hide PackAll, HintBytes, Weight, OffsetVec, ZBits;
  }

  lemma HighBitsVecFit(q: Params, w: PolyVec)
    ensures forall i :: 0 <= i < |w| ==> Fits(HighBitsVec(w, q.gamma2)[i], W1Bits(q))
  {
    hide Fits, W1Bits, HighBitsPoly;
    forall i | 0 <= i < |w|
      ensures Fits(HighBitsVec(w, q.gamma2)[i], W1Bits(q))
    {
      HighBitsFit(q, w[i]);
    }
  }

  lemma SignStep(x: Xof, q: Params, sk: SecretKey, mu: seq<byte>, rhoPP: seq<byte>, n: nat)
    requires ShapedKey(q, sk) && n < 1000
    ensures SignFrom(x, q, sk, mu, rhoPP, n)
            == var t := MakeTrial(x, q, sk, mu, rhoPP, n * q.l);
               if Survives(q, t) then Ok(EncodeSignature(q, t)) else SignFrom(x, q, sk, mu, rhoPP, n + 1)
  {
    hide MakeTrial, Survives, EncodeSignature;
  }

  lemma NextPass(n: nat, l: nat)
    requires l > 0
    ensures (n + 1) * l == n * l + l && (n * l < 1000 * l <==> n < 1000)
  {
  }

  ghost predicate Int32Key(sk: SecretKey) {
    Int32Vec(sk.s1) && Int32Vec(sk.s2) && Int32Vec(sk.t0)
  }

  /** `Sign`, with its random bytes given. */
  method Sign(x: Xof, tables: Tables, p: ParameterSet, sk: SecretKey, message: seq<byte>, rnd: seq<byte>)
    returns (r: Result<seq<byte>, SignError>)
    requires tables.Valid() && LiveXof(x) && ShapedKey(Info(p), sk) && Int32Key(sk)
    ensures r == SignMessage(x, Info(p), sk, message, rnd)
  {
    hide LiveXof, MakeTrial, Survives, EncodeSignature, ForwardVec, ReducedVec, Int32Vec, MatrixRow, SignFrom, ZetaTable, Info;
    var q := Info(p);
    BetaFacts(p);
    var a := ExpandA(x, sk.rho, q.k, q.l);
    var mu := Sum256(x, 64, sk.tr + Framed(message));
    var rhoPP := Sum256(x, 64, sk.key + rnd + mu);
    var s1hat := TransformVec(tables, sk.s1);
    var s2hat := TransformVec(tables, sk.s2);
    var t0hat := TransformVec(tables, sk.t0);
    ghost var result := SignFrom(x, q, sk, mu, rhoPP, 0);
    ghost var n: nat := 0;
    var kappa := 0;
    while kappa < 1000 * q.l
      invariant kappa == n * q.l && n <= 1000 && result == SignFrom(x, q, sk, mu, rhoPP, n)
      decreases 1000 - n
    {
      NextPass(n, q.l);
      SignStep(x, q, sk, mu, rhoPP, n);
      var sig := Attempt(x, tables, q, sk, a, s1hat, s2hat, t0hat, mu, rhoPP, kappa);
      if sig.Some? {
        return Ok(sig.value);
      }
      kappa := kappa + q.l;
      n := n + 1;
    }
    NextPass(n, q.l);
    SignEnd(x, q, sk, mu, rhoPP);
    return Err(SigningFailed);
  }

  lemma SignEnd(x: Xof, q: Params, sk: SecretKey, mu: seq<byte>, rhoPP: seq<byte>)
    requires ShapedKey(q, sk)
    ensures SignFrom(x, q, sk, mu, rhoPP, 1000) == Err(SigningFailed)
  {
    hide MakeTrial, Survives, EncodeSignature;
  }

  // ---- verification -----------------------------------------------------------------------------

  /** `constantTimeEqual`: every byte is looked at, whatever came before. */
  method ConstantTimeEqual(a: seq<byte>, b: seq<byte>) returns (equal: bool)
    ensures equal <==> a == b
  {
    hide Xor, Or, Exp2;
    Exp2Eight();
    if |a| != |b| {
      return false;
    }
    var diff: byte := 0;
    for i := 0 to |a|
      invariant diff == 0 <==> a[..i] == b[..i]
    {
      XorZero(a[i], b[i], 8);
      OrZero(diff, Xor(a[i], b[i], 8), 8);
      assert a[..i + 1] == a[..i] + [a[i]] && b[..i + 1] == b[..i] + [b[i]];
      diff := Or(diff, Xor(a[i], b[i], 8), 8);
    }
    assert a[..|a|] == a && b[..|a|] == b;
    return diff == 0;
  }

  /** Bitwise exclusive or of the low n bits. */
  function Xor(a: nat, b: nat, n: nat): nat {
    if n == 0 then 0 else (if a % 2 != b % 2 then 1 else 0) + 2 * Xor(a / 2, b / 2, n - 1)
  }

  /** Bitwise or of the low n bits. */
  function Or(a: nat, b: nat, n: nat): nat {
    if n == 0 then 0 else (if a % 2 == 1 || b % 2 == 1 then 1 else 0) + 2 * Or(a / 2, b / 2, n - 1)
  }

  lemma {:induction false} XorZero(a: nat, b: nat, n: nat)
    requires a < Exp2(n) && b < Exp2(n)
    ensures Xor(a, b, n) < Exp2(n) && (Xor(a, b, n) == 0 <==> a == b)
  {
    if n > 0 {
      XorZero(a / 2, b / 2, n - 1);
    }
  }

  lemma {:induction false} OrZero(a: nat, b: nat, n: nat)
    requires a < Exp2(n) && b < Exp2(n)
    ensures Or(a, b, n) < Exp2(n) && (Or(a, b, n) == 0 <==> a == 0 && b == 0)
  {
    if n > 0 {
      OrZero(a / 2, b / 2, n - 1);
    }
  }

  /** The z part of a signature. */
  method ReadZ(q: Params, sig: seq<byte>) returns (z: PolyVec)
    requires ZOffset(q, q.l) <= |sig|
    ensures z == DecodeZVec(q, sig) && Int32Vec(z)
  {
    hide BitLen, Unpack, Offset, Int32Poly;
    var zbits := BitLength(2 * q.gamma1 - 1);
    ZBitsFacts(q);
    var off := q.ctBytes;
    var size := 256 * zbits / 8;
    z := [];
    for j := 0 to q.l
      invariant |z| == j && off == ZOffset(q, j) && Int32Vec(z)
      invariant forall i :: 0 <= i < j ==> z[i] == DecodeZ(q, sig, i)
    {
      NextFits(zbits, j, q.l);
      assert 32 * zbits * (j + 1) == 32 * zbits * j + 32 * zbits;
      var part := sig[off..off + size];
      var p := BitUnpack(part, q.gamma1, zbits);
      UnpackedInt32(q, part);
      z := z + [p];
      off := off + size;
    }
  }

  /** t1·2^13, transformed. */
  method ScaledTransform(t: Tables, t1: T1Poly) returns (r: Poly256)
    requires t.Valid()
    ensures r == Forward(ScaledT1(t1)) && ReducedPoly(r)
  {
    hide Forward, Red, ZetaTable;
    var scaled: seq<int> := [];
    for c := 0 to 256
      invariant |scaled| == c && forall j :: 0 <= j < c ==> scaled[j] == Red(t1[j] * 8192)
    {
      scaled := scaled + [ModQ(t1[c] * 8192)];
    }
    assert scaled == ScaledT1(t1);
    r := NttCopy(t, scaled);
  }

  /** Subtracts a transformed polynomial in place. */
  method SubtractFrom(acc: array<int>, p: Poly256)
    requires acc.Length == 256 && ReducedPoly(acc[..]) && ReducedPoly(p)
    modifies acc
    ensures acc[..] == SubRed(old(acc[..]), p) && ReducedPoly(acc[..])
  {
    hide Red;
    for c := 0 to 256
      invariant forall j :: 0 <= j < c ==> acc[j] == Red(old(acc[j]) - p[j])
      invariant forall j :: c <= j < 256 ==> acc[j] == old(acc[j])
    {
      acc[c] := ModQ(acc[c] - p[c]);
    }
  }

  /** Row i of what the verifier recomputes. */
  method RecomputeRow(t: Tables, row: PolyVec, zhat: PolyVec, chat: Poly256, t1: T1Poly, h: Poly256, g: Gamma2,
                      ghost z: PolyVec, ghost c: Poly256) returns (w1: seq<nat>)
    requires t.Valid() && |row| == |z| > 0 && ReducedVec(row) && ReducedVec(zhat) && ReducedPoly(chat)
    requires zhat == ForwardVec(z) && chat == Forward(c)
    ensures w1 == UseHintPoly(h, Recomputed(row, z, c, t1), g)
  {
    hide Forward, Backward, Pointwise, SubRed, ScaledT1, ReducedVec, ReducedPoly, ForwardVec, RowProduct, Int32Poly, UseHint, ZetaTable;
    var t1hat := ScaledTransform(t, t1);
    var acc := RowTimes(row, zhat);
    ReducedIsInt32(chat);
    ReducedIsInt32(t1hat);
    var ct1 := PointwiseMul(chat, t1hat);
    SubtractFrom(acc, ct1);
    ReducedIsInt32(acc[..]);
    NttInverse(t, acc);
    ghost var value: Poly256 := Recomputed(row, z, c, t1);
    assert acc[..] == value;
    w1 := [];
    for i := 0 to 256
      invariant |w1| == i && forall j :: 0 <= j < i ==> w1[j] == UseHint(h[j], value[j], g)
    {
      assert acc[i] == acc[..][i];
      w1 := w1 + [UseHint(h[i], acc[i], g)];
    }
  }

  lemma UsedHintsFit(q: Params, h: Poly256, v: Poly256)
    ensures Fits(UseHintPoly(h, v, q.gamma2), W1Bits(q))
  {
    hide UseHint, W1Bits, Exp2;
    W1BitsFacts(q);
    forall i | 0 <= i < 256
      ensures UseHint(h[i], v[i], q.gamma2) < Exp2(W1Bits(q))
    {
      UseHintBound(h[i], v[i], q.gamma2);
    }
  }

  /** All rows of the recomputed high bits. */
  method Recompute(x: Xof, t: Tables, q: Params, pk: PublicKey, z: PolyVec, c: Poly256, h: Hints) returns (w1: seq<seq<nat>>)
    requires t.Valid() && LiveXof(x) && |pk.t1| == q.k && |h| == q.k && |z| == q.l && Int32Vec(z) && Int32Poly(c)
    ensures w1 == RecoveredVec(x, q, pk, z, c, h) && forall i :: 0 <= i < |w1| ==> Fits(w1[i], W1Bits(q))
  {
    hide Forward, ForwardVec, ReducedVec, ReducedPoly, Int32Vec, Int32Poly, UseHintPoly, Recomputed, MatrixRow, LiveXof, Fits, W1Bits, ZetaTable;
    var a := ExpandA(x, pk.rho, q.k, q.l);
    var chat := NttCopy(t, c);
    var zhat := TransformVec(t, z);
    w1 := [];
    for i := 0 to q.k
      invariant |w1| == i && forall j :: 0 <= j < i ==> Fits(w1[j], W1Bits(q))
      invariant forall j :: 0 <= j < i ==>
        w1[j] == UseHintPoly(h[j], Recomputed(MatrixRow(x, pk.rho, j, q.l), z, c, pk.t1[j]), q.gamma2)
    {
      MatrixRowReduced(x, pk.rho, i, q.l);
      var row := RecomputeRow(t, a[i], zhat, chat, pk.t1[i], h[i], q.gamma2, z, c);
      UsedHintsFit(q, h[i], Recomputed(MatrixRow(x, pk.rho, i, q.l), z, c, pk.t1[i]));
      w1 := w1 + [row];
    }
  }

  lemma DecodingIsUnique(buf: seq<byte>, omega: nat, k: nat, h: Hints)
    requires Accepts(buf, omega, k) && IsDecoding(buf, omega, k, h)
    ensures h == DecodeHints(buf, omega, k)
  {
    hide Indicator, Segment;
  }

  /** `Verify`. */
  method Verify(x: Xof, tables: Tables, p: ParameterSet, pk: PublicKey, message: seq<byte>, sig: seq<byte>)
    returns (r: Result<(), VerifyError>)
    requires tables.Valid() && LiveXof(x) && |pk.t1| == Info(p).k
    ensures r == VerifyMessage(x, p, pk, message, sig)
  {
    hide LiveXof, Enough, Info, DecodeZVec, DecodeHints, RecoveredVec, NormBelow, Accepts, IsDecoding, ChallengePoly, ChallengeHash,
      EncodePublicKey, Framed, Int32Vec, Int32Poly, Sparse, Fits, W1Bits, ZetaTable, SignatureSize, ZOffset, BallOk;
    var q := Info(p);
    if |sig| != SignatureSize(p) {
      return Err(InvalidSignatureSize);
    }
    BetaFacts(p);
    SizesAgree(p);
    ZStart(q);
    var ctilde := sig[0..q.ctBytes];
    var z := ReadZ(q, sig);
    var off := |sig| - q.omega - q.k;
    var hintBytes := sig[off..off + q.omega + q.k];
    assert hintBytes == Slice(sig, ZOffset(q, q.l), q.omega + q.k);
    var h := HintUnpack(hintBytes, q.omega, q.k);
    if h.None? {
      return Err(VerificationFailed);
    }
    var znorm := PolyVecInfNorm(z);
    if znorm >= q.gamma1 - q.beta {
      return Err(VerificationFailed);
    }
    var encoded := PublicKeyToBytes(pk);
    var tr := Sum256(x, 64, encoded);
    var mu := Sum256(x, 64, tr + Framed(message));
    LiveStreams(x);
    var c := SampleInBall(x, ctilde, q.tau);
    ChallengeBounded(x, ctilde, q.tau);
    SparseIsInt32(c, q.tau);
    DecodingIsUnique(hintBytes, q.omega, q.k, h.value);
    DecodedShape(hintBytes, q.omega, q.k, h.value);
    var w1 := Recompute(x, tables, q, pk, z, c, h.value);
    var expected := HashCommitment(x, q, mu, w1);
    var equal := ConstantTimeEqual(ctilde, expected);
    if !equal {
      return Err(VerificationFailed);
    }
    return Ok(());
  }

  lemma DecodedShape(buf: seq<byte>, omega: nat, k: nat, h: Hints)
    requires Accepts(buf, omega, k) && IsDecoding(buf, omega, k, h)
    ensures |h| == k
  {
  }

  lemma ZStart(q: Params)
    ensures q.ctBytes <= ZOffset(q, q.l)
  {
  }
}
