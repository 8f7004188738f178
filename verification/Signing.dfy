/**
 What key generation and Sign compute, without the transform. The public value is the schoolbook
 A·s1 + s2; one pass of the signing loop is described by equations that determine it; and Sign
 returns a signature exactly when one of the thousand passes meets the four bounds, namely the
 encoding of the first that does.
 */
module Signing {
  import opened Modular
  import opened Transform
  import opened Rounding
  import opened BitPacking
  import opened HintCodec
  import opened Sampling
  import opened Challenge
  import opened PolyAlgebra
  import opened Scheme
  import opened Schoolbook
  import opened Encodings
  import opened KeyCodec
  import opened Acceptance

  // ---- keys ---------------------------------------------------------------------------------------

  lemma PublicValueAt(row: PolyVec, s1: PolyVec, s2: Poly256, n: nat)
    requires ReducedVec(row) && |row| == |s1| && n < 256
    ensures PublicValue(row, s1, s2)[n] == Red(SumAt(row, s1, |row|, n) + s2[n])
  {
    hide Backward, RowAcc, AddRed, Red, SumAt, ReducedVec, ForwardVec;
    RowAt(row, s1, |row|, n);
    AddRedAt(Backward(RowAcc(row, ForwardVec(s1), |row|)), s2, n);
    RedAdd(SumAt(row, s1, |row|, n), s2[n]);
  }

  /** Both halves of coefficient n of row i. */
  ghost predicate KeyAt(row: PolyVec, s1: PolyVec, s2: Poly256, t1: T1Poly, t0: Poly256, n: nat)
    requires n < 256
  {
    |row| == |s1| && t1[n] * 8192 + t0[n] == Red(SumAt(row, s1, |row|, n) + s2[n]) && -4096 < t0[n] <= 4096
  }

  ghost predicate KeyRowEquation(row: PolyVec, s1: PolyVec, s2: Poly256, t1: T1Poly, t0: Poly256) {
    forall n :: 0 <= n < 256 ==> KeyAt(row, s1, s2, t1, t0, n)
  }

  lemma KeyRowIs(row: PolyVec, s1: PolyVec, s2: Poly256, t: Poly256)
    requires ReducedVec(row) && |row| == |s1| && t == PublicValue(row, s1, s2)
    ensures KeyRowEquation(row, s1, s2, HighPart(t), LowPart(t))
  {
    hide PublicValue, Red, SumAt, ReducedVec, Power2Round;
    forall n | 0 <= n < 256
      ensures KeyAt(row, s1, s2, HighPart(t), LowPart(t), n)
    {
      PublicValueAt(row, s1, s2, n);
      RedRed(SumAt(row, s1, |row|, n) + s2[n]);
    }
  }

  /** Every part of a key pair from its seed: t = A·s1 + s2 in schoolbook products, split into
      t1·2^13 + t0. */
  ghost predicate FromSeed(x: Xof, q: Params, xi: seq<byte>, pk: PublicKey, sk: SecretKey) {
    var seed := Sum256(x, 128, xi + [q.k, q.l]);
    && ShapedKey(q, sk) && |pk.t1| == q.k
    && pk.rho == sk.rho == seed[0..32] && sk.key == seed[96..128]
    && sk.tr == Sum256(x, 64, pk.rho + PackAll(pk.t1, 10))
    && (forall j :: 0 <= j < q.l ==> sk.s1[j] == BoundedPoly(x, seed[32..96], j, q.eta))
    && (forall i :: 0 <= i < q.k ==> sk.s2[i] == BoundedPoly(x, seed[32..96], q.l + i, q.eta))
    && (forall i :: 0 <= i < q.k ==> KeyRowEquation(MatrixRow(x, pk.rho, i, q.l), sk.s1, sk.s2[i], pk.t1[i], sk.t0[i]))
  }

  lemma KeyEquation(x: Xof, q: Params, xi: seq<byte>)
    ensures FromSeed(x, q, xi, GenerateKeys(x, q, xi).0, GenerateKeys(x, q, xi).1)
  {
    hide PublicValue, MatrixRow, BoundedPoly, HighPart, LowPart, Sum256, PackAll, KeyRowEquation;
    var (pk, sk) := GenerateKeys(x, q, xi);
    assert xi + [q.k] + [q.l] == xi + [q.k, q.l];
    var seed := Sum256(x, 128, xi + [q.k, q.l]);
    assert seed[..32] == seed[0..32] && seed[96..] == seed[96..128];
    forall i | 0 <= i < q.k
      ensures KeyRowEquation(MatrixRow(x, pk.rho, i, q.l), sk.s1, sk.s2[i], pk.t1[i], sk.t0[i])
    {
      MatrixRowReduced(x, pk.rho, i, q.l);
      KeyRowIs(MatrixRow(x, pk.rho, i, q.l), sk.s1, sk.s2[i], PublicValue(MatrixRow(x, pk.rho, i, q.l), sk.s1, sk.s2[i]));
    }
  }

  // ---- one pass -----------------------------------------------------------------------------------

  /** The mask: coefficients gamma1 - v for the values v read off the stream of seed and nonce. */
  lemma MaskMeaning(x: Xof, rhoPP: seq<byte>, kappa: nat, q: Params, i: nat, nonce: nat, v: seq<nat>)
    requires i < q.l && nonce == (kappa + i) % 65536
    requires v == Unpack(Sum256(x, 32 * ZBits(q), rhoPP + [nonce % 256, nonce / 256]), ZBits(q), 256)
    ensures forall n :: 0 <= n < 256 ==> Mask(x, rhoPP, kappa, q)[i][n] == q.gamma1 - v[n] && 0 <= v[n] < 2 * q.gamma1
  {
    hide Unpack, ZBits, Sum256, Exp2, Offset;
    ZBitsFacts(q);
    UnpackInRange(Sum256(x, 32 * ZBits(q), rhoPP + [nonce % 256, nonce / 256]), ZBits(q));
    assert Mask(x, rhoPP, kappa, q)[i] == MaskPoly(x, rhoPP, kappa + i, q) == Offset(q.gamma1, v);
    OffsetIs(q.gamma1, v);
  }

  lemma OffsetIs(b: int, v: seq<int>)
    ensures forall n :: 0 <= n < |v| ==> Offset(b, v)[n] == b - v[n]
  {
  }

  /** w = A·y. */
  ghost predicate IsCommitment(row: PolyVec, y: PolyVec, w: Poly256) {
    |row| == |y| && forall n :: 0 <= n < 256 ==> w[n] == Red(SumAt(row, y, |row|, n))
  }

  /** z = y + c·s1, in the centered range. */
  ghost predicate IsResponse(y: Poly256, c: Poly256, s1: Poly256, z: Poly256) {
    forall n :: 0 <= n < 256 ==> Cong(z[n], y[n] + Negacyclic(c, s1)[n]) && -4190208 <= z[n] <= 4190208
  }

  /** r = w - c·s2. */
  ghost predicate IsResidual(w: Poly256, c: Poly256, s2: Poly256, r: Poly256) {
    forall n :: 0 <= n < 256 ==> r[n] == Red(w[n] - Negacyclic(c, s2)[n])
  }

  /** A hint where adding c·t0 changes the high bits. */
  ghost predicate IsHint(r: Poly256, ct0: Poly256, g: Gamma2, h: Poly256) {
    forall n :: 0 <= n < 256 ==> h[n] == if HighBits(Red(r[n] + ct0[n]), g) == HighBits(r[n], g) then 0 else 1
  }

  ghost predicate AreCommitments(x: Xof, q: Params, rho: seq<byte>, y: PolyVec, w: PolyVec) {
    |w| == q.k && forall i :: 0 <= i < |w| ==> IsCommitment(MatrixRow(x, rho, i, q.l), y, w[i])
  }

  ghost predicate AreResponses(y: PolyVec, c: Poly256, s1: PolyVec, z: PolyVec) {
    |y| == |s1| == |z| && forall j :: 0 <= j < |z| ==> IsResponse(y[j], c, s1[j], z[j])
  }

  ghost predicate AreResiduals(w: PolyVec, c: Poly256, s2: PolyVec, r: PolyVec) {
    |w| == |s2| == |r| && forall i :: 0 <= i < |r| ==> IsResidual(w[i], c, s2[i], r[i])
  }

  ghost predicate AreProducts(c: Poly256, v: PolyVec, p: PolyVec) {
    |p| == |v| && forall i :: 0 <= i < |p| ==> p[i] == Negacyclic(c, v[i])
  }

  ghost predicate AreHints(r: PolyVec, ct0: PolyVec, g: Gamma2, h: Hints) {
    |r| == |ct0| == |h| && forall i :: 0 <= i < |h| ==> IsHint(r[i], ct0[i], g, h[i])
  }

  /** The equations of a pass. */
  ghost predicate IsPass(x: Xof, q: Params, sk: SecretKey, mu: seq<byte>, rhoPP: seq<byte>, kappa: nat, t: Trial) {
    && t.y == Mask(x, rhoPP, kappa, q) && AreCommitments(x, q, sk.rho, t.y, t.w)
    && t.ctilde == Sum256(x, q.ctBytes, mu + PackAll(HighBitsVec(t.w, q.gamma2), W1Bits(q)))
    && t.c == ChallengePoly(x, t.ctilde, q.tau)
    && AreResponses(t.y, t.c, sk.s1, t.z) && AreResiduals(t.w, t.c, sk.s2, t.r)
    && AreProducts(t.c, sk.t0, t.ct0) && AreHints(t.r, t.ct0, q.gamma2, t.h)
  }

  lemma CommitmentIs(row: PolyVec, y: PolyVec, w: Poly256)
    requires ReducedVec(row) && |row| == |y|
    ensures IsCommitment(row, y, w) <==> w == Backward(RowProduct(row, ForwardVec(y)))
  {
    hide Backward, RowAcc, ForwardVec, Red, SumAt, ReducedVec;
    var v: Poly256 := Backward(RowProduct(row, ForwardVec(y)));
    forall n | 0 <= n < 256
      ensures v[n] == Red(SumAt(row, y, |row|, n))
    {
      RowAt(row, y, |row|, n);
    }
  }

  lemma ResponseAt(y: int, cs1: int, z: int)
    requires 0 <= cs1 < 8380417
    ensures Cong(z, y + cs1) && -4190208 <= z <= 4190208 <==> z == Centered(Red(y + cs1))
  {
    hide Red;
    RedRed(y + cs1);
    if Cong(z, y + cs1) && -4190208 <= z <= 4190208 {
      CongSmall2(z, Centered(Red(y + cs1)));
    }
  }

  lemma CongSmall2(a: int, b: int)
    requires Cong(a, b) && -4190208 <= a <= 4190208 && -4190208 <= b <= 4190208
    ensures a == b
  {
    CongSmall(a, b);
  }

  lemma ProductIs(c: Poly256, v: Poly256)
    ensures ChallengeTimes(c, v) == Negacyclic(c, v) && Reduced(Negacyclic(c, v))
  {
    hide Forward, Backward, Pointwise, Negacyclic;
    ProductTheorem(c, v);
    BackwardReduced(Pointwise(Forward(c), Forward(v)));
  }

  lemma ResponseIs(y: Poly256, c: Poly256, s1: Poly256, z: Poly256)
    ensures IsResponse(y, c, s1, z) <==> z == ResponsePoly(y, ChallengeTimes(c, s1))
  {
    hide ChallengeTimes, Negacyclic, Red, Cong;
    ProductIs(c, s1);
    var p: Poly256 := Negacyclic(c, s1);
    forall n | 0 <= n < 256
      ensures Cong(z[n], y[n] + p[n]) && -4190208 <= z[n] <= 4190208 <==> z[n] == ResponsePoly(y, p)[n]
    {
      ResponseAt(y[n], p[n], z[n]);
    }
  }

  lemma ResidualIs(w: Poly256, c: Poly256, s2: Poly256, r: Poly256)
    ensures IsResidual(w, c, s2, r) <==> r == SubRed(w, ChallengeTimes(c, s2))
  {
    hide ChallengeTimes, Negacyclic, Red;
    ProductIs(c, s2);
  }

  lemma HintIs(r: Poly256, ct0: Poly256, g: Gamma2, h: Poly256)
    ensures IsHint(r, ct0, g, h) <==> h == HintPoly(r, ct0, g)
  {
    hide HighBits, Red;
  }

  lemma CommitmentsAre(x: Xof, q: Params, rho: seq<byte>, y: PolyVec, w: PolyVec)
    requires |y| == q.l
    ensures AreCommitments(x, q, rho, y, w) <==> w == Commitment(x, rho, y, q)
  {
    hide MatrixRow, IsCommitment, Backward, RowProduct, ForwardVec;
    var u := Commitment(x, rho, y, q);
    forall i | 0 <= i < q.k && |w| == q.k
      ensures IsCommitment(MatrixRow(x, rho, i, q.l), y, w[i]) <==> w[i] == u[i]
    {
      MatrixRowReduced(x, rho, i, q.l);
      CommitmentIs(MatrixRow(x, rho, i, q.l), y, w[i]);
    }
  }

  lemma ResponsesAre(y: PolyVec, c: Poly256, s1: PolyVec, z: PolyVec)
    requires |y| == |s1|
    ensures AreResponses(y, c, s1, z) <==> z == ResponseVec(y, c, s1)
  {
    hide IsResponse, ChallengeTimes, ResponsePoly;
    var u := ResponseVec(y, c, s1);
    forall j | 0 <= j < |y| && |z| == |y|
      ensures IsResponse(y[j], c, s1[j], z[j]) <==> z[j] == u[j]
    {
      ResponseIs(y[j], c, s1[j], z[j]);
    }
  }

  lemma ResidualsAre(w: PolyVec, c: Poly256, s2: PolyVec, r: PolyVec)
    requires |w| == |s2|
    ensures AreResiduals(w, c, s2, r) <==> r == ResidualVec(w, c, s2)
  {
    hide IsResidual, ChallengeTimes, SubRed;
    var u := ResidualVec(w, c, s2);
    forall i | 0 <= i < |w| && |r| == |w|
      ensures IsResidual(w[i], c, s2[i], r[i]) <==> r[i] == u[i]
    {
      ResidualIs(w[i], c, s2[i], r[i]);
    }
  }

  lemma ProductsAre(c: Poly256, v: PolyVec, p: PolyVec)
    ensures AreProducts(c, v, p) <==> p == ChallengeTimesVec(c, v)
  {
    hide ChallengeTimes, Negacyclic;
    var u := ChallengeTimesVec(c, v);
    forall i | 0 <= i < |v|
      ensures u[i] == Negacyclic(c, v[i])
    {
      ProductIs(c, v[i]);
    }
  }

  lemma HintsAre(r: PolyVec, ct0: PolyVec, g: Gamma2, h: Hints)
    requires |r| == |ct0|
    ensures AreHints(r, ct0, g, h) <==> h == HintVec(r, ct0, g)
  {
    hide IsHint, HintPoly;
    var u := HintVec(r, ct0, g);
    forall i | 0 <= i < |r| && |h| == |r|
      ensures IsHint(r[i], ct0[i], g, h[i]) <==> h[i] == u[i]
    {
      HintIs(r[i], ct0[i], g, h[i]);
    }
  }

  /** The equations determine the pass, and it is the one the loop makes. */
  lemma PassMeaning(x: Xof, q: Params, sk: SecretKey, mu: seq<byte>, rhoPP: seq<byte>, kappa: nat, t: Trial)
    requires ShapedKey(q, sk)
    ensures IsPass(x, q, sk, mu, rhoPP, kappa, t) <==> t == MakeTrial(x, q, sk, mu, rhoPP, kappa)
  {
    hide Mask, Commitment, ChallengePoly, Sum256, PackAll, HighBitsVec, W1Bits, AreCommitments, AreResponses, AreResiduals, AreProducts,
      AreHints, ResponseVec, ResidualVec, ChallengeTimesVec, HintVec;
    if t.y == Mask(x, rhoPP, kappa, q) {
      CommitmentsAre(x, q, sk.rho, t.y, t.w);
      if t.w == Commitment(x, sk.rho, t.y, q) {
        ResponsesAre(t.y, t.c, sk.s1, t.z);
        ResidualsAre(t.w, t.c, sk.s2, t.r);
        ProductsAre(t.c, sk.t0, t.ct0);
        if |t.r| == |t.ct0| {
          HintsAre(t.r, t.ct0, q.gamma2, t.h);
        }
      }
    }
  }

  // ---- the loop -----------------------------------------------------------------------------------

  /** The four bounds. */
  ghost predicate WithinBounds(q: Params, t: Trial) {
    && Short(t.z, q.gamma1 - q.beta)
    && (forall i, n :: 0 <= i < |t.r| && 0 <= n < 256 ==> Abs(LowBits(t.r[i][n], q.gamma2)) < q.gamma2 - q.beta)
    && (forall i, n :: 0 <= i < |t.ct0| && 0 <= n < 256 ==> Abs(Centered(Red(t.ct0[i][n]))) < q.gamma2)
    && Weight(t.h) <= q.omega
  }

  lemma BoundsIff(q: Params, t: Trial)
    requires CenteredVec(t.z) && q.gamma1 - q.beta <= 4190208
    ensures WithinBounds(q, t) <==> Survives(q, t)
  {
    hide Short, LowBits, Red, Weight;
    if NormBelow(t.z, q.gamma1 - q.beta) {
      NormShort(t.z, q.gamma1 - q.beta);
    }
    if Short(t.z, q.gamma1 - q.beta) {
      ShortNorm(t.z, q.gamma1 - q.beta);
    }
    LowBoundsIff(t.r, q.gamma2 - q.beta, q.gamma2);
    NormBoundsIff(t.ct0, q.gamma2);
  }

  lemma LowBoundsIff(v: PolyVec, bound: int, g: Gamma2)
    ensures LowBitsBelow(v, bound, g) <==> forall i, n :: 0 <= i < |v| && 0 <= n < 256 ==> Abs(LowBits(v[i][n], g)) < bound
  {
    hide LowBits;
    if LowBitsBelow(v, bound, g) {
      forall i, n | 0 <= i < |v| && 0 <= n < 256
        ensures Abs(LowBits(v[i][n], g)) < bound
      {
        assert PolyLowBitsBelow(v[i], bound, g);
      }
    }
  }

  lemma NormBoundsIff(v: PolyVec, bound: int)
    ensures NormBelow(v, bound) <==> forall i, n :: 0 <= i < |v| && 0 <= n < 256 ==> Abs(Centered(Red(v[i][n]))) < bound
  {
    hide Red;
    if NormBelow(v, bound) {
      forall i, n | 0 <= i < |v| && 0 <= n < 256
        ensures Abs(Centered(Red(v[i][n]))) < bound
      {
        assert PolyNormBelow(v[i], bound);
      }
    }
  }

  /** Pass n meets the bounds, and t is that pass. */
  ghost predicate GoodPass(x: Xof, q: Params, sk: SecretKey, mu: seq<byte>, rhoPP: seq<byte>, n: nat, t: Trial)
    requires ShapedKey(q, sk)
  {
    IsPass(x, q, sk, mu, rhoPP, n * q.l, t) && WithinBounds(q, t)
  }

  lemma GoodPassIff(x: Xof, q: Params, sk: SecretKey, mu: seq<byte>, rhoPP: seq<byte>, n: nat, t: Trial)
    requires ShapedKey(q, sk) && q.gamma1 - q.beta <= 4190208
    ensures GoodPass(x, q, sk, mu, rhoPP, n, t)
            <==> t == MakeTrial(x, q, sk, mu, rhoPP, n * q.l) && Survives(q, t)
  {
    hide IsPass, WithinBounds, Survives, Mask, Commitment, ChallengeHash, ChallengePoly, ResidualVec, ChallengeTimesVec, HintVec, HighBitsVec, CenteredVec, ResponseVec;
    PassMeaning(x, q, sk, mu, rhoPP, n * q.l, t);
    var u := MakeTrial(x, q, sk, mu, rhoPP, n * q.l);
    ResponseCentered(u.y, u.c, sk.s1);
    BoundsIff(q, u);
  }

  /** No pass from m up to n is good. */
  ghost predicate NoneGood(x: Xof, q: Params, sk: SecretKey, mu: seq<byte>, rhoPP: seq<byte>, m: nat, n: nat)
    requires ShapedKey(q, sk)
  {
    forall i: nat, t :: m <= i < n ==> !GoodPass(x, q, sk, mu, rhoPP, i, t)
  }

  /** The bytes are the signature of a pass. */
  ghost predicate IsSignature(q: Params, t: Trial, sig: seq<byte>) {
    Weight(t.h) <= q.omega && sig == t.ctilde + PackAll(OffsetVec(q.gamma1, t.z), ZBits(q)) + HintBytes(t.h, q.omega)
  }

  /** The loop from pass m on returns the first good pass's signature, or fails if there is none. */
  ghost predicate FirstGood(x: Xof, q: Params, sk: SecretKey, mu: seq<byte>, rhoPP: seq<byte>, m: nat, sig: seq<byte>)
    requires ShapedKey(q, sk)
  {
    exists n: nat, t :: m <= n < 1000 && GoodPass(x, q, sk, mu, rhoPP, n, t) && NoneGood(x, q, sk, mu, rhoPP, m, n)
      && IsSignature(q, t, sig)
  }

  lemma {:induction false} LoopMeaning(x: Xof, q: Params, sk: SecretKey, mu: seq<byte>, rhoPP: seq<byte>, m: nat)
    requires ShapedKey(q, sk) && m <= 1000 && q.gamma1 - q.beta <= 4190208
    ensures var r := SignFrom(x, q, sk, mu, rhoPP, m);
      && (r.Ok? ==> FirstGood(x, q, sk, mu, rhoPP, m, r.value))
      && (r.Err? ==> NoneGood(x, q, sk, mu, rhoPP, m, 1000))
    decreases 1000 - m
  {
    hide GoodPass, MakeTrial, Survives, Weight, PackAll, HintBytes, OffsetVec, ZBits;
    if m < 1000 {
      var t := MakeTrial(x, q, sk, mu, rhoPP, m * q.l);
      GoodPassIff(x, q, sk, mu, rhoPP, m, t);
      forall u
        ensures GoodPass(x, q, sk, mu, rhoPP, m, u) ==> u == t && Survives(q, t)
      {
        GoodPassIff(x, q, sk, mu, rhoPP, m, u);
      }
      if Survives(q, t) {
        assert NoneGood(x, q, sk, mu, rhoPP, m, m);
        SurvivorWeight(q, t);
        assert IsSignature(q, t, EncodeSignature(q, t));
        assert FirstGood(x, q, sk, mu, rhoPP, m, EncodeSignature(q, t));
      } else {
        LoopMeaning(x, q, sk, mu, rhoPP, m + 1);
        var r := SignFrom(x, q, sk, mu, rhoPP, m + 1);
        if r.Ok? {
          var n: nat, u :| m + 1 <= n < 1000 && GoodPass(x, q, sk, mu, rhoPP, n, u) && NoneGood(x, q, sk, mu, rhoPP, m + 1, n)
            && IsSignature(q, u, r.value);
          assert NoneGood(x, q, sk, mu, rhoPP, m, n);
        }
      }
    }
  }

  lemma SurvivorWeight(q: Params, t: Trial)
    requires Survives(q, t)
    ensures Weight(t.h) <= q.omega
  {
    hide Weight, NormBelow, LowBitsBelow;
  }

  /** Sign fails exactly when none of its thousand passes meets the bounds, and otherwise returns the
      encoding of the first that does, for the representative and the mask seed written out. */
  lemma SignMeaning(x: Xof, p: ParameterSet, sk: SecretKey, message: seq<byte>, rnd: seq<byte>)
    requires ShapedKey(Info(p), sk)
    ensures var mu := Sum256(x, 64, sk.tr + [0, 0] + message);
      var rhoPP := Sum256(x, 64, sk.key + rnd + mu);
      var r := SignMessage(x, Info(p), sk, message, rnd);
      && (r.Err? <==> NoneGood(x, Info(p), sk, mu, rhoPP, 0, 1000))
      && (r.Ok? ==> FirstGood(x, Info(p), sk, mu, rhoPP, 0, r.value))
  {
    hide Info, GoodPass, SignFrom, Sum256, IsSignature;
    var mu := Sum256(x, 64, sk.tr + [0, 0] + message);
    assert sk.tr + [0, 0] + message == sk.tr + Framed(message);
    BetaFacts(p);
    LoopMeaning(x, Info(p), sk, mu, Sum256(x, 64, sk.key + rnd + mu), 0);
  }
}
