/**
 What Sign returns, Verify accepts: for each parameter set, every seed, message and random
 string.
 */
module Completeness {
  import opened Modular
  import opened Outcomes
  import opened NttTree
  import opened Transform
  import opened Rounding
  import opened BitPacking
  import opened HintCodec
  import opened Sampling
  import opened Challenge
  import opened PolyAlgebra
  import opened Scheme
  import opened Encodings

  // ---- the algebra of one row -----------------------------------------------------------

  lemma ResponseCong(y: Poly256, cs1: Poly256)
    ensures CongSeq(ResponsePoly(y, cs1), AddRed(y, cs1))
  {
    hide Red;
    forall c | 0 <= c < 256
      ensures Cong(ResponsePoly(y, cs1)[c], AddRed(y, cs1)[c])
    {
      assert Cong(Centered(Red(y[c] + cs1[c])), Red(y[c] + cs1[c]));
    }
  }

  /** c·v transforms to the pointwise product. */
  lemma ForwardOfChallengeTimes(c: Poly256, v: Poly256)
    ensures Forward(ChallengeTimes(c, v)) == Pointwise(Forward(c), Forward(v))
  {
    hide Forward, Backward, Pointwise, RedPoly, Reduced;
    var p := Pointwise(Forward(c), Forward(v));
    ForwardOfBackward(p);
    PointwiseReduced(Forward(c), Forward(v));
    ReducedIsItsResidue(p);
  }

  lemma ForwardOfResponse(y: Poly256, c: Poly256, s1: Poly256)
    ensures Forward(ResponsePoly(y, ChallengeTimes(c, s1))) == AddRed(Forward(y), Pointwise(Forward(c), Forward(s1)))
  {
    hide Forward, Pointwise, ResponsePoly, ChallengeTimes, AddRed, CongSeq;
    var cs1 := ChallengeTimes(c, s1);
    ResponseCong(y, cs1);
    ForwardCong(ResponsePoly(y, cs1), AddRed(y, cs1));
    ForwardLinear(y, cs1);
    ForwardOfChallengeTimes(c, s1);
  }

  /** A·z = A·y + c·(A·s1) in the transformed domain. */
  lemma RowOfResponse(row: PolyVec, y: PolyVec, c: Poly256, s1: PolyVec)
    requires |row| == |y| == |s1|
    ensures RowProduct(row, ForwardVec(ResponseVec(y, c, s1)))
            == AddRed(RowProduct(row, ForwardVec(y)), Pointwise(Forward(c), RowProduct(row, ForwardVec(s1))))
  {
    hide Forward, Pointwise, ResponsePoly, ChallengeTimes, AddRed, RowAcc;
    var z := ResponseVec(y, c, s1);
    var zh, yh, sh := ForwardVec(z), ForwardVec(y), ForwardVec(s1);
    forall j | 0 <= j < |zh|
      ensures zh[j] == AddRed(yh[j], Pointwise(Forward(c), sh[j]))
    {
      ForwardOfResponse(y[j], c, s1[j]);
    }
    RowLinear(row, zh, yh, sh, Forward(c), |row|);
  }

  lemma T1Coefficient(t: int)
    requires 0 <= t < 8380417
    ensures Red(Power2Round(t).0 * 8192) == Red(t - Power2Round(t).1)
  {
    hide Red;
    RedSmall(t);
  }

  /** t1·2^13 = t - t0. */
  lemma ScaledIsDifference(t: Poly256)
    requires Reduced(t)
    ensures ScaledT1(HighPart(t)) == SubRed(t, LowPart(t))
  {
    hide Red, Power2Round;
    forall c | 0 <= c < 256
      ensures ScaledT1(HighPart(t))[c] == SubRed(t, LowPart(t))[c]
    {
      T1Coefficient(t[c]);
    }
  }

  lemma RowProductReduced(row: PolyVec, v: PolyVec)
    ensures ReducedPoly(RowProduct(row, v))
  {
    hide RowAcc, Red;
    if |row| == |v| {
      RowAccReduced(row, v, |row|);
    }
  }

  lemma ForwardOfT1(b: Poly256, s2: Poly256)
    requires Reduced(b)
    ensures var t := AddRed(Backward(b), s2);
      Forward(ScaledT1(HighPart(t))) == SubRed(AddRed(b, Forward(s2)), Forward(LowPart(t)))
  {
    hide Forward, Backward, AddRed, SubRed, ScaledT1, HighPart, LowPart, RedPoly, Reduced;
    var t: Poly256 := AddRed(Backward(b), s2);
    SumReduced(Backward(b), s2);
    ScaledIsDifference(t);
    ForwardLinear(t, LowPart(t));
    ForwardLinear(Backward(b), s2);
    ForwardOfBackward(b);
    ReducedIsItsResidue(b);
  }

  lemma PointwisePoly(u: Poly256, v: Poly256)
    ensures ReducedPoly(Pointwise(u, v)) && ReducedPoly(Forward(u))
  {
    hide Pointwise, Forward;
    PointwiseReduced(u, v);
    ForwardReduced(u);
  }

  /** What the verifier recomputes is w - c·s2 + c·t0. */
  lemma RecomputedValue(row: PolyVec, y: PolyVec, c: Poly256, s1: PolyVec, s2: Poly256)
    requires |row| == |y| == |s1|
    ensures var t := PublicValue(row, s1, s2);
      var w := Backward(RowProduct(row, ForwardVec(y)));
      Recomputed(row, ResponseVec(y, c, s1), c, HighPart(t))
      == AddRed(SubRed(w, ChallengeTimes(c, s2)), ChallengeTimes(c, LowPart(t)))
  {
    hide Forward, Backward, AddRed, SubRed, Pointwise, HighPart, LowPart, RowProduct, ScaledT1, ReducedPoly;
    var a, b := RowProduct(row, ForwardVec(y)), RowProduct(row, ForwardVec(s1));
    RowProductReduced(row, ForwardVec(y));
    RowProductReduced(row, ForwardVec(s1));
    assert Reduced(b) by { ReducedOf(b); }
    var ch, sh, t := Forward(c), Forward(s2), PublicValue(row, s1, s2);
    var th := Forward(LowPart(t));
    RowOfResponse(row, y, c, s1);
    ForwardOfT1(b, s2);
    VerifyEquation(a, b, ch, sh, th);
    PointwisePoly(ch, sh);
    PointwisePoly(ch, th);
    SumReduced(a, Pointwise(ch, sh));
    BackwardLinear(SubRed(a, Pointwise(ch, sh)), Pointwise(ch, th));
    BackwardLinear(a, Pointwise(ch, sh));
  }

  lemma ReducedOf(a: Poly)
    requires ReducedPoly(a)
    ensures Reduced(a)
  {
  }

  // ---- the high bits of one coefficient ----------------------------------------------------

  lemma CoefficientRecovered(w: int, e: int, cs2: int, ct0: int, beta: int, g: Gamma2)
    requires 0 <= w < 8380417 && cs2 == Red(e) && -beta <= e <= beta && 0 <= ct0 < 8380417
    requires Abs(LowBits(Red(w - cs2), g)) < g - beta && Abs(Centered(Red(ct0))) < g
    ensures UseHint(HintBit(Red(w - cs2), ct0, g), Red(Red(w - cs2) + ct0), g) == HighBits(w, g)
  {
    hide Red, Decompose, UseHint, LowBits, HighBits;
    var r := Red(w - cs2);
    var s := Red(r + ct0);
    RedSmall(ct0);
    var t := Centered(ct0);
    RedRed(r + ct0);
    CongAdd(r, r, t, ct0);
    HintRecovery(r, t, s, g);
    RedRed(w - cs2);
    RedRed(e);
    CongAdd(r, w - cs2, e, cs2);
    HighBitsStable(w, r, e, beta, g);
  }

  /** High bits of one row, as the verifier recovers them. */
  lemma RowHighBits(w: Poly256, c: Poly256, s2: Poly256, r: Poly256, ct0: Poly256, q: Params)
    requires Reduced(w) && Reduced(ct0) && r == SubRed(w, ChallengeTimes(c, s2))
    requires Small(s2, q.eta) && Sparse(c, q.tau) && q.beta == q.eta * q.tau
    requires PolyLowBitsBelow(r, q.gamma2 - q.beta, q.gamma2) && PolyNormBelow(ct0, q.gamma2)
    ensures UseHintPoly(HintPoly(r, ct0, q.gamma2), AddRed(r, ct0), q.gamma2) == HighBitsPoly(w, q.gamma2)
  {
    hide Red, Decompose, UseHint, LowBits, HighBits, HintBit, Forward, Backward, Pointwise, Negacyclic, Sparse, Small, AddRed, SubRed;
    var cs2: Poly256 := ChallengeTimes(c, s2);
    ProductTheorem(c, s2);
    forall i | 0 <= i < 256
      ensures UseHintPoly(HintPoly(r, ct0, q.gamma2), AddRed(r, ct0), q.gamma2)[i] == HighBitsPoly(w, q.gamma2)[i]
    {
      var e := ProductBound(c, s2, q.tau, q.eta, q.beta, i);
      AddRedAt(w, cs2, i);
      AddRedAt(r, ct0, i);
      CoefficientRecovered(w[i], e, cs2[i], ct0[i], q.beta, q.gamma2);
    }
  }

  // ---- from rows to the whole trial ------------------------------------------------------------

  lemma BackwardIsReduced(b: Poly256)
    ensures Reduced(Backward(b))
  {
    hide Backward;
    BackwardReduced(b);
  }

  /** w, c·s2-corrected w and c·t0 of one row of a trial. */
  ghost predicate TrialRow(row: PolyVec, y: PolyVec, c: Poly256, s2: Poly256, t: Poly256,
                           w: Poly256, r: Poly256, ct0: Poly256) {
    && w == Backward(RowProduct(row, ForwardVec(y)))
    && r == SubRed(w, ChallengeTimes(c, s2))
    && ct0 == ChallengeTimes(c, LowPart(t))
  }

  ghost predicate KeyRow(row: PolyVec, s1: PolyVec, s2: Poly256, t: Poly256, eta: int) {
    t == PublicValue(row, s1, s2) && Small(s2, eta)
  }

  /** What the verifier recovers for row i is what the signer committed to. */
  lemma RowRecovered(q: Params, row: PolyVec, y: PolyVec, c: Poly256, s1: PolyVec, s2: Poly256, t: Poly256,
                     w: Poly256, r: Poly256, ct0: Poly256)
    requires |row| == |y| == |s1|
    requires TrialRow(row, y, c, s2, t, w, r, ct0) && KeyRow(row, s1, s2, t, q.eta)
    requires Sparse(c, q.tau) && q.beta == q.eta * q.tau
    requires PolyLowBitsBelow(r, q.gamma2 - q.beta, q.gamma2) && PolyNormBelow(ct0, q.gamma2)
    ensures UseHintPoly(HintPoly(r, ct0, q.gamma2), Recomputed(row, ResponseVec(y, c, s1), c, HighPart(t)), q.gamma2)
            == HighBitsPoly(w, q.gamma2)
  {
    hide Reduced, PolyLowBitsBelow, PolyNormBelow, Small, Sparse, Backward, Forward, RowProduct, SubRed, AddRed,
      HintPoly, UseHintPoly, HighBitsPoly, Recomputed, ResponseVec, LowPart, HighPart;
    RecomputedValue(row, y, c, s1, s2);
    BackwardIsReduced(RowProduct(row, ForwardVec(y)));
    BackwardIsReduced(Pointwise(Forward(c), Forward(LowPart(t))));
    RowHighBits(w, c, s2, r, ct0, q);
  }

  /** A key as `keyGenFromSeed` makes it: short secrets, and t split between the two halves. */
  ghost predicate KeyPair(x: Xof, q: Params, pk: PublicKey, sk: SecretKey) {
    && ShapedKey(q, sk) && |pk.t1| == q.k && pk.rho == sk.rho
    && sk.tr == Sum256(x, 64, EncodePublicKey(pk))
    && forall i :: 0 <= i < q.k ==> KeyRowAt(x, q, pk, sk, i)
  }

  ghost predicate KeyRowAt(x: Xof, q: Params, pk: PublicKey, sk: SecretKey, i: nat)
    requires ShapedKey(q, sk) && |pk.t1| == q.k && i < q.k
  {
    Small(sk.s2[i], q.eta) && SplitRow(MatrixRow(x, sk.rho, i, q.l), sk.s1, sk.s2[i], pk.t1[i], sk.t0[i])
  }

  ghost predicate SplitRow(row: PolyVec, s1: PolyVec, s2: Poly256, t1: T1Poly, t0: Poly256) {
    var t := PublicValue(row, s1, s2);
    t1 == HighPart(t) && t0 == LowPart(t)
  }

  lemma GeneratedKeyPair(x: Xof, q: Params, xi: seq<byte>)
    ensures KeyPair(x, q, GenerateKeys(x, q, xi).0, GenerateKeys(x, q, xi).1)
  {
    hide PublicValue, MatrixRow, BoundedPoly, HighPart, LowPart, EncodePublicKey, Small, Sum256;
    var (pk, sk) := GenerateKeys(x, q, xi);
    forall i | 0 <= i < q.k
      ensures KeyRowAt(x, q, pk, sk, i)
    {
      BoundedPolySmall(x, Sum256(x, 128, xi + [q.k] + [q.l])[32..96], q.l + i, q.eta);
    }
  }

  /** Row i of a surviving trial. */
  lemma TrialRowRecovered(x: Xof, q: Params, pk: PublicKey, sk: SecretKey, mu: seq<byte>, rhoPP: seq<byte>,
                          kappa: nat, i: nat)
    requires KeyPair(x, q, pk, sk) && i < q.k && q.beta == q.eta * q.tau
    requires Survives(q, MakeTrial(x, q, sk, mu, rhoPP, kappa))
    ensures var t := MakeTrial(x, q, sk, mu, rhoPP, kappa);
      UseHintPoly(t.h[i], Recomputed(MatrixRow(x, pk.rho, i, q.l), t.z, t.c, pk.t1[i]), q.gamma2)
      == HighBitsPoly(t.w[i], q.gamma2)
  {
    hide PublicValue, MatrixRow, HighPart, LowPart, EncodePublicKey, Small, Sum256, Mask, RowProduct, ForwardVec,
      ChallengeHash, ChallengePoly, ChallengeTimes, ResponseVec, HintPoly, UseHintPoly, HighBitsPoly, Recomputed,
      SubRed, Backward, Sparse, PolyLowBitsBelow, PolyNormBelow, HighBitsVec, Weight;
    var t := MakeTrial(x, q, sk, mu, rhoPP, kappa);
    var row := MatrixRow(x, sk.rho, i, q.l);
    var value := PublicValue(row, sk.s1, sk.s2[i]);
    ChallengeBounded(x, t.ctilde, q.tau);
    assert KeyRowAt(x, q, pk, sk, i);
    assert KeyRow(row, sk.s1, sk.s2[i], value, q.eta);
    assert TrialRow(row, t.y, t.c, sk.s2[i], value, t.w[i], t.r[i], t.ct0[i]);
    RowRecovered(q, row, t.y, t.c, sk.s1, sk.s2[i], value, t.w[i], t.r[i], t.ct0[i]);
  }

  /** The high bits the verifier hashes are those the signer hashed. */
  lemma CommitmentRecovered(x: Xof, q: Params, pk: PublicKey, sk: SecretKey, mu: seq<byte>, rhoPP: seq<byte>, kappa: nat)
    requires KeyPair(x, q, pk, sk) && q.beta == q.eta * q.tau
    requires Survives(q, MakeTrial(x, q, sk, mu, rhoPP, kappa))
    ensures var t := MakeTrial(x, q, sk, mu, rhoPP, kappa);
      RecoveredVec(x, q, pk, t.z, t.c, t.h) == HighBitsVec(t.w, q.gamma2)
  {
    hide KeyRowAt, MatrixRow, EncodePublicKey, Sum256, Mask, Commitment, ChallengeHash, ChallengePoly, ChallengeTimes,
      ResponseVec, ResidualVec, HintVec, UseHintPoly, HighBitsPoly, Recomputed, Survives;
    var t := MakeTrial(x, q, sk, mu, rhoPP, kappa);
    var u, v := RecoveredVec(x, q, pk, t.z, t.c, t.h), HighBitsVec(t.w, q.gamma2);
    forall i | 0 <= i < q.k
      ensures u[i] == v[i]
    {
      TrialRowRecovered(x, q, pk, sk, mu, rhoPP, kappa, i);
    }
  }

  /** The signature of a surviving trial is accepted. */
  lemma TrialVerifies(x: Xof, p: ParameterSet, pk: PublicKey, sk: SecretKey, message: seq<byte>, rhoPP: seq<byte>, kappa: nat)
    requires KeyPair(x, Info(p), pk, sk)
    requires Survives(Info(p), MakeTrial(x, Info(p), sk, Sum256(x, 64, sk.tr + Framed(message)), rhoPP, kappa))
    ensures var t := MakeTrial(x, Info(p), sk, Sum256(x, 64, sk.tr + Framed(message)), rhoPP, kappa);
      VerifyMessage(x, p, pk, message, EncodeSignature(Info(p), t)) == Ok(())
  {
    hide KeyRowAt, EncodePublicKey, Sum256, Mask, Commitment, HighBitsVec, ChallengeHash, ChallengePoly, ChallengeTimesVec,
      ResponseVec, ResidualVec, HintVec, DecodeZVec, DecodeHints, RecoveredVec, EncodeSignature, NormBelow, LowBitsBelow,
      Weight, Accepts, Slice, Info, Framed, ZOffset, SignatureSize, HintBytes, ZeroOne, CenteredVec;
    var q := Info(p);
    var mu := Sum256(x, 64, sk.tr + Framed(message));
    var t := MakeTrial(x, q, sk, mu, rhoPP, kappa);
    var sig := EncodeSignature(q, t);
    BetaFacts(p);
    NormWeaker(t.z, q.gamma1 - q.beta, q.gamma1);
    ResponseCentered(t.y, t.c, sk.s1);
    SignatureParts(q, t, sig);
    SizesAgree(p);
    ZReadBack(q, t, sig);
    HintsZeroOne(t.r, t.ct0, q.gamma2);
    HintsReadBack(t.h, q.omega);
    CommitmentRecovered(x, q, pk, sk, mu, rhoPP, kappa);
  }

  lemma {:induction false} SignedFromVerifies(x: Xof, p: ParameterSet, pk: PublicKey, sk: SecretKey, message: seq<byte>,
                                              rhoPP: seq<byte>, n: nat)
    requires KeyPair(x, Info(p), pk, sk) && n <= 1000
    ensures var r := SignFrom(x, Info(p), sk, Sum256(x, 64, sk.tr + Framed(message)), rhoPP, n);
      r.Ok? ==> VerifyMessage(x, p, pk, message, r.value) == Ok(())
    decreases 1000 - n
  {
    hide KeyRowAt, Sum256, MakeTrial, Survives, EncodeSignature, VerifyMessage, Framed, Info;
    var q, mu := Info(p), Sum256(x, 64, sk.tr + Framed(message));
    if n < 1000 {
      if Survives(q, MakeTrial(x, q, sk, mu, rhoPP, n * q.l)) {
        TrialVerifies(x, p, pk, sk, message, rhoPP, n * q.l);
      } else {
        SignedFromVerifies(x, p, pk, sk, message, rhoPP, n + 1);
      }
    }
  }

  /** Whatever Sign returns under a generated key, Verify accepts under the matching public
      key: for every parameter set, seed, message and random string. */
  lemma SignThenVerify(x: Xof, p: ParameterSet, xi: seq<byte>, message: seq<byte>, rnd: seq<byte>)
    ensures var (pk, sk) := GenerateKeys(x, Info(p), xi);
      var r := SignMessage(x, Info(p), sk, message, rnd);
      r.Ok? ==> VerifyMessage(x, p, pk, message, r.value) == Ok(()) && |r.value| == SignatureSize(p)
  {
    hide GenerateKeys, SignFrom, Sum256, Framed, Info, KeyPair, DecodeZVec, DecodeHints, RecoveredVec, Accepts, NormBelow,
      ChallengeHash, ChallengePoly, Slice;
    var q := Info(p);
    var (pk, sk) := GenerateKeys(x, q, xi);
    GeneratedKeyPair(x, q, xi);
    var mu := Sum256(x, 64, sk.tr + Framed(message));
    SignedFromVerifies(x, p, pk, sk, message, Sum256(x, 64, sk.key + rnd + mu), 0);
  }
}
