/**
 What Verify accepts. A byte string is accepted exactly when it is the encoding of a challenge hash,
 a short vector z and a canonical hint, and the hash is that of the message representative and the
 high bits of A·z - c·t1·2^13 as the hints correct them, with schoolbook products throughout. Hence
 one signature accepted for two messages gives a collision of the hash function.
 */
module Acceptance {
  import opened Modular
  import opened Outcomes
  import opened Transform
  import opened Rounding
  import opened BitPacking
  import opened HintCodec
  import opened Sampling
  import opened Challenge
  import opened Scheme
  import opened Schoolbook
  import opened Encodings
  import opened KeyCodec

  /** The message representative, written out in bytes. */
  ghost function Representative(x: Xof, pk: PublicKey, message: seq<byte>): seq<byte> {
    Sum256(x, 64, Sum256(x, 64, pk.rho + PackAll(pk.t1, 10)) + [0, 0] + message)
  }

  /** Every coefficient is below the bound in absolute value. */
  ghost predicate Short(z: PolyVec, bound: int) {
    forall j, c :: 0 <= j < |z| && 0 <= c < 256 ==> -bound < z[j][c] < bound
  }

  /** Row i of the high bits: those of A·z - c·t1·2^13, corrected by the hints. */
  ghost predicate CorrectedRow(row: PolyVec, z: PolyVec, c: Poly256, t1: T1Poly, h: Poly256, w1: seq<nat>, g: Gamma2) {
    && |row| == |z| && |w1| == 256
    && forall n :: 0 <= n < 256 ==> w1[n] == UseHint(h[n], Red(SumAt(row, z, |row|, n) - Negacyclic(c, Shifted(t1))[n]), g)
  }

  ghost predicate Corrected(x: Xof, q: Params, pk: PublicKey, z: PolyVec, c: Poly256, h: Hints, w1: seq<seq<nat>>) {
    && |w1| == |h| == |pk.t1| == q.k
    && forall i :: 0 <= i < q.k ==> CorrectedRow(MatrixRow(x, pk.rho, i, q.l), z, c, pk.t1[i], h[i], w1[i], q.gamma2)
  }

  /** The parts of a genuine signature. */
  ghost predicate Genuine(x: Xof, q: Params, pk: PublicKey, message: seq<byte>, sig: seq<byte>,
                          ctilde: seq<byte>, z: PolyVec, h: Hints, w1: seq<seq<nat>>) {
    && |ctilde| == q.ctBytes && |z| == q.l && |h| == q.k
    && Short(z, q.gamma1 - q.beta) && ZeroOne(h) && Weight(h) <= q.omega
    && sig == ctilde + PackAll(OffsetVec(q.gamma1, z), ZBits(q)) + HintBytes(h, q.omega)
    && Corrected(x, q, pk, z, ChallengePoly(x, ctilde, q.tau), h, w1)
    && ctilde == Sum256(x, q.ctBytes, Representative(x, pk, message) + PackAll(w1, W1Bits(q)))
  }

  // ---- the pieces -----------------------------------------------------------------------------------

  lemma CorrectedIs(x: Xof, q: Params, pk: PublicKey, z: PolyVec, c: Poly256, h: Hints, w1: seq<seq<nat>>)
    requires |pk.t1| == q.k && |h| == q.k && |z| == q.l
    ensures Corrected(x, q, pk, z, c, h, w1) <==> w1 == RecoveredVec(x, q, pk, z, c, h)
  {
    hide MatrixRow, Recomputed, UseHintPoly, CorrectedRow;
    var u := RecoveredVec(x, q, pk, z, c, h);
    forall i | 0 <= i < q.k && |w1| == q.k
      ensures CorrectedRow(MatrixRow(x, pk.rho, i, q.l), z, c, pk.t1[i], h[i], w1[i], q.gamma2) <==> w1[i] == u[i]
    {
      MatrixRowReduced(x, pk.rho, i, q.l);
      RowIs(MatrixRow(x, pk.rho, i, q.l), z, c, pk.t1[i], h[i], w1[i], q.gamma2);
    }
  }

  lemma RowIs(row: PolyVec, z: PolyVec, c: Poly256, t1: T1Poly, h: Poly256, w1: seq<nat>, g: Gamma2)
    requires ReducedVec(row) && |row| == |z|
    ensures CorrectedRow(row, z, c, t1, h, w1, g) <==> w1 == UseHintPoly(h, Recomputed(row, z, c, t1), g)
  {
    hide Recomputed, UseHint, Red, SumAt, Negacyclic, Shifted, ReducedVec;
    var v := UseHintPoly(h, Recomputed(row, z, c, t1), g);
    forall n | 0 <= n < 256
      ensures v[n] == UseHint(h[n], Red(SumAt(row, z, |row|, n) - Negacyclic(c, Shifted(t1))[n]), g)
    {
      RecomputedAt(row, z, c, t1, n);
    }
  }

  lemma RepresentativeIs(x: Xof, pk: PublicKey, message: seq<byte>)
    ensures Representative(x, pk, message) == Sum256(x, 64, Sum256(x, 64, EncodePublicKey(pk)) + Framed(message))
  {
    hide Sum256, PackAll;
    var tr := Sum256(x, 64, EncodePublicKey(pk));
    assert tr + [0, 0] + message == tr + Framed(message);
  }

  lemma SmallNorm(v: int, bound: int)
    requires -bound < v < bound && bound <= 4190208
    ensures Abs(Centered(Red(v))) < bound
  {
    RedRed(v);
    CongSmall(Centered(Red(v)), v);
  }

  lemma ShortNorm(z: PolyVec, bound: int)
    requires Short(z, bound) && bound <= 4190208
    ensures NormBelow(z, bound) && CenteredVec(z)
  {
    hide Red;
    forall j | 0 <= j < |z|
      ensures PolyNormBelow(z[j], bound)
    {
      forall c | 0 <= c < 256
        ensures Abs(Centered(Red(z[j][c]))) < bound
      {
        SmallNorm(z[j][c], bound);
      }
    }
  }

  lemma NormShort(z: PolyVec, bound: int)
    requires NormBelow(z, bound) && CenteredVec(z)
    ensures Short(z, bound)
  {
    hide Red;
    forall j, c | 0 <= j < |z| && 0 <= c < 256
      ensures -bound < z[j][c] < bound
    {
      assert PolyNormBelow(z[j], bound);
      CenteredSmall(z[j][c], bound);
    }
  }

  lemma DecodedCentered(q: Params, sig: seq<byte>)
    ensures CenteredVec(DecodeZVec(q, sig))
  {
    hide Unpack, ZBits, Exp2, Slice;
    ZBitsFacts(q);
    forall j | 0 <= j < q.l
      ensures forall c :: 0 <= c < 256 ==> -4190208 <= DecodeZVec(q, sig)[j][c] <= 4190208
    {
      UnpackInRange(Slice(sig, ZOffset(q, j), 32 * ZBits(q)), ZBits(q));
    }
  }

  lemma DecodedIsVec(q: Params, sig: seq<byte>)
    ensures DecodeZVec(q, sig) == DecodeVec(sig, q.ctBytes, q.l, q.gamma1, ZBits(q))
  {
    hide Unpack, ZBits, Slice, Offset;
  }

  lemma ThreeParts(sig: seq<byte>, a: nat, b: nat)
    requires a <= b <= |sig|
    ensures sig == sig[..a] + sig[a..b] + sig[b..]
  {
  }

  /** Every byte string of the right size with canonical hints is the encoding of what it decodes to. */
  lemma SignatureWriteBack(p: ParameterSet, sig: seq<byte>, hb: seq<byte>, h: Hints)
    requires |sig| == SignatureSize(p) && hb == Slice(sig, ZOffset(Info(p), Info(p).l), Info(p).omega + Info(p).k)
    requires Accepts(hb, Info(p).omega, Info(p).k) && h == DecodeHints(hb, Info(p).omega, Info(p).k)
    ensures ZeroOne(h) && Weight(h) <= Info(p).omega
    ensures var q := Info(p);
      sig == Slice(sig, 0, q.ctBytes) + PackAll(OffsetVec(q.gamma1, DecodeZVec(q, sig)), ZBits(q)) + HintBytes(h, q.omega)
  {
    hide Info, SignatureSize, Accepts, IsDecoding, Weight, HintByte, PackAll, DecodeHints, DecodeZVec, DecodeVec, ZeroOne, ZBits, BitLen, HintBytes;
    var q := Info(p);
    SizesAgree(p);
    ZBitsFacts(q);
    PackOfUnpack(hb, q.omega, q.k, h);
    EncodingWeight(h, q.omega, hb);
    EncodingIsHintBytes(h, q.omega, hb);
    DecodedIsVec(q, sig);
    VecWriteBack(sig, q.ctBytes, q.l, q.gamma1, ZBits(q));
    ThreeParts(sig, q.ctBytes, ZOffset(q, q.l));
    assert hb == sig[ZOffset(q, q.l)..];
  }

  lemma EncodingWeight(h: Hints, omega: nat, out: seq<byte>)
    requires IsEncoding(h, omega, out)
    ensures Weight(h) <= omega
  {
    hide Weight, CountAt;
  }

  lemma AcceptedIsGenuine(x: Xof, p: ParameterSet, pk: PublicKey, message: seq<byte>, sig: seq<byte>)
    requires |pk.t1| == Info(p).k && VerifyMessage(x, p, pk, message, sig).Ok?
    ensures exists ctilde, z, h, w1 :: Genuine(x, Info(p), pk, message, sig, ctilde, z, h, w1)
  {
    hide Info, SignatureSize, Accepts, IsDecoding, Weight, PackAll, DecodeHints, DecodeZVec, RecoveredVec, ChallengePoly, Sum256,
      HintBytes, NormBelow, Slice, EncodePublicKey, Framed, Representative, Corrected, OffsetVec, ZBits, W1Bits, ZeroOne, Short, ZOffset, CenteredVec;
    var q := Info(p);
    BetaFacts(p);
    var ctilde, z := Slice(sig, 0, q.ctBytes), DecodeZVec(q, sig);
    var hb := Slice(sig, ZOffset(q, q.l), q.omega + q.k);
    var h := DecodeHints(hb, q.omega, q.k);
    var c := ChallengePoly(x, ctilde, q.tau);
    var w1 := RecoveredVec(x, q, pk, z, c, h);
    SignatureWriteBack(p, sig, hb, h);
    DecodedCentered(q, sig);
    NormShort(z, q.gamma1 - q.beta);
    CorrectedIs(x, q, pk, z, c, h, w1);
    RepresentativeIs(x, pk, message);
    assert |ctilde| == q.ctBytes by { SizesAgree(p); HeadLength(p, sig); }
    assert Genuine(x, q, pk, message, sig, ctilde, z, h, w1);
  }

  lemma HeadLength(p: ParameterSet, sig: seq<byte>)
    requires |sig| == SignatureSize(p)
    ensures |Slice(sig, 0, Info(p).ctBytes)| == Info(p).ctBytes
  {
  }

  lemma GenuineIsAccepted(x: Xof, p: ParameterSet, pk: PublicKey, message: seq<byte>, sig: seq<byte>,
                          ctilde: seq<byte>, z: PolyVec, h: Hints, w1: seq<seq<nat>>)
    requires |pk.t1| == Info(p).k && Genuine(x, Info(p), pk, message, sig, ctilde, z, h, w1)
    ensures VerifyMessage(x, p, pk, message, sig) == Ok(())
  {
    hide Info, SignatureSize, Accepts, IsDecoding, Weight, PackAll, DecodeHints, DecodeZVec, RecoveredVec, ChallengePoly, Sum256,
      HintBytes, NormBelow, Slice, EncodePublicKey, Framed, Representative, Corrected, OffsetVec, ZBits, W1Bits, ZeroOne, Short, ZOffset, CenteredVec;
    var q := Info(p);
    BetaFacts(p);
    var c := ChallengePoly(x, ctilde, q.tau);
    var t := Trial([], [], ctilde, c, z, [], [], h);
    ShortNorm(z, q.gamma1 - q.beta);
    NormWeaker(z, q.gamma1 - q.beta, q.gamma1);
    SignatureParts(q, t, sig);
    SizesAgree(p);
    ZReadBack(q, t, sig);
    HintsReadBack(h, q.omega);
    CorrectedIs(x, q, pk, z, c, h, w1);
    RepresentativeIs(x, pk, message);
  }

  /** Verify accepts exactly the genuine signatures, and reports the size error exactly for the wrong
      size. */
  lemma VerifyIff(x: Xof, p: ParameterSet, pk: PublicKey, message: seq<byte>, sig: seq<byte>)
    requires |pk.t1| == Info(p).k
    ensures VerifyMessage(x, p, pk, message, sig) == Ok(())
            <==> exists ctilde, z, h, w1 :: Genuine(x, Info(p), pk, message, sig, ctilde, z, h, w1)
    ensures VerifyMessage(x, p, pk, message, sig) == Err(InvalidSignatureSize) <==> |sig| != SignatureSize(p)
  {
    hide Genuine, Info, SignatureSize, Accepts, NormBelow, DecodeZVec, DecodeHints, RecoveredVec, ChallengePoly, ChallengeHash, Sum256, Slice;
    if VerifyMessage(x, p, pk, message, sig).Ok? {
      AcceptedIsGenuine(x, p, pk, message, sig);
    }
    if ctilde, z, h, w1 :| Genuine(x, Info(p), pk, message, sig, ctilde, z, h, w1) {
      GenuineIsAccepted(x, p, pk, message, sig, ctilde, z, h, w1);
    }
  }

  // ---- one signature, one message -------------------------------------------------------------------

  /** Two representatives that hash alike before one packed commitment. */
  ghost predicate Collide(x: Xof, n: nat, mu1: seq<byte>, mu2: seq<byte>, w: seq<byte>) {
    mu1 != mu2 && Sum256(x, n, mu1 + w) == Sum256(x, n, mu2 + w)
  }

  /** A signature that Verify accepts for two messages gives a collision: of the representatives, which
      are hashes of different byte strings, or of the challenge hash on them. */
  lemma OneMessage(x: Xof, p: ParameterSet, pk: PublicKey, m1: seq<byte>, m2: seq<byte>, sig: seq<byte>)
    requires |pk.t1| == Info(p).k && m1 != m2
    requires VerifyMessage(x, p, pk, m1, sig).Ok? && VerifyMessage(x, p, pk, m2, sig).Ok?
    ensures var tr := Sum256(x, 64, pk.rho + PackAll(pk.t1, 10));
      var a, b := tr + [0, 0] + m1, tr + [0, 0] + m2;
      a != b && (Sum256(x, 64, a) == Sum256(x, 64, b)
                 || exists w :: Collide(x, Info(p).ctBytes, Sum256(x, 64, a), Sum256(x, 64, b), w))
  {
    hide Info, SignatureSize, Accepts, NormBelow, DecodeZVec, DecodeHints, RecoveredVec, ChallengePoly, Sum256, Slice, PackAll, W1Bits, Framed, EncodePublicKey, ZOffset;
    var q := Info(p);
    var tr := Sum256(x, 64, pk.rho + PackAll(pk.t1, 10));
    var a, b := tr + [0, 0] + m1, tr + [0, 0] + m2;
    assert a[|tr| + 2..] == m1 && b[|tr| + 2..] == m2;
    RepresentativeIs(x, pk, m1);
    RepresentativeIs(x, pk, m2);
    var ctilde, z := Slice(sig, 0, q.ctBytes), DecodeZVec(q, sig);
    var h := DecodeHints(Slice(sig, ZOffset(q, q.l), q.omega + q.k), q.omega, q.k);
    var w := PackAll(RecoveredVec(x, q, pk, z, ChallengePoly(x, ctilde, q.tau), h), W1Bits(q));
    assert Sum256(x, q.ctBytes, Sum256(x, 64, a) + w) == ctilde == Sum256(x, q.ctBytes, Sum256(x, 64, b) + w);
    assert Sum256(x, 64, a) == Sum256(x, 64, b) || Collide(x, q.ctBytes, Sum256(x, 64, a), Sum256(x, 64, b), w);
  }
}
