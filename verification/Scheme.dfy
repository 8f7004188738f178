/**
 ML-DSA (sections 6.1 to 6.3 of FIPS 204) as mathematics: parameter sets, keys, one pass of
 the signing loop, and verification, each as a function of its inputs and of SHAKE. The
 procedures that compute them step by step are in the module Signer.
 */
module Scheme {
  import opened Modular
  import opened Outcomes
  import opened Transform
  import opened Rounding
  import opened BitPacking
  import opened HintCodec
  import opened Sampling
  import opened Challenge
  import opened PolyAlgebra

  // ---- parameters -------------------------------------------------------------------------

  type Dimension = n: nat | 1 <= n <= 8 witness 1
  type Eta = e: int | e == 2 || e == 4 witness 2
  type Tau = t: nat | t <= 60
  type Omega = w: nat | w <= 80
  type Gamma1 = g: int | g == 131072 || g == 524288 witness 131072

  datatype Params = Params(k: Dimension, l: Dimension, eta: Eta, tau: Tau, beta: int,
                           gamma1: Gamma1, gamma2: Gamma2, omega: Omega, ctBytes: nat)

  datatype ParameterSet = MLDSA44 | MLDSA65 | MLDSA87

  /** `info` for the three defined sets. */
  function Info(p: ParameterSet): Params {
    match p
    case MLDSA44 => Params(4, 4, 2, 39, 39 * 2, 131072, 8380416 / 88, 80, 32)
    case MLDSA65 => Params(6, 5, 4, 49, 49 * 4, 524288, 8380416 / 32, 55, 48)
    case MLDSA87 => Params(8, 7, 2, 60, 60 * 2, 524288, 8380416 / 32, 75, 64)
  }

  function PublicKeySize(p: ParameterSet): nat {
    match p
    case MLDSA44 => 1312
    case MLDSA65 => 1952
    case MLDSA87 => 2592
  }

  function SecretKeySize(p: ParameterSet): nat {
    match p
    case MLDSA44 => 2560
    case MLDSA65 => 4032
    case MLDSA87 => 4896
  }

  function SignatureSize(p: ParameterSet): nat {
    match p
    case MLDSA44 => 2420
    case MLDSA65 => 3309
    case MLDSA87 => 4627
  }

  /** `bitlen`. */
  function BitLen(x: int): nat
    decreases if x > 0 then x else 0
  {
    if x <= 0 then 0 else 1 + BitLen(x / 2)
  }

  function ZBits(q: Params): nat {
    BitLen(2 * q.gamma1 - 1)
  }

  function W1Bits(q: Params): nat {
    BitLen(8380416 / (2 * q.gamma2) - 1)
  }

  function EtaBits(q: Params): nat {
    BitLen(2 * q.eta)
  }

  lemma ZBitsFacts(q: Params)
    ensures ZBits(q) == (if q.gamma1 == 131072 then 18 else 20) && Exp2(ZBits(q)) == 2 * q.gamma1
  {
    assert Exp2(18) == 262144 && Exp2(20) == 1048576 by {
      Exp2Sum(9, 9);
      Exp2Sum(10, 10);
      assert Exp2(9) == 512 && Exp2(10) == 1024;
    }
    BitLenAll(18);
    BitLenAll(20);
  }

  lemma W1BitsFacts(q: Params)
    ensures W1Bits(q) == (if q.gamma2 == 95232 then 6 else 4)
    ensures forall h: nat :: h * (2 * q.gamma2) < 8380416 ==> h < Exp2(W1Bits(q))
  {
    assert BitLen(43) == 1 + BitLen(21) && BitLen(21) == 1 + BitLen(10) && BitLen(10) == 1 + BitLen(5);
    assert BitLen(5) == 1 + BitLen(2) && BitLen(2) == 1 + BitLen(1) && BitLen(1) == 1 + BitLen(0);
    assert BitLen(15) == 1 + BitLen(7) && BitLen(7) == 1 + BitLen(3) && BitLen(3) == 1 + BitLen(1);
    assert Exp2(4) == 16 && Exp2(6) == 64;
    if q.gamma2 == 95232 {
      assert 8380416 / (2 * q.gamma2) == 44;
    } else {
      assert 8380416 / (2 * q.gamma2) == 16;
    }
  }

  lemma EtaBitsFacts(q: Params)
    ensures EtaBits(q) == (if q.eta == 2 then 3 else 4) && 2 * q.eta < Exp2(EtaBits(q))
  {
    assert BitLen(2) == 1 + BitLen(1) && BitLen(1) == 1 + BitLen(0);
    assert BitLen(8) == 1 + BitLen(4) && BitLen(4) == 1 + BitLen(2);
    assert Exp2(3) == 8 && Exp2(4) == 16;
  }

  lemma {:induction false} BitLenAll(n: nat)
    ensures BitLen(Exp2(n) - 1) == n
  {
    if n > 0 {
      BitLenAll(n - 1);
      assert (Exp2(n) - 1) / 2 == Exp2(n - 1) - 1;
    }
  }

  lemma BetaFacts(p: ParameterSet)
    ensures var q := Info(p);
      q.beta == q.eta * q.tau && 0 < q.beta <= 196 && q.beta < q.gamma2 && q.beta < q.gamma1
  {
  }

  // ---- vectors ----------------------------------------------------------------------------

  type PolyVec = seq<Poly256>

  /** Every stream offers its rejection sampler as many acceptable candidates as it draws. */
  ghost predicate LiveXof(x: Xof) {
    && (forall b :: Enough(NttCandidates(x.shake128(b)), 256))
    && (forall b, eta: Eta :: Enough(HalfByteCandidates(x.shake256(b), eta), 256))
    && (forall b, tau: Tau :: BallOk(x.shake256(b), tau))
  }

  /** Row r of `expandA`. */
  ghost function MatrixRow(x: Xof, rho: seq<byte>, r: nat, l: nat): (row: PolyVec)
    ensures |row| == l
  {
    seq<Poly256>(l, s requires 0 <= s => MatrixEntry(x, rho, s, r))
  }

  /** `expandS`: n polynomials from consecutive nonces. */
  ghost function SecretVec(x: Xof, rhoP: seq<byte>, first: nat, n: nat, eta: Eta): (v: PolyVec)
    ensures |v| == n
  {
    seq<Poly256>(n, i requires 0 <= i => BoundedPoly(x, rhoP, first + i, eta))
  }

  ghost function ForwardVec(v: PolyVec): (r: PolyVec)
    ensures |r| == |v|
  {
    seq<Poly256>(|v|, i requires 0 <= i < |v| => Forward(v[i]))
  }

  /** The product of a row with a transformed vector; zero if the lengths disagree. */
  ghost function RowProduct(row: PolyVec, v: PolyVec): Poly256 {
    if |row| == |v| then RowAcc(row, v, |row|) else Zero()
  }

  // ---- keys -------------------------------------------------------------------------------

  /** A polynomial of 10-bit coefficients. */
  type T1Poly = p: seq<nat> | |p| == 256 && (forall i :: 0 <= i < 256 ==> p[i] < 1024) witness seq<nat>(256, i => 0)

  datatype PublicKey = PublicKey(rho: seq<byte>, t1: seq<T1Poly>)

  datatype SecretKey = SecretKey(rho: seq<byte>, key: seq<byte>, tr: seq<byte>, s1: PolyVec, s2: PolyVec, t0: PolyVec)

  /** t = A·s1 + s2, row i. */
  ghost function PublicValue(row: PolyVec, s1: PolyVec, s2: Poly256): Poly256 {
    AddRed(Backward(RowProduct(row, ForwardVec(s1))), s2)
  }

  function HighPart(t: Poly256): T1Poly {
    seq<nat>(256, c requires 0 <= c < 256 => Power2Round(t[c]).0)
  }

  function LowPart(t: Poly256): Poly256 {
    seq(256, c requires 0 <= c < 256 => Power2Round(t[c]).1)
  }

  /** The encodings of a list of polynomials, one after the other. */
  ghost function PackAll(vs: seq<seq<nat>>, width: nat): seq<byte> {
    if vs == [] then [] else PackAll(vs[..|vs| - 1], width) + Pack(vs[|vs| - 1], width)
  }

  /** `PublicKeyToBytes`. */
  ghost function EncodePublicKey(pk: PublicKey): seq<byte> {
    pk.rho + PackAll(pk.t1, 10)
  }

  /** `keyGenFromSeed`. */
  ghost function GenerateKeys(x: Xof, q: Params, xi: seq<byte>): (r: (PublicKey, SecretKey))
    ensures |r.0.t1| == q.k && ShapedKey(q, r.1)
  {
    var seed := Sum256(x, 128, xi + [q.k] + [q.l]);
    var rho, rhoP := seed[..32], seed[32..96];
    var s1, s2 := SecretVec(x, rhoP, 0, q.l, q.eta), SecretVec(x, rhoP, q.l, q.k, q.eta);
    var t := seq<Poly256>(q.k, i requires 0 <= i < q.k => PublicValue(MatrixRow(x, rho, i, q.l), s1, s2[i]));
    var pk := PublicKey(rho, seq<T1Poly>(q.k, i requires 0 <= i < q.k => HighPart(t[i])));
    var t0 := seq<Poly256>(q.k, i requires 0 <= i < q.k => LowPart(t[i]));
    (pk, SecretKey(rho, seed[96..], Sum256(x, 64, EncodePublicKey(pk)), s1, s2, t0))
  }

  // ---- signing ----------------------------------------------------------------------------

  /** `framedMessage` for an empty context. */
  function Framed(message: seq<byte>): seq<byte> {
    [0, 0] + message
  }

  /** One polynomial of `expandMask`. */
  ghost function MaskPoly(x: Xof, rhoPP: seq<byte>, nonce: nat, q: Params): Poly256 {
    var n := nonce % 65536;
    Offset(q.gamma1, Unpack(Sum256(x, 32 * ZBits(q), rhoPP + [n % 256, n / 256]), ZBits(q), 256))
  }

  ghost function Mask(x: Xof, rhoPP: seq<byte>, kappa: nat, q: Params): (y: PolyVec)
    ensures |y| == q.l
  {
    seq<Poly256>(q.l, i requires 0 <= i => MaskPoly(x, rhoPP, kappa + i, q))
  }

  /** The commitment w = A·y. */
  ghost function Commitment(x: Xof, rho: seq<byte>, y: PolyVec, q: Params): (w: PolyVec)
    ensures |w| == q.k
  {
    seq<Poly256>(q.k, i requires 0 <= i => Backward(RowProduct(MatrixRow(x, rho, i, q.l), ForwardVec(y))))
  }

  function HighBitsPoly(w: Poly256, g: Gamma2): (r: seq<nat>)
    ensures |r| == 256
  {
    seq<nat>(256, c requires 0 <= c < 256 => HighBits(w[c], g))
  }

  ghost function HighBitsVec(w: PolyVec, g: Gamma2): (r: seq<seq<nat>>)
    ensures |r| == |w|
  {
    seq<seq<nat>>(|w|, i requires 0 <= i < |w| => HighBitsPoly(w[i], g))
  }

  /** The challenge hash of a message representative and packed high bits. */
  ghost function ChallengeHash(x: Xof, q: Params, mu: seq<byte>, w1: seq<seq<nat>>): (h: seq<byte>)
    ensures |h| == q.ctBytes
  {
    Sum256(x, q.ctBytes, mu + PackAll(w1, W1Bits(q)))
  }

  /** c·v through the transform. */
  ghost function ChallengeTimes(c: Poly256, v: Poly256): Poly256 {
    Backward(Pointwise(Forward(c), Forward(v)))
  }

  ghost function ChallengeTimesVec(c: Poly256, v: PolyVec): (r: PolyVec)
    ensures |r| == |v|
  {
    seq<Poly256>(|v|, i requires 0 <= i < |v| => ChallengeTimes(c, v[i]))
  }

  /** z = y + c·s1, centered. */
  function ResponsePoly(y: Poly256, cs1: Poly256): Poly256 {
    seq(256, c requires 0 <= c < 256 => Centered(Red(y[c] + cs1[c])))
  }

  function HintBit(r: int, t: int, g: Gamma2): int {
    if HighBits(Red(r + t), g) != HighBits(r, g) then 1 else 0
  }

  function HintPoly(r: Poly256, t: Poly256, g: Gamma2): Poly256 {
    seq(256, c requires 0 <= c < 256 => HintBit(r[c], t[c], g))
  }

  ghost function ResponseVec(y: PolyVec, c: Poly256, s1: PolyVec): (z: PolyVec)
    requires |y| == |s1|
    ensures |z| == |y|
  {
    seq<Poly256>(|y|, j requires 0 <= j < |y| => ResponsePoly(y[j], ChallengeTimes(c, s1[j])))
  }

  /** w - c·s2. */
  ghost function ResidualVec(w: PolyVec, c: Poly256, s2: PolyVec): (r: PolyVec)
    requires |w| == |s2|
    ensures |r| == |w|
  {
    seq<Poly256>(|w|, i requires 0 <= i < |w| => SubRed(w[i], ChallengeTimes(c, s2[i])))
  }

  function HintVec(r: PolyVec, t: PolyVec, g: Gamma2): (h: Hints)
    requires |r| == |t|
    ensures |h| == |r|
  {
    seq<Poly256>(|r|, i requires 0 <= i < |r| => HintPoly(r[i], t[i], g))
  }

  /** Everything one pass of the signing loop computes. */
  datatype Trial = Trial(y: PolyVec, w: PolyVec, ctilde: seq<byte>, c: Poly256,
                         z: PolyVec, r: PolyVec, ct0: PolyVec, h: Hints)

  ghost predicate ShapedKey(q: Params, sk: SecretKey) {
    |sk.s1| == q.l && |sk.s2| == q.k && |sk.t0| == q.k
  }

  /** The pass with counter kappa. */
  ghost function MakeTrial(x: Xof, q: Params, sk: SecretKey, mu: seq<byte>, rhoPP: seq<byte>, kappa: nat): Trial
    requires ShapedKey(q, sk)
  {
    var y := Mask(x, rhoPP, kappa, q);
    var w := Commitment(x, sk.rho, y, q);
    var ctilde := ChallengeHash(x, q, mu, HighBitsVec(w, q.gamma2));
    var c := ChallengePoly(x, ctilde, q.tau);
    var z := ResponseVec(y, c, sk.s1);
    var r := ResidualVec(w, c, sk.s2);
    var ct0 := ChallengeTimesVec(c, sk.t0);
    Trial(y, w, ctilde, c, z, r, ct0, HintVec(r, ct0, q.gamma2))
  }

  /** The infinity norm, taken on centered residues, is below the bound. */
  ghost predicate NormBelow(v: PolyVec, bound: int) {
    forall i :: 0 <= i < |v| ==> PolyNormBelow(v[i], bound)
  }

  ghost predicate PolyNormBelow(p: Poly256, bound: int) {
    forall c :: 0 <= c < 256 ==> Abs(Centered(Red(p[c]))) < bound
  }

  ghost predicate LowBitsBelow(v: PolyVec, bound: int, g: Gamma2) {
    forall i :: 0 <= i < |v| ==> PolyLowBitsBelow(v[i], bound, g)
  }

  ghost predicate PolyLowBitsBelow(p: Poly256, bound: int, g: Gamma2) {
    forall c :: 0 <= c < 256 ==> Abs(LowBits(p[c], g)) < bound
  }

  /** The four tests a pass must survive. */
  ghost predicate Survives(q: Params, t: Trial) {
    && NormBelow(t.z, q.gamma1 - q.beta)
    && LowBitsBelow(t.r, q.gamma2 - q.beta, q.gamma2)
    && NormBelow(t.ct0, q.gamma2)
    && Weight(t.h) <= q.omega
  }

  /** What `bitPack` stores: uint32(b - coefficient). */
  function OffsetWords(b: int, z: Poly256): (r: seq<nat>)
    ensures |r| == 256
  {
    seq<nat>(256, c requires 0 <= c < 256 => (b - z[c]) % 0x1_0000_0000)
  }

  ghost function OffsetVec(b: int, z: PolyVec): (r: seq<seq<nat>>)
    ensures |r| == |z|
  {
    seq<seq<nat>>(|z|, j requires 0 <= j < |z| => OffsetWords(b, z[j]))
  }

  /** cTilde, then z, then the hints. */
  ghost function EncodeSignature(q: Params, t: Trial): seq<byte>
    requires Weight(t.h) <= q.omega
  {
    t.ctilde + PackAll(OffsetVec(q.gamma1, t.z), ZBits(q)) + HintBytes(t.h, q.omega)
  }

  datatype SignError = SigningFailed

  /** The signing loop from pass n on; at most 1000 passes are made. */
  ghost function SignFrom(x: Xof, q: Params, sk: SecretKey, mu: seq<byte>, rhoPP: seq<byte>, n: nat)
    : Result<seq<byte>, SignError>
    requires ShapedKey(q, sk) && n <= 1000
    decreases 1000 - n
  {
    if n == 1000 then Err(SigningFailed) else
      var t := MakeTrial(x, q, sk, mu, rhoPP, n * q.l);
      if Survives(q, t) then Ok(EncodeSignature(q, t)) else SignFrom(x, q, sk, mu, rhoPP, n + 1)
  }

  /** `Sign` with its random bytes given. */
  ghost function SignMessage(x: Xof, q: Params, sk: SecretKey, message: seq<byte>, rnd: seq<byte>)
    : Result<seq<byte>, SignError>
    requires ShapedKey(q, sk)
  {
    var mu := Sum256(x, 64, sk.tr + Framed(message));
    SignFrom(x, q, sk, mu, Sum256(x, 64, sk.key + rnd + mu), 0)
  }

  // ---- verification -----------------------------------------------------------------------

  function Slice(s: seq<byte>, o: nat, n: nat): seq<byte> {
    if o + n <= |s| then s[o..o + n] else []
  }

  /** Where z_j starts in a signature; for j = l, where the hints start. */
  function ZOffset(q: Params, j: nat): nat {
    q.ctBytes + 32 * ZBits(q) * j
  }

  ghost function DecodeZ(q: Params, sig: seq<byte>, j: nat): Poly256 {
    Offset(q.gamma1, Unpack(Slice(sig, ZOffset(q, j), 32 * ZBits(q)), ZBits(q), 256))
  }

  ghost function DecodeZVec(q: Params, sig: seq<byte>): (z: PolyVec)
    ensures |z| == q.l
  {
    seq<Poly256>(q.l, j requires 0 <= j => DecodeZ(q, sig, j))
  }

  ghost function DecodeHints(buf: seq<byte>, omega: nat, k: nat): (h: Hints)
    requires Accepts(buf, omega, k)
    ensures |h| == k && IsDecoding(buf, omega, k, h)
  {
    seq<Poly256>(k, i requires 0 <= i < k => Indicator(Segment(buf, omega, i)))
  }

  function ScaledT1(t1: T1Poly): Poly256 {
    seq(256, c requires 0 <= c < 256 => Red(t1[c] * 8192))
  }

  /** Row i of A·z - c·t1·2^13, transformed back. */
  ghost function Recomputed(row: PolyVec, z: PolyVec, c: Poly256, t1: T1Poly): Poly256 {
    Backward(SubRed(RowProduct(row, ForwardVec(z)), Pointwise(Forward(c), Forward(ScaledT1(t1)))))
  }

  function UseHintPoly(h: Poly256, acc: Poly256, g: Gamma2): (r: seq<nat>)
    ensures |r| == 256
  {
    seq<nat>(256, c requires 0 <= c < 256 => UseHint(h[c], acc[c], g))
  }

  ghost function RecoveredVec(x: Xof, q: Params, pk: PublicKey, z: PolyVec, c: Poly256, h: Hints): (w1: seq<seq<nat>>)
    requires |pk.t1| == q.k && |h| == q.k
    ensures |w1| == q.k
  {
    seq<seq<nat>>(q.k, i requires 0 <= i < q.k =>
      UseHintPoly(h[i], Recomputed(MatrixRow(x, pk.rho, i, q.l), z, c, pk.t1[i]), q.gamma2))
  }

  datatype VerifyError = InvalidSignatureSize | VerificationFailed

  /** `Verify`. */
  ghost function VerifyMessage(x: Xof, p: ParameterSet, pk: PublicKey, message: seq<byte>, sig: seq<byte>)
    : Result<(), VerifyError>
    requires |pk.t1| == Info(p).k
  {
    var q := Info(p);
    if |sig| != SignatureSize(p) then Err(InvalidSignatureSize) else
      var ctilde := Slice(sig, 0, q.ctBytes);
      var z := DecodeZVec(q, sig);
      var hb := Slice(sig, ZOffset(q, q.l), q.omega + q.k);
      if !Accepts(hb, q.omega, q.k) || !NormBelow(z, q.gamma1 - q.beta) then Err(VerificationFailed) else
        var mu := Sum256(x, 64, Sum256(x, 64, EncodePublicKey(pk)) + Framed(message));
        var c := ChallengePoly(x, ctilde, q.tau);
        var w1 := RecoveredVec(x, q, pk, z, c, DecodeHints(hb, q.omega, q.k));
        if ctilde == ChallengeHash(x, q, mu, w1) then Ok(()) else Err(VerificationFailed)
  }
}
