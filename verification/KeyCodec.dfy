/**
 Key encodings (section 7.2 of FIPS 204). Every public key round-trips both ways; every byte
 string of the right size is the encoding of the secret key it decodes to, and a secret key
 survives encoding exactly when its coefficients fit their fields, as generated ones do.
 */
module KeyCodec {
  import opened Modular
  import opened Outcomes
  import opened BitPacking
  import opened Sampling
  import opened Scheme
  import opened Encodings

  datatype KeyError = InvalidPublicKeySize | InvalidSecretKeySize

  // ---- lists of polynomials ---------------------------------------------------------------------

  ghost function EncodeVec(b: int, v: PolyVec, width: nat): seq<byte> {
    PackAll(OffsetVec(b, v), width)
  }

  ghost function DecodeVec(data: seq<byte>, o: nat, n: nat, b: int, width: nat): (v: PolyVec)
    ensures |v| == n
  {
    seq<Poly256>(n, j requires 0 <= j => DecodePoly(data, o + 32 * width * j, b, width))
  }

  ghost function DecodePoly(data: seq<byte>, o: nat, b: int, width: nat): Poly256 {
    Offset(b, Unpack(Slice(data, o, 32 * width), width, 256))
  }

  ghost predicate VecFits(b: int, v: PolyVec, width: nat) {
    forall j :: 0 <= j < |v| ==> FitsOffset(b, v[j], width)
  }

  lemma {:induction false} FromBitsInRange(bs: seq<Bit>, width: nat, count: nat)
    ensures InRange(FromBits(bs, width, count), width)
    decreases count
  {
    hide Value, Exp2;
    if count > 0 {
      ValueBound(Prefix(bs, width));
      FromBitsInRange(Suffix(bs, width), width, count - 1);
    }
  }

  /** Whatever the bytes, decoded values fit their field. */
  lemma UnpackInRange(buf: seq<byte>, width: nat)
    ensures InRange(Unpack(buf, width, 256), width)
  {
    hide Flatten, FromBits, InRange;
    FromBitsInRange(Flatten(buf, 8), width, 256);
  }

  lemma DecodedFits(data: seq<byte>, o: nat, n: nat, b: int, width: nat)
    ensures VecFits(b, DecodeVec(data, o, n, b, width), width)
  {
    hide Unpack, Slice, Exp2;
    forall j | 0 <= j < n
      ensures FitsOffset(b, DecodeVec(data, o, n, b, width)[j], width)
    {
      UnpackInRange(Slice(data, o + 32 * width * j, 32 * width), width);
    }
  }

  lemma WordsOfFitting(b: int, p: Poly256, width: nat)
    requires FitsOffset(b, p, width) && width <= 32
    ensures OffsetWords(b, p) == Offset(b, p)
  {
    hide Exp2;
    Exp2Monotone(width, 32);
    WordSize();
  }

  lemma WordSize()
    ensures Exp2(32) == 0x1_0000_0000
  {
    Exp2Eight();
    Exp2Sum(8, 8);
    Exp2Sum(16, 16);
  }

  lemma EncodedVecLength(b: int, v: PolyVec, width: nat)
    ensures |EncodeVec(b, v, width)| == 32 * width * |v|
  {
    hide PackAll, OffsetWords;
    PackAllLength(OffsetVec(b, v), width);
  }

  /** A list read back from where it was written. */
  lemma VecReadBack(pre: seq<byte>, post: seq<byte>, b: int, v: PolyVec, width: nat)
    requires VecFits(b, v, width) && width <= 32
    ensures DecodeVec(pre + (EncodeVec(b, v, width) + post), |pre|, |v|, b, width) == v
  {
    hide PackAll, Pack, OffsetWords, Unpack, Offset, Exp2, FitsOffset, Slice;
    var e := EncodeVec(b, v, width);
    var data := pre + (e + post);
    EncodedVecLength(b, v, width);
    forall j | 0 <= j < |v|
      ensures DecodePoly(data, |pre| + 32 * width * j, b, width) == v[j]
    {
      var o, w := 32 * width * j, 32 * width;
      SliceAppend(pre, e + post, o, w);
      NextFits(width, j, |v|);
      SliceAppend(e, post, o, w);
      PackAllSlice(OffsetVec(b, v), width, j);
      WordsOfFitting(b, v[j], width);
      OffsetRoundTrip(v[j], b, width);
    }
  }

  lemma OffsetTwice(b: int, vs: seq<nat>, width: nat)
    requires |vs| == 256 && InRange(vs, width) && width <= 32
    ensures OffsetWords(b, Offset(b, vs)) == vs
  {
    hide Exp2;
    Exp2Monotone(width, 32);
    WordSize();
  }

  lemma PartOfData(data: seq<byte>, o: nat, e: nat, p: nat, w: nat)
    requires o <= e <= |data| && o + p + w <= e
    ensures Slice(data, o + p, w) == Slice(data[o..e], p, w) && |Slice(data[o..e], p, w)| == w
  {
    var x, y := data[o..e][p..p + w], data[o + p..o + p + w];
    assert forall i :: 0 <= i < w ==> x[i] == y[i];
  }

  /** One polynomial written back. */
  lemma PartWriteBack(part: seq<byte>, b: int, width: nat)
    requires |part| == 32 * width && width <= 32
    ensures Pack(OffsetWords(b, Offset(b, Unpack(part, width, 256))), width) == part
  {
    hide Pack, OffsetWords, Unpack, Offset, InRange;
    UnpackInRange(part, width);
    OffsetTwice(b, Unpack(part, width, 256), width);
    PackUnpack(part, width, 256);
  }

  /** Bytes decoded as a list and encoded again are unchanged. */
  lemma VecWriteBack(data: seq<byte>, o: nat, n: nat, b: int, width: nat)
    requires o + 32 * width * n <= |data| && width <= 32
    ensures EncodeVec(b, DecodeVec(data, o, n, b, width), width) == data[o..o + 32 * width * n]
  {
    hide Pack, OffsetWords, Unpack, Offset, PackAll, Slice;
    var v := DecodeVec(data, o, n, b, width);
    var e := o + 32 * width * n;
    var buf := data[o..e];
    var vs := OffsetVec(b, v);
    forall j | 0 <= j < n
      ensures Pack(vs[j], width) == Slice(buf, 32 * width * j, 32 * width)
    {
      NextFits(width, j, n);
      PartOfData(data, o, e, 32 * width * j, 32 * width);
      PartWriteBack(Slice(buf, 32 * width * j, 32 * width), b, width);
    }
    PackAllOfSlices(vs, width, buf);
  }

  // ---- public keys ------------------------------------------------------------------------------

  ghost function DecodeT1(data: seq<byte>, o: nat): T1Poly {
    var p := Unpack(Slice(data, o, 320), 10, 256);
    UnpackInRange(Slice(data, o, 320), 10);
    Exp2Ten();
    p
  }

  lemma Exp2Ten()
    ensures Exp2(10) == 1024
  {
  }

  /** `PublicKeyFromBytes`. */
  ghost function DecodePublicKey(p: ParameterSet, data: seq<byte>): Result<PublicKey, KeyError> {
    if |data| != PublicKeySize(p) then Err(InvalidPublicKeySize) else
      Ok(PublicKey(data[..32], seq<T1Poly>(Info(p).k, i requires 0 <= i => DecodeT1(data, 32 + 320 * i))))
  }

  lemma T1InRange(t: T1Poly)
    ensures InRange(t, 10)
  {
    Exp2Ten();
  }

  lemma T1Wide(ts: seq<T1Poly>)
    ensures Wide(ts)
  {
  }

  /** decode(encode(pk)) = pk. */
  lemma PublicKeyReadBack(p: ParameterSet, pk: PublicKey)
    requires |pk.rho| == 32 && |pk.t1| == Info(p).k
    ensures DecodePublicKey(p, EncodePublicKey(pk)) == Ok(pk)
  {
    hide PackAll, Pack, Unpack, Slice, Exp2, InRange, BitLen;
    var data := EncodePublicKey(pk);
    SizesAgree(p);
    T1Wide(pk.t1);
    PackAllLength(pk.t1, 10);
    forall i | 0 <= i < Info(p).k
      ensures DecodeT1(data, 32 + 320 * i) == pk.t1[i]
    {
      SliceAppend(pk.rho, PackAll(pk.t1, 10), 320 * i, 320);
      PackAllSlice(pk.t1, 10, i);
      T1InRange(pk.t1[i]);
      UnpackPack(pk.t1[i], 10);
    }
    assert data[..32] == pk.rho;
    assert DecodePublicKey(p, data).value.t1 == pk.t1;
  }

  /** encode(decode(data)) = data, and decoding fails on the wrong size only. */
  lemma PublicKeyWriteBack(p: ParameterSet, data: seq<byte>)
    ensures DecodePublicKey(p, data).Ok? <==> |data| == PublicKeySize(p)
    ensures var r := DecodePublicKey(p, data); r.Ok? ==> EncodePublicKey(r.value) == data
  {
    hide PackAll, Pack, Unpack, Slice, Exp2, InRange, BitLen;
    var r := DecodePublicKey(p, data);
    if r.Ok? {
      SizesAgree(p);
      var buf := data[32..];
      T1Wide(r.value.t1);
      forall i | 0 <= i < Info(p).k
        ensures Pack(r.value.t1[i], 10) == Slice(buf, 320 * i, 320)
      {
        SliceAppend(data[..32], buf, 320 * i, 320);
        assert data == data[..32] + buf;
        SliceLength(buf, 320 * i, 320);
        PackUnpack(Slice(buf, 320 * i, 320), 10, 256);
      }
      PackAllOfSlices(r.value.t1, 10, buf);
    }
  }

  lemma SliceLength(s: seq<byte>, o: nat, n: nat)
    requires o + n <= |s|
    ensures |Slice(s, o, n)| == n
  {
  }

  // ---- secret keys ------------------------------------------------------------------------------

  /** `SecretKeyToBytes`. */
  ghost function EncodeSecretKey(q: Params, sk: SecretKey): seq<byte> {
    sk.rho + sk.key + sk.tr
    + EncodeVec(q.eta, sk.s1, EtaBits(q)) + EncodeVec(q.eta, sk.s2, EtaBits(q)) + EncodeVec(4096, sk.t0, 13)
  }

  /** Where s2 starts in an encoded secret key. */
  function S2At(q: Params): nat {
    128 + 32 * EtaBits(q) * q.l
  }

  /** Where t0 starts. */
  function T0At(q: Params): nat {
    S2At(q) + 32 * EtaBits(q) * q.k
  }

  lemma KeyLayout(p: ParameterSet)
    ensures var q := Info(p); 128 <= S2At(q) <= T0At(q) && T0At(q) + 32 * 13 * q.k == SecretKeySize(p)
  {
    hide BitLen, EtaBits;
    SizesAgree(p);
    var q := Info(p);
    assert 32 * EtaBits(q) * (q.l + q.k) == 32 * EtaBits(q) * q.l + 32 * EtaBits(q) * q.k;
  }

  /** `SecretKeyFromBytes`. */
  ghost function DecodeSecretKey(p: ParameterSet, data: seq<byte>): Result<SecretKey, KeyError> {
    var q := Info(p);
    if |data| != SecretKeySize(p) then Err(InvalidSecretKeySize) else
      Ok(SecretKey(data[..32], data[32..64], data[64..128],
                   DecodeVec(data, 128, q.l, q.eta, EtaBits(q)),
                   DecodeVec(data, S2At(q), q.k, q.eta, EtaBits(q)),
                   DecodeVec(data, T0At(q), q.k, 4096, 13)))
  }

  ghost predicate FullKey(q: Params, sk: SecretKey) {
    ShapedKey(q, sk) && |sk.rho| == 32 && |sk.key| == 32 && |sk.tr| == 64
  }

  /** Every coefficient has room in its field. */
  ghost predicate KeyFits(q: Params, sk: SecretKey) {
    VecFits(q.eta, sk.s1, EtaBits(q)) && VecFits(q.eta, sk.s2, EtaBits(q)) && VecFits(4096, sk.t0, 13)
  }

  lemma EncodedKeyLength(p: ParameterSet, sk: SecretKey)
    requires FullKey(Info(p), sk)
    ensures |EncodeSecretKey(Info(p), sk)| == SecretKeySize(p)
  {
    hide EncodeVec, BitLen;
    var q := Info(p);
    var w := EtaBits(q);
    SizesAgree(p);
    EncodedVecLength(q.eta, sk.s1, w);
    EncodedVecLength(q.eta, sk.s2, w);
    EncodedVecLength(4096, sk.t0, 13);
    assert 32 * w * (q.l + q.k) == 32 * w * q.l + 32 * w * q.k;
  }

  /** decode(encode(sk)) = sk exactly when every coefficient fits. */
  lemma SecretKeyReadBack(p: ParameterSet, sk: SecretKey)
    requires FullKey(Info(p), sk)
    ensures DecodeSecretKey(p, EncodeSecretKey(Info(p), sk)) == Ok(sk) <==> KeyFits(Info(p), sk)
  {
    hide EncodeVec, DecodeVec, VecFits, EtaBits, Info, SecretKeySize;
    var q := Info(p);
    var w := EtaBits(q);
    var data := EncodeSecretKey(q, sk);
    EtaBitsFacts(q);
    EncodedKeyLength(p, sk);
    var head := sk.rho + sk.key + sk.tr;
    var e1, e2, e3 := EncodeVec(q.eta, sk.s1, w), EncodeVec(q.eta, sk.s2, w), EncodeVec(4096, sk.t0, 13);
    EncodedVecLength(q.eta, sk.s1, w);
    EncodedVecLength(q.eta, sk.s2, w);
    assert data == head + (e1 + (e2 + e3)) && data == head + e1 + (e2 + e3) && data == head + e1 + e2 + (e3 + []);
    if KeyFits(q, sk) {
      VecReadBack(head, e2 + e3, q.eta, sk.s1, w);
      VecReadBack(head + e1, e3, q.eta, sk.s2, w);
      VecReadBack(head + e1 + e2, [], 4096, sk.t0, 13);
      assert data[..32] == sk.rho && data[32..64] == sk.key && data[64..128] == sk.tr;
    }
    DecodedFits(data, 128, q.l, q.eta, w);
    DecodedFits(data, S2At(q), q.k, q.eta, w);
    DecodedFits(data, T0At(q), q.k, 4096, 13);
  }

  /** encode(decode(data)) = data for every byte string of the right size, and no other decodes. */
  lemma SecretKeyWriteBack(p: ParameterSet, data: seq<byte>)
    ensures DecodeSecretKey(p, data).Ok? <==> |data| == SecretKeySize(p)
    ensures var r := DecodeSecretKey(p, data); r.Ok? ==> EncodeSecretKey(Info(p), r.value) == data
  {
    hide EncodeVec, DecodeVec, EtaBits, Info, SecretKeySize, T0At, S2At;
    var r, q := DecodeSecretKey(p, data), Info(p);
    if r.Ok? {
      EtaBitsFacts(q);
      KeyLayout(p);
      var m, n := S2At(q), T0At(q);
      LayoutSteps(q);
      VecWriteBack(data, 128, q.l, q.eta, EtaBits(q));
      VecWriteBack(data, m, q.k, q.eta, EtaBits(q));
      VecWriteBack(data, n, q.k, 4096, 13);
      CutPoints(data, m, n, |data|);
    }
  }

  lemma LayoutSteps(q: Params)
    ensures 128 + 32 * EtaBits(q) * q.l == S2At(q) && S2At(q) + 32 * EtaBits(q) * q.k == T0At(q)
  {
  }

  lemma CutPoints(data: seq<byte>, m: nat, n: nat, e: nat)
    requires 128 <= m <= n <= e == |data|
    ensures data == data[..32] + data[32..64] + data[64..128] + data[128..m] + data[m..n] + data[n..e]
  {
    assert data[..m] == data[..32] + data[32..64] + data[64..128] + data[128..m];
  }

  lemma SmallFits(q: Params, s: Poly256)
    requires Small(s, q.eta)
    ensures FitsOffset(q.eta, s, EtaBits(q))
  {
    hide EtaBits, Exp2;
    EtaBitsFacts(q);
  }

  lemma LowPartFits(t: Poly256)
    ensures FitsOffset(4096, LowPart(t), 13)
  {
    assert Exp2(13) == 8192;
  }

  /** Generated secret keys decode back exactly. */
  lemma GeneratedKeyReadBack(x: Xof, p: ParameterSet, xi: seq<byte>)
    ensures var sk := GenerateKeys(x, Info(p), xi).1;
      DecodeSecretKey(p, EncodeSecretKey(Info(p), sk)) == Ok(sk)
  {
    hide PublicValue, MatrixRow, HighPart, LowPart, EncodePublicKey, BoundedPoly, Small, FitsOffset, EtaBits,
      DecodeSecretKey, EncodeSecretKey, Info;
    var q := Info(p);
    var sk := GenerateKeys(x, q, xi).1;
    var rhoP := Sum256(x, 128, xi + [q.k] + [q.l])[32..96];
    forall j | 0 <= j < q.l
      ensures FitsOffset(q.eta, sk.s1[j], EtaBits(q))
    {
      BoundedPolySmall(x, rhoP, 0 + j, q.eta);
      SmallFits(q, sk.s1[j]);
    }
    forall i | 0 <= i < q.k
      ensures FitsOffset(q.eta, sk.s2[i], EtaBits(q)) && FitsOffset(4096, sk.t0[i], 13)
    {
      BoundedPolySmall(x, rhoP, q.l + i, q.eta);
      SmallFits(q, sk.s2[i]);
      LowPartFits(PublicValue(MatrixRow(x, sk.rho, i, q.l), sk.s1, sk.s2[i]));
    }
    SecretKeyReadBack(p, sk);
  }

  // ---- the loops ----------------------------------------------------------------------------------

  /** `PublicKeyToBytes`. */
  method PublicKeyToBytes(pk: PublicKey) returns (out: seq<byte>)
    ensures out == EncodePublicKey(pk)
  {
    hide Pack, Exp2, Fits;
    out := pk.rho;
    for i := 0 to |pk.t1|
      invariant out == pk.rho + PackAll(pk.t1[..i], 10)
    {
      T1Fits(pk.t1[i]);
      var b := SimpleBitPack(pk.t1[i], 10);
      assert pk.t1[..i + 1][..i] == pk.t1[..i];
      out := out + b;
    }
    assert pk.t1[..|pk.t1|] == pk.t1;
  }

  lemma T1Fits(t: T1Poly)
    ensures Fits(t, 10)
  {
    Exp2Ten();
  }

  /** `PublicKeyFromBytes`. */
  method PublicKeyFromBytes(p: ParameterSet, data: seq<byte>) returns (r: Result<PublicKey, KeyError>)
    ensures r == DecodePublicKey(p, data)
  {
    hide Unpack, BitLen;
    var q := Info(p);
    if |data| != PublicKeySize(p) {
      return Err(InvalidPublicKeySize);
    }
    SizesAgree(p);
    var t1: seq<T1Poly> := [];
    var off := 32;
    for i := 0 to q.k
      invariant |t1| == i && off == 32 + 320 * i
      invariant forall j :: 0 <= j < i ==> t1[j] == DecodeT1(data, 32 + 320 * j)
    {
      var v := SimpleBitUnpack(data[off..off + 320], 10);
      assert v == DecodeT1(data, off);
      t1 := t1 + [v];
      off := off + 320;
    }
    assert data[0..32] == data[..32] && t1 == DecodePublicKey(p, data).value.t1;
    return Ok(PublicKey(data[0..32], t1));
  }

  /** Appends the encodings of a list of polynomials. */
  method AppendVec(out: seq<byte>, v: PolyVec, b: int, width: nat) returns (r: seq<byte>)
    requires width <= 32 && VecFits(b, v, width)
    ensures r == out + EncodeVec(b, v, width)
  {
    hide Pack, Exp2, FitsOffset, Offset, OffsetWords;
    ghost var vs := OffsetVec(b, v);
    r := out;
    for j := 0 to |v|
      invariant r == out + PackAll(vs[..j], width)
    {
      WordsOfFitting(b, v[j], width);
      var p := BitPack(v[j], b, width);
      assert vs[..j + 1][..j] == vs[..j];
      r := r + p;
    }
    assert vs[..|v|] == vs;
  }

  /** `SecretKeyToBytes`. */
  method SecretKeyToBytes(q: Params, sk: SecretKey) returns (out: seq<byte>)
    requires KeyFits(q, sk)
    ensures out == EncodeSecretKey(q, sk)
  {
    hide EncodeVec, VecFits, EtaBits;
    EtaBitsFacts(q);
    out := sk.rho + sk.key + sk.tr;
    out := AppendVec(out, sk.s1, q.eta, EtaBits(q));
    out := AppendVec(out, sk.s2, q.eta, EtaBits(q));
    out := AppendVec(out, sk.t0, 4096, 13);
  }

  /** Reads n polynomials from offset o on. */
  method ReadVec(data: seq<byte>, o: nat, n: nat, b: int, width: nat) returns (v: PolyVec, off: nat)
    requires width <= 32 && o + 32 * width * n <= |data|
    ensures v == DecodeVec(data, o, n, b, width) && off == o + 32 * width * n
  {
    hide Unpack, Offset;
    v, off := [], o;
    for j := 0 to n
      invariant |v| == j && off == o + 32 * width * j
      invariant forall i :: 0 <= i < j ==> v[i] == DecodePoly(data, o + 32 * width * i, b, width)
    {
      NextFits(width, j, n);
      assert 32 * width * (j + 1) == 32 * width * j + 32 * width;
      var p := BitUnpack(data[off..off + 32 * width], b, width);
      v := v + [p];
      off := off + 32 * width;
    }
  }

  /** `SecretKeyFromBytes`. */
  method SecretKeyFromBytes(p: ParameterSet, data: seq<byte>) returns (r: Result<SecretKey, KeyError>)
    ensures r == DecodeSecretKey(p, data)
  {
    hide DecodeVec, Info, EtaBits, SecretKeySize, S2At, T0At;
    var q := Info(p);
    if |data| != SecretKeySize(p) {
      return Err(InvalidSecretKeySize);
    }
    EtaBitsFacts(q);
    KeyLayout(p);
    LayoutSteps(q);
    var s1, m := ReadVec(data, 128, q.l, q.eta, EtaBits(q));
    var s2, n := ReadVec(data, m, q.k, q.eta, EtaBits(q));
    var t0, _ := ReadVec(data, n, q.k, 4096, 13);
    return Ok(SecretKey(data[..32], data[32..64], data[64..128], s1, s2, t0));
  }
}
