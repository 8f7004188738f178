/**
 Lists of packed polynomials: where each one sits in the byte string, and what a signature
 decodes to.
 */
module Encodings {
  import opened Arith
  import opened Modular
  import opened Rounding
  import opened BitPacking
  import opened HintCodec
  import opened Challenge
  import opened Scheme

  /** 256 values of a given width fill whole bytes. */
  lemma PackLength(vs: seq<nat>, width: nat)
    requires |vs| == 256
    ensures |Pack(vs, width)| == 32 * width
  {
    hide Flatten, ToBytes;
    FlattenLength(vs, width);
    ToBytesLength(Flatten(vs, width));
  }

  ghost predicate Wide(vs: seq<seq<nat>>) {
    forall i :: 0 <= i < |vs| ==> |vs[i]| == 256
  }

  lemma {:induction false} PackAllLength(vs: seq<seq<nat>>, width: nat)
    requires Wide(vs)
    ensures |PackAll(vs, width)| == 32 * width * |vs|
  {
    hide Pack;
    if vs != [] {
      var n := |vs| - 1;
      PackAllLength(vs[..n], width);
      PackLength(vs[n], width);
      assert 32 * width * |vs| == 32 * width * n + 32 * width;
    }
  }

  lemma FrontPart(a: seq<byte>, b: seq<byte>, o: nat, n: nat)
    requires o + n <= |a|
    ensures (a + b)[o..o + n] == a[o..o + n]
  {
    var x, y := (a + b)[o..o + n], a[o..o + n];
    assert forall i :: 0 <= i < n ==> x[i] == y[i];
  }

  lemma BackPart(a: seq<byte>, b: seq<byte>, o: nat, n: nat)
    requires o + n <= |b|
    ensures (a + b)[|a| + o..|a| + o + n] == b[o..o + n]
  {
    var x, y := (a + b)[|a| + o..|a| + o + n], b[o..o + n];
    assert forall i :: 0 <= i < n ==> x[i] == y[i];
  }

  lemma SliceAppend(a: seq<byte>, b: seq<byte>, o: nat, n: nat)
    ensures o + n <= |a| ==> Slice(a + b, o, n) == Slice(a, o, n)
    ensures o == |a| && n == |b| ==> Slice(a + b, o, n) == b
    ensures o == 0 && n == |a| ==> Slice(a + b, o, n) == a
    ensures Slice(a + b, |a| + o, n) == Slice(b, o, n)
  {
    if o + n <= |a| {
      FrontPart(a, b, o, n);
    }
    if o == |a| && n == |b| {
      BackPart(a, b, 0, n);
      assert b[0..n] == b;
    }
    if o == 0 && n == |a| {
      assert a[0..n] == a;
    }
    if o + n <= |b| {
      BackPart(a, b, o, n);
    }
  }

  lemma PackAllSnoc(vs: seq<seq<nat>>, width: nat)
    requires vs != []
    ensures PackAll(vs, width) == PackAll(vs[..|vs| - 1], width) + Pack(vs[|vs| - 1], width)
  {
    hide Pack;
  }

  /** The j-th polynomial's bytes. */
  lemma {:induction false} PackAllSlice(vs: seq<seq<nat>>, width: nat, j: nat)
    requires Wide(vs) && j < |vs|
    ensures Slice(PackAll(vs, width), 32 * width * j, 32 * width) == Pack(vs[j], width)
  {
    hide Pack, PackAll, Slice;
    var n := |vs| - 1;
    var front := vs[..n];
    PackAllSnoc(vs, width);
    PackAllLength(front, width);
    PackLength(vs[n], width);
    if j < n {
      PackAllSlice(front, width, j);
      NextFits(width, j, n);
    }
    SliceAppend(PackAll(front, width), Pack(vs[n], width), 32 * width * j, 32 * width);
  }

  /** The first n parts of a buffer. */
  lemma FrontSlice(buf: seq<byte>, o: nat, w: nat, e: nat)
    requires o + w <= e <= |buf|
    ensures Slice(buf[..e], o, w) == Slice(buf, o, w)
  {
    assert buf[..e][o..o + w] == buf[o..o + w];
  }

  lemma LastSlice(buf: seq<byte>, e: nat, w: nat)
    requires e + w == |buf|
    ensures buf == buf[..e] + Slice(buf, e, w)
  {
  }

  /** A buffer whose parts are the encodings is the encoding of the list. */
  lemma {:induction false} PackAllOfSlices(vs: seq<seq<nat>>, width: nat, buf: seq<byte>)
    requires Wide(vs) && |buf| == 32 * width * |vs|
    requires forall j :: 0 <= j < |vs| ==> Pack(vs[j], width) == Slice(buf, 32 * width * j, 32 * width)
    ensures PackAll(vs, width) == buf
  {
    hide Pack, Slice;
    if vs != [] {
      var n := |vs| - 1;
      NextIs(width, n);
      var e := 32 * width * n;
      var front := buf[..e];
      forall j | 0 <= j < n
        ensures Pack(vs[..n][j], width) == Slice(front, 32 * width * j, 32 * width)
      {
        NextFits(width, j, n);
        FrontSlice(buf, 32 * width * j, 32 * width, e);
      }
      PackAllOfSlices(vs[..n], width, front);
      LastSlice(buf, e, 32 * width);
    }
  }

  lemma NextIs(width: nat, n: nat)
    ensures 0 <= 32 * width * n && 32 * width * (n + 1) == 32 * width * n + 32 * width
  {
    MulLe(32 * width, n, 32 * width, n);
  }

  // ---- the parts of a signature ---------------------------------------------------------------

  lemma CenteredSmall(v: int, bound: int)
    requires Abs(Centered(Red(v))) < bound && -4190208 <= v <= 4190208
    ensures -bound < v < bound
  {
    CongSmall(Centered(Red(v)), v);
  }

  /** Coefficients a signer keeps are stored as they are, without wrapping. */
  lemma StoredWords(q: Params, z: Poly256)
    requires PolyNormBelow(z, q.gamma1) && forall c :: 0 <= c < 256 ==> -4190208 <= z[c] <= 4190208
    ensures OffsetWords(q.gamma1, z) == Offset(q.gamma1, z) && FitsOffset(q.gamma1, z, ZBits(q))
  {
    hide Red, BitLen;
    ZBitsFacts(q);
    forall c | 0 <= c < 256
      ensures 0 <= q.gamma1 - z[c] < Exp2(ZBits(q)) && (q.gamma1 - z[c]) % 0x1_0000_0000 == q.gamma1 - z[c]
    {
      CenteredSmall(z[c], q.gamma1);
    }
  }

  ghost predicate CenteredVec(z: PolyVec) {
    forall j, c :: 0 <= j < |z| && 0 <= c < 256 ==> -4190208 <= z[j][c] <= 4190208
  }

  lemma ResponseCentered(y: PolyVec, c: Poly256, s1: PolyVec)
    requires |y| == |s1|
    ensures CenteredVec(ResponseVec(y, c, s1))
  {
    hide Red, ChallengeTimes;
  }

  lemma NormWeaker(z: PolyVec, small: int, large: int)
    requires NormBelow(z, small) && small <= large
    ensures NormBelow(z, large)
  {
    hide Red;
    forall i | 0 <= i < |z|
      ensures PolyNormBelow(z[i], large)
    {
      assert PolyNormBelow(z[i], small);
    }
  }

  lemma SignatureParts(q: Params, t: Trial, sig: seq<byte>)
    requires |t.ctilde| == q.ctBytes && |t.z| == q.l && |t.h| == q.k
    requires Weight(t.h) <= q.omega && sig == EncodeSignature(q, t)
    ensures |sig| == ZOffset(q, q.l) + q.omega + q.k
    ensures Slice(sig, 0, q.ctBytes) == t.ctilde
    ensures Slice(sig, ZOffset(q, q.l), q.omega + q.k) == HintBytes(t.h, q.omega)
    ensures forall j :: 0 <= j < q.l ==>
      Slice(sig, ZOffset(q, j), 32 * ZBits(q)) == Pack(OffsetWords(q.gamma1, t.z[j]), ZBits(q))
  {
    hide Pack, PackAll, OffsetWords, ZBits, HintByte, Weight, Slice;
    var vs := OffsetVec(q.gamma1, t.z);
    var zs, hs := PackAll(vs, ZBits(q)), HintBytes(t.h, q.omega);
    PackAllLength(vs, ZBits(q));
    assert sig == t.ctilde + (zs + hs);
    SliceAppend(t.ctilde, zs + hs, 0, q.ctBytes);
    SliceAppend(t.ctilde + zs, hs, ZOffset(q, q.l), q.omega + q.k);
    forall j | 0 <= j < q.l
      ensures Slice(sig, ZOffset(q, j), 32 * ZBits(q)) == Pack(OffsetWords(q.gamma1, t.z[j]), ZBits(q))
    {
      ZPart(t.ctilde, vs, hs, ZBits(q), j);
    }
  }

  lemma ZPart(head: seq<byte>, vs: seq<seq<nat>>, tail: seq<byte>, width: nat, j: nat)
    requires Wide(vs) && j < |vs|
    ensures Slice(head + (PackAll(vs, width) + tail), |head| + 32 * width * j, 32 * width) == Pack(vs[j], width)
  {
    hide Pack, PackAll, Slice;
    var zs := PackAll(vs, width);
    PackAllLength(vs, width);
    SliceAppend(head, zs + tail, 32 * width * j, 32 * width);
    NextFits(width, j, |vs|);
    SliceAppend(zs, tail, 32 * width * j, 32 * width);
    PackAllSlice(vs, width, j);
  }

  lemma NextFits(width: nat, j: nat, n: nat)
    requires j < n
    ensures 32 * width * j + 32 * width <= 32 * width * n
  {
    MulLe(32 * width, j + 1, 32 * width, n);
    assert 32 * width * (j + 1) == 32 * width * j + 32 * width;
  }

  /** z is read back as it was written. */
  lemma ZReadBack(q: Params, t: Trial, sig: seq<byte>)
    requires |t.ctilde| == q.ctBytes && |t.z| == q.l && |t.h| == q.k
    requires Weight(t.h) <= q.omega && sig == EncodeSignature(q, t)
    requires NormBelow(t.z, q.gamma1) && CenteredVec(t.z)
    ensures DecodeZVec(q, sig) == t.z
  {
    hide Pack, PackAll, Unpack, OffsetWords, Offset, ZBits, HintByte, Weight, PolyNormBelow, EncodeSignature, Exp2, Slice, ZOffset;
    SignatureParts(q, t, sig);
    forall j | 0 <= j < q.l
      ensures DecodeZ(q, sig, j) == t.z[j]
    {
      StoredWords(q, t.z[j]);
      OffsetRoundTrip(t.z[j], q.gamma1, ZBits(q));
    }
  }

  /** So are the hints. */
  lemma HintsReadBack(h: Hints, omega: nat)
    requires Weight(h) <= omega < 256 && ZeroOne(h)
    ensures Accepts(HintBytes(h, omega), omega, |h|) && DecodeHints(HintBytes(h, omega), omega, |h|) == h
  {
    hide Weight, HintByte, IsEncoding, Accepts, ZeroOne, IsDecoding;
    var out := HintBytes(h, omega);
    EncodingIsHintBytes(h, omega, out);
    UnpackOfPack(h, omega, out);
    assert IsDecoding(out, omega, |h|, DecodeHints(out, omega, |h|));
  }

  lemma HintsZeroOne(r: PolyVec, t: PolyVec, g: Gamma2)
    requires |r| == |t|
    ensures ZeroOne(HintVec(r, t, g))
  {
    hide HighBits, Red;
  }

  /** The parts add up to the size each parameter set declares. */
  lemma SizesAgree(p: ParameterSet)
    ensures var q := Info(p); ZOffset(q, q.l) + q.omega + q.k == SignatureSize(p)
    ensures 32 + 32 * 10 * Info(p).k == PublicKeySize(p)
    ensures var q := Info(p); 128 + 32 * EtaBits(q) * (q.l + q.k) + 32 * 13 * q.k == SecretKeySize(p)
  {
    hide BitLen;
    ZBitsFacts(Info(p));
    EtaBitsFacts(Info(p));
  }
}
