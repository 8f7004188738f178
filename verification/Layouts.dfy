/**
 The encodings as numbers and positions, without bits. Packing writes a list of values as one
 little-endian number: the first value in the lowest place, each place one field wide. The parts
 of keys sit one after the other in the order and at the offsets written out here.
 */
module Layouts {
  import opened Modular
  import opened BitPacking
  import opened Scheme
  import opened Encodings
  import opened KeyCodec

  // ---- packed lists as numbers -------------------------------------------------------------------------

  /** The number with the given digits, lowest first. */
  function Number(digits: seq<int>, base: int): int {
    if digits == [] then 0 else digits[0] + base * Number(digits[1..], base)
  }

  lemma DoubleStep(b: int, v: int, p: int, w: int)
    ensures b + 2 * (v + p * w) == b + 2 * v + 2 * p * w
  {
    assert 2 * (p * w) == 2 * p * w;
  }

  lemma {:induction false} ValueConcat(xs: seq<Bit>, ys: seq<Bit>)
    ensures Value(xs + ys) == Value(xs) + Exp2(|xs|) * Value(ys)
  {
    if xs == [] {
      assert xs + ys == ys;
    } else {
      ValueConcat(xs[1..], ys);
      assert (xs + ys)[1..] == xs[1..] + ys;
      DoubleStep(if xs[0] then 1 else 0, Value(xs[1..]), Exp2(|xs| - 1), Value(ys));
    }
  }

  lemma {:induction false} FlattenNumber(vs: seq<nat>, width: nat)
    requires InRange(vs, width)
    ensures Value(Flatten(vs, width)) == Number(vs, Exp2(width))
  {
    hide Exp2, Bits, Value;
    if vs == [] {
      assert Value([]) == 0 by { NoBits(); }
    } else {
      FlattenNumber(vs[1..], width);
      ValueOfBits(vs[0], width);
      ValueConcat(Bits(vs[0], width), Flatten(vs[1..], width));
    }
  }

  lemma NoBits()
    ensures Value([]) == 0
  {
  }

  lemma PrefixValue(bs: seq<Bit>)
    ensures Value(bs) == Value(Prefix(bs, 8)) + 256 * Value(Suffix(bs, 8))
  {
    hide Value;
    Exp2Eight();
    if |bs| >= 8 {
      assert bs == bs[..8] + bs[8..];
      ValueConcat(bs[..8], bs[8..]);
    } else {
      ValuePadded(bs, 8 - |bs|);
      NoBits();
    }
  }

  lemma {:induction false} BytesNumber(bs: seq<Bit>)
    ensures Number(ToBytes(bs), 256) == Value(bs)
    decreases |bs|
  {
    hide Value, Prefix, Suffix;
    if bs == [] {
      NoBits();
    } else {
      assert |Suffix(bs, 8)| < |bs| by { SuffixShorter(bs); }
      BytesNumber(Suffix(bs, 8));
      PrefixValue(bs);
      var out := ToBytes(bs);
      assert out[0] == Value(Prefix(bs, 8)) && out[1..] == ToBytes(Suffix(bs, 8));
    }
  }

  lemma SuffixShorter(bs: seq<Bit>)
    requires bs != []
    ensures |Suffix(bs, 8)| < |bs|
  {
  }

  /** Packing writes the number whose digits are the values. */
  lemma PackNumber(vs: seq<nat>, width: nat)
    requires InRange(vs, width)
    ensures Number(Pack(vs, width), 256) == Number(vs, Exp2(width))
  {
    hide Number, Exp2, Flatten, ToBytes, InRange;
    FlattenNumber(vs, width);
    BytesNumber(Flatten(vs, width));
  }

  /** Unpacking reads its digits. */
  lemma UnpackNumber(buf: seq<byte>, width: nat, count: nat)
    requires |buf| * 8 == count * width
    ensures Number(Unpack(buf, width, count), Exp2(width)) == Number(buf, 256)
  {
    hide Number, Exp2, Pack, Unpack, InRange;
    PackUnpack(buf, width, count);
    PackNumber(Unpack(buf, width, count), width);
  }

  // ---- keys -----------------------------------------------------------------------------------------------

  /** The 32·width bytes at o are the number with the given 256 digits. */
  ghost predicate FieldAt(data: seq<byte>, o: nat, width: nat, digits: seq<int>) {
    |digits| == 256 && o + 32 * width <= |data| && Number(data[o..o + 32 * width], 256) == Number(digits, Exp2(width))
  }

  /** Every field of an encoded vector. */
  ghost predicate VecAt(data: seq<byte>, o: nat, width: nat, b: int, v: PolyVec) {
    forall j :: 0 <= j < |v| ==> FieldAt(data, o + 32 * width * j, width, seq(256, c requires 0 <= c < 256 => b - v[j][c]))
  }

  lemma FieldOfSlice(data: seq<byte>, o: nat, width: nat, vs: seq<nat>)
    requires |vs| == 256 && InRange(vs, width) && Slice(data, o, 32 * width) == Pack(vs, width) && o + 32 * width <= |data|
    ensures FieldAt(data, o, width, vs)
  {
    hide Number, Exp2, Pack, InRange;
    PackNumber(vs, width);
  }

  lemma OffsetDigits(b: int, p: Poly256, width: nat)
    requires FitsOffset(b, p, width) && width <= 32
    ensures OffsetWords(b, p) == seq(256, c requires 0 <= c < 256 => b - p[c]) && InRange(OffsetWords(b, p), width)
  {
    hide Exp2;
    WordsOfFitting(b, p, width);
  }

  lemma VecPlaced(pre: seq<byte>, post: seq<byte>, b: int, v: PolyVec, width: nat)
    requires VecFits(b, v, width) && width <= 32
    ensures VecAt(pre + (EncodeVec(b, v, width) + post), |pre|, width, b, v)
  {
    hide PackAll, Pack, OffsetWords, Exp2, FitsOffset, Slice, Number, FieldAt, InRange;
    var e := EncodeVec(b, v, width);
    var data := pre + (e + post);
    EncodedVecLength(b, v, width);
    forall j | 0 <= j < |v|
      ensures FieldAt(data, |pre| + 32 * width * j, width, seq(256, c requires 0 <= c < 256 => b - v[j][c]))
    {
      var o, w := 32 * width * j, 32 * width;
      SliceAppend(pre, e + post, o, w);
      NextFits(width, j, |v|);
      SliceAppend(e, post, o, w);
      PackAllSlice(OffsetVec(b, v), width, j);
      OffsetDigits(b, v[j], width);
      FieldOfSlice(data, |pre| + o, width, OffsetWords(b, v[j]));
    }
  }

  /** A public key is rho followed by a field of ten-bit digits for each polynomial of t1. */
  lemma PublicKeyLayout(p: ParameterSet, pk: PublicKey, data: seq<byte>)
    requires |pk.rho| == 32 && |pk.t1| == Info(p).k && data == EncodePublicKey(pk)
    ensures |data| == PublicKeySize(p) && data[..32] == pk.rho
    ensures forall i :: 0 <= i < |pk.t1| ==> FieldAt(data, 32 + 320 * i, 10, pk.t1[i])
  {
    hide PackAll, Pack, Slice, Exp2, InRange, BitLen, Number, FieldAt;
    SizesAgree(p);
    T1Wide(pk.t1);
    PackAllLength(pk.t1, 10);
    forall i | 0 <= i < |pk.t1|
      ensures FieldAt(data, 32 + 320 * i, 10, pk.t1[i])
    {
      SliceAppend(pk.rho, PackAll(pk.t1, 10), 320 * i, 320);
      PackAllSlice(pk.t1, 10, i);
      T1InRange(pk.t1[i]);
      FieldOfSlice(data, 32 + 320 * i, 10, pk.t1[i]);
    }
  }

  /** A secret key is rho, K and tr followed by fields for s1, s2 and t0, which hold eta or 2^12 minus
      the coefficients. */
  lemma SecretKeyLayout(p: ParameterSet, sk: SecretKey, data: seq<byte>, w: nat)
    requires FullKey(Info(p), sk) && KeyFits(Info(p), sk) && data == EncodeSecretKey(Info(p), sk)
    requires w == if Info(p).eta == 2 then 3 else 4
    ensures var q := Info(p);
      && |data| == SecretKeySize(p) && data[0..32] == sk.rho && data[32..64] == sk.key && data[64..128] == sk.tr
      && VecAt(data, 128, w, q.eta, sk.s1)
      && VecAt(data, 128 + 32 * w * q.l, w, q.eta, sk.s2)
      && VecAt(data, 128 + 32 * w * q.l + 32 * w * q.k, 13, 4096, sk.t0)
  {
    hide EncodeVec, VecFits, EtaBits, Info, SecretKeySize, VecAt;
    var q := Info(p);
    EtaBitsFacts(q);
    EncodedKeyLength(p, sk);
    var head := sk.rho + sk.key + sk.tr;
    var e1, e2, e3 := EncodeVec(q.eta, sk.s1, w), EncodeVec(q.eta, sk.s2, w), EncodeVec(4096, sk.t0, 13);
    EncodedVecLength(q.eta, sk.s1, w);
    EncodedVecLength(q.eta, sk.s2, w);
    assert data == head + (e1 + (e2 + e3)) && data == head + e1 + (e2 + e3) && data == head + e1 + e2 + (e3 + []);
    VecPlaced(head, e2 + e3, q.eta, sk.s1, w);
    VecPlaced(head + e1, e3, q.eta, sk.s2, w);
    VecPlaced(head + e1 + e2, [], 4096, sk.t0, 13);
  }
}
