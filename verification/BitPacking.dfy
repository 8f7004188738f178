/**
 Bit packing (section 7.1 of FIPS 204). The writer and the reader keep a 64-bit accumulator;
 what they mean is told in bits: a list of fixed-width values is the concatenation of their
 little-endian bits, and a byte string is such a list of width 8.
 */
module BitPacking {
  import opened Arith
  import opened Modular

  type byte = b: nat | b < 256

  type Bit = bool

  /** The low n bits of v, lowest first. */
  function Bits(v: nat, n: nat): (bs: seq<Bit>)
    ensures |bs| == n
    decreases n
  {
    if n == 0 then [] else [v % 2 == 1] + Bits(v / 2, n - 1)
  }

  function Value(bs: seq<Bit>): nat {
    if bs == [] then 0 else (if bs[0] then 1 else 0) + 2 * Value(bs[1..])
  }

  /** The bits of a list of n-bit values. */
  function Flatten(vs: seq<nat>, n: nat): seq<Bit> {
    if vs == [] then [] else Bits(vs[0], n) + Flatten(vs[1..], n)
  }

  predicate InRange(vs: seq<nat>, n: nat) {
    forall i :: 0 <= i < |vs| ==> vs[i] < Exp2(n)
  }

  function Zeros(n: nat): (bs: seq<Bit>)
    ensures |bs| == n && forall i :: 0 <= i < n ==> !bs[i]
  {
    seq(n, i => false)
  }

  /** The first n bits, with zeros for those that are missing. */
  function Prefix(bs: seq<Bit>, n: nat): (p: seq<Bit>)
    ensures |p| == n
  {
    if n <= |bs| then bs[..n] else bs + Zeros(n - |bs|)
  }

  function Suffix(bs: seq<Bit>, n: nat): seq<Bit> {
    if n <= |bs| then bs[n..] else []
  }

  /** Bits regrouped into bytes, the last one padded with zeros. */
  function ToBytes(bs: seq<Bit>): (out: seq<byte>)
    decreases |bs|
  {
    if bs == [] then [] else
      ValueBound(Prefix(bs, 8));
      assert Exp2(8) == 256;
      [Value(Prefix(bs, 8))] + ToBytes(Suffix(bs, 8))
  }

  /** Bits regrouped into count values of the given width; missing bits read as zero. */
  function FromBits(bs: seq<Bit>, width: nat, count: nat): (vs: seq<nat>)
    ensures |vs| == count
    decreases count
  {
    if count == 0 then [] else [Value(Prefix(bs, width))] + FromBits(Suffix(bs, width), width, count - 1)
  }

  function Pack(vs: seq<nat>, width: nat): seq<byte> {
    ToBytes(Flatten(vs, width))
  }

  function Unpack(buf: seq<byte>, width: nat, count: nat): (vs: seq<nat>)
    ensures |vs| == count
  {
    FromBits(Flatten(buf, 8), width, count)
  }

  // ---- bits and values ------------------------------------------------------------------

  lemma {:induction false} ValueBound(bs: seq<Bit>)
    ensures Value(bs) < Exp2(|bs|)
  {
    if bs != [] {
      ValueBound(bs[1..]);
    }
  }

  lemma {:induction false} ValueOfBits(v: nat, n: nat)
    requires v < Exp2(n)
    ensures Value(Bits(v, n)) == v
    decreases n
  {
    if n > 0 {
      ValueOfBits(v / 2, n - 1);
      assert Bits(v, n)[1..] == Bits(v / 2, n - 1);
    }
  }

  lemma {:induction false} BitsOfValue(bs: seq<Bit>)
    ensures Bits(Value(bs), |bs|) == bs
  {
    if bs != [] {
      BitsOfValue(bs[1..]);
      assert Value(bs) / 2 == Value(bs[1..]);
    }
  }

  lemma {:induction false} BitsOfZero(n: nat)
    ensures Bits(0, n) == Zeros(n)
  {
    if n > 0 {
      BitsOfZero(n - 1);
    }
  }

  /** Placing v above the n bits of u concatenates the bits. */
  lemma {:induction false} BitsConcat(u: nat, m: nat, v: nat, n: nat)
    requires u < Exp2(m)
    ensures Bits(u + v * Exp2(m), m + n) == Bits(u, m) + Bits(v, n)
    decreases m
  {
    if m == 0 {
      assert Exp2(0) == 1 && v * 1 == v;
    } else {
      BitsConcat(u / 2, m - 1, v, n);
      ShiftHalves(u, v, Exp2(m - 1));
      assert Exp2(m) == 2 * Exp2(m - 1);
      var w := u + v * Exp2(m);
      assert Bits(w, m + n) == [w % 2 == 1] + Bits(w / 2, m - 1 + n);
    }
  }

  lemma ShiftHalves(u: nat, v: nat, p: nat)
    ensures (u + v * (2 * p)) / 2 == u / 2 + v * p && (u + v * (2 * p)) % 2 == u % 2
  {
    var q := v * p;
    assert v * (2 * p) == 2 * q;
  }

  lemma ByteSplit(v: nat, n: nat)
    requires n >= 8
    ensures Bits(v, n) == Bits(v % 256, 8) + Bits(v / 256, n - 8)
  {
    assert Exp2(8) == 256;
    BitsConcat(v % 256, 8, v / 256, n - 8);
  }

  // ---- lists of values --------------------------------------------------------------------

  lemma {:induction false} FlattenAppend(xs: seq<nat>, ys: seq<nat>, n: nat)
    ensures Flatten(xs + ys, n) == Flatten(xs, n) + Flatten(ys, n)
  {
    hide Flatten;
    if xs == [] {
      assert xs + ys == ys;
      EmptyFlatten(n);
    } else {
      FlattenAppend(xs[1..], ys, n);
      FlattenCons(xs, n);
      FlattenCons(xs + ys, n);
      assert (xs + ys)[1..] == xs[1..] + ys && (xs + ys)[0] == xs[0];
    }
  }

  lemma FlattenCons(vs: seq<nat>, n: nat)
    requires vs != []
    ensures Flatten(vs, n) == Bits(vs[0], n) + Flatten(vs[1..], n)
  {
    hide Bits;
  }

  lemma FlattenOne(v: nat, n: nat)
    ensures Flatten([v], n) == Bits(v, n)
  {
    assert Flatten([v][1..], n) == [];
  }

  lemma {:induction false} FlattenLength(vs: seq<nat>, n: nat)
    ensures |Flatten(vs, n)| == |vs| * n
  {
    if vs != [] {
      FlattenLength(vs[1..], n);
      assert |vs| * n == n + |vs[1..]| * n;
    }
  }

  /** Reading back what was concatenated. */
  lemma {:induction false} FromFlatten(vs: seq<nat>, width: nat, tail: seq<Bit>)
    requires InRange(vs, width)
    ensures FromBits(Flatten(vs, width) + tail, width, |vs|) == vs
  {
    hide Flatten, Bits, Value, Exp2, FromBits;
    if vs == [] {
      NoValues(Flatten(vs, width) + tail, width);
    } else {
      var first, rest := Bits(vs[0], width), Flatten(vs[1..], width) + tail;
      FlattenCons(vs, width);
      assert Flatten(vs, width) + tail == first + rest;
      FromBitsStep(first, rest, width, |vs| - 1);
      ValueOfBits(vs[0], width);
      FromFlatten(vs[1..], width, tail);
    }
  }

  lemma NoValues(bs: seq<Bit>, width: nat)
    ensures FromBits(bs, width, 0) == []
  {
  }

  lemma FromBitsStep(first: seq<Bit>, rest: seq<Bit>, width: nat, count: nat)
    requires |first| == width
    ensures FromBits(first + rest, width, count + 1) == [Value(first)] + FromBits(rest, width, count)
  {
    hide Value;
    assert Prefix(first + rest, width) == first && Suffix(first + rest, width) == rest;
  }

  /** Regrouping exactly all bits loses nothing. */
  lemma {:induction false} FlattenFrom(bs: seq<Bit>, width: nat, count: nat)
    requires |bs| == count * width
    ensures Flatten(FromBits(bs, width, count), width) == bs
    ensures InRange(FromBits(bs, width, count), width)
    decreases count
  {
    if count > 0 {
      assert count * width == width + (count - 1) * width;
      BitsOfValue(bs[..width]);
      ValueBound(bs[..width]);
      FlattenFrom(bs[width..], width, count - 1);
      assert bs == bs[..width] + bs[width..];
    }
  }

  /** Bytes carry all the bits, followed by fewer than eight zeros. */
  lemma {:induction false} FlattenToBytes(bs: seq<Bit>)
    ensures exists pad: nat :: pad < 8 && Flatten(ToBytes(bs), 8) == bs + Zeros(pad)
    decreases |bs|
  {
    if bs == [] {
      assert Flatten(ToBytes(bs), 8) == bs + Zeros(0);
    } else {
      var p, s := Prefix(bs, 8), Suffix(bs, 8);
      FlattenToBytes(s);
      var pad: nat :| pad < 8 && Flatten(ToBytes(s), 8) == s + Zeros(pad);
      BitsOfValue(p);
      assert ToBytes(bs)[1..] == ToBytes(s);
      if 8 <= |bs| {
        assert p + (s + Zeros(pad)) == bs + Zeros(pad);
      } else {
        assert ToBytes(s) == [] && Flatten([], 8) == [];
        assert p + [] == bs + Zeros(8 - |bs|);
      }
    }
  }

  lemma {:induction false} ToBytesFlatten(buf: seq<byte>)
    ensures ToBytes(Flatten(buf, 8)) == buf
  {
    if buf != [] {
      var bs := Flatten(buf, 8);
      assert bs[..8] == Bits(buf[0], 8) && bs[8..] == Flatten(buf[1..], 8);
      assert Exp2(8) == 256;
      ValueOfBits(buf[0], 8);
      ToBytesFlatten(buf[1..]);
    }
  }

  // ---- round trips ------------------------------------------------------------------------

  /** What was packed is what is unpacked, whatever the width. */
  lemma UnpackPack(vs: seq<nat>, width: nat)
    requires InRange(vs, width)
    ensures Unpack(Pack(vs, width), width, |vs|) == vs
  {
    hide Flatten, ToBytes, FromBits;
    var bs := Flatten(vs, width);
    FlattenToBytes(bs);
    var pad: nat :| pad < 8 && Flatten(ToBytes(bs), 8) == bs + Zeros(pad);
    FromFlatten(vs, width, Zeros(pad));
  }

  /** A buffer of exactly count·width bits is reproduced by unpacking and packing again. */
  lemma PackUnpack(buf: seq<byte>, width: nat, count: nat)
    requires |buf| * 8 == count * width
    ensures Pack(Unpack(buf, width, count), width) == buf && InRange(Unpack(buf, width, count), width)
  {
    hide Flatten, ToBytes, FromBits, InRange;
    FlattenLength(buf, 8);
    FlattenFrom(Flatten(buf, 8), width, count);
    ToBytesFlatten(buf);
  }

  lemma {:induction false} ToBytesLength(bs: seq<Bit>)
    ensures |ToBytes(bs)| == (|bs| + 7) / 8
    decreases |bs|
  {
    if bs != [] {
      ToBytesLength(Suffix(bs, 8));
    }
  }

  // ---- the writer -------------------------------------------------------------------------

  lemma ToBytesStep(bs: seq<Bit>, head: byte, rest: seq<Bit>)
    requires bs == Bits(head, 8) + rest
    ensures ToBytes(bs) == [head] + ToBytes(rest)
  {
    hide Bits, Value;
    Exp2Eight();
    ValueOfBits(head, 8);
    assert Prefix(bs, 8) == Bits(head, 8) && Suffix(bs, 8) == rest;
  }

  lemma {:induction false} ToBytesAppend(out: seq<byte>, tail: seq<Bit>)
    ensures ToBytes(Flatten(out, 8) + tail) == out + ToBytes(tail)
  {
    hide Bits, ToBytes;
    if out == [] {
      assert Flatten(out, 8) + tail == tail;
    } else {
      var bs := Flatten(out, 8) + tail;
      assert bs == Bits(out[0], 8) + (Flatten(out[1..], 8) + tail);
      ToBytesStep(bs, out[0], Flatten(out[1..], 8) + tail);
      ToBytesAppend(out[1..], tail);
      assert out == [out[0]] + out[1..];
    }
  }

  lemma {:induction false} ValuePadded(bs: seq<Bit>, n: nat)
    ensures Value(bs + Zeros(n)) == Value(bs)
  {
    if bs == [] {
      assert bs + Zeros(n) == Zeros(n);
      ValueOfZeros(n);
    } else {
      ValuePadded(bs[1..], n);
      assert (bs + Zeros(n))[1..] == bs[1..] + Zeros(n);
    }
  }

  lemma {:induction false} ValueOfZeros(n: nat)
    ensures Value(Zeros(n)) == 0
  {
    if n > 0 {
      assert Zeros(n)[1..] == Zeros(n - 1);
      ValueOfZeros(n - 1);
    }
  }

  lemma LastByte(cur: nat, n: nat)
    requires 0 < n < 8 && cur < Exp2(n)
    ensures cur < 256 && ToBytes(Bits(cur, n)) == [cur]
  {
    hide Bits, Value;
    var bs := Bits(cur, n);
    ValueOfBits(cur, n);
    ValuePadded(bs, 8 - n);
    ValueBound(Prefix(bs, 8));
    assert Exp2(8) == 256;
    assert Suffix(bs, 8) == [] && ToBytes([]) == [];
  }

  /** `bitWriter`: bytes written so far and up to seven bits not yet written. */
  class BitWriter {
    var out: seq<byte>
    var cur: nat
    var nbits: nat

    ghost predicate Valid()
      reads this
    {
      nbits < 8 && cur < Exp2(nbits)
    }

    /** Everything written so far. */
    ghost function Stream(): seq<Bit>
      reads this
    {
      Flatten(out, 8) + Bits(cur, nbits)
    }

    constructor ()
      ensures Valid() && Stream() == []
    {
      out, cur, nbits := [], 0, 0;
    }

    /** The operands of the bitwise or have no bit in common, so it is a sum; the accumulator
        stays below 2^40. */
    method Write(val: nat, bits: nat)
      requires Valid() && bits <= 32 && val < Exp2(bits)
      modifies this
      ensures Valid() && Stream() == old(Stream()) + Bits(val, bits)
    {
      hide Bits, Flatten, Exp2;
      ShiftBound(cur, nbits, val, bits);
      BitsConcat(cur, nbits, val, bits);
      ghost var before := Flatten(out, 8);
      ghost var written := old(Stream()) + Bits(val, bits);
      cur := cur + val * Exp2(nbits);
      nbits := nbits + bits;
      assert Stream() == written;
      while nbits >= 8
        invariant nbits <= 39 && cur < Exp2(nbits) <= Exp2(39)
        invariant Stream() == written
      {
        assert cur < 0x1_0000_0000_0000_0000 by { Exp39(); }
        ByteSplit(cur, nbits);
        FlattenAppend(out, [cur % 256], 8);
        FlattenOne(cur % 256, 8);
        ByteBound(cur, nbits);
        out := out + [cur % 256];
        cur := cur / 256;
        nbits := nbits - 8;
      }
    }

    /** `bytes`: flushes a last incomplete byte. */
    method Bytes() returns (b: seq<byte>)
      requires Valid()
      modifies this
      ensures b == ToBytes(old(Stream()))
    {
      hide Bits, Flatten, ToBytes, Exp2;
      ToBytesAppend(out, Bits(cur, nbits));
      if nbits > 0 {
        LastByte(cur, nbits);
        out := out + [cur];
      } else {
        EmptyBytes(cur, nbits);
      }
      b := out;
    }

    /** What the C++ twin returns: no flush. */
    method Unflushed() returns (b: seq<byte>)
      requires Valid()
      ensures b == WholeBytes(Stream())
    {
      hide Bits, Flatten, Exp2, ToBytes;
      FlattenLength(out, 8);
      assert Stream()[..|Flatten(out, 8)|] == Flatten(out, 8);
      ToBytesFlatten(out);
      b := out;
    }
  }

  /** The bytes that are complete. */
  function WholeBytes(bs: seq<Bit>): seq<byte> {
    ToBytes(bs[..|bs| / 8 * 8])
  }

  /** Leaving out the flush makes no difference exactly when the bits fill whole bytes. */
  lemma FlushMatters(bs: seq<Bit>)
    ensures WholeBytes(bs) == ToBytes(bs) <==> |bs| % 8 == 0
  {
    hide ToBytes;
    var n, k := |bs|, |bs| / 8 * 8;
    WholeCount(n, k);
    ToBytesLength(bs);
    ToBytesLength(bs[..k]);
    if n % 8 == 0 {
      assert bs[..k] == bs;
    }
  }

  lemma WholeCount(n: nat, k: nat)
    requires k == n / 8 * 8
    ensures k <= n && (k + 7) / 8 == n / 8
    ensures n % 8 == 0 <==> k == n
    ensures n % 8 == 0 <==> (n + 7) / 8 == n / 8
  {
  }

  lemma EmptyBytes(cur: nat, n: nat)
    requires n == 0
    ensures ToBytes(Bits(cur, n)) == []
  {
  }

  lemma Exp39()
    ensures Exp2(39) < 0x1_0000_0000_0000_0000
  {
    assert Exp2(13) == 8192;
    Exp2Sum(13, 13);
    Exp2Sum(13, 26);
  }

  lemma ShiftBound(cur: nat, n: nat, val: nat, bits: nat)
    requires n < 8 && bits <= 32 && cur < Exp2(n) && val < Exp2(bits)
    ensures cur + val * Exp2(n) < Exp2(n + bits) <= Exp2(39)
    ensures 0 <= val * Exp2(n)
  {
    hide Exp2;
    Exp2Sum(bits, n);
    Exp2Monotone(n + bits, 39);
    MulLe(val, Exp2(n), Exp2(bits) - 1, Exp2(n));
    assert (Exp2(bits) - 1) * Exp2(n) == Exp2(bits) * Exp2(n) - Exp2(n);
  }

  lemma ByteBound(cur: nat, n: nat)
    requires 8 <= n <= 39 && cur < Exp2(n)
    ensures cur / 256 < Exp2(n - 8) && Exp2(n - 8) <= Exp2(39)
  {
    hide Exp2;
    Exp2Sum(n - 8, 8);
    assert Exp2(8) == 256 by { Exp2Eight(); }
    Exp2Monotone(n - 8, 39);
  }

  lemma Exp2Eight()
    ensures Exp2(8) == 256
  {
  }

  // ---- the reader -------------------------------------------------------------------------

  ghost predicate AllZero(bs: seq<Bit>) {
    forall i :: 0 <= i < |bs| ==> !bs[i]
  }

  /** `bitReader`: buffered bits and the bytes not yet read. */
  class BitReader {
    const input: seq<byte>
    var pos: nat
    var cur: nat
    var nbits: nat

    ghost predicate Valid()
      reads this
    {
      nbits < 8 && cur < Exp2(nbits) && pos <= |input|
    }

    /** Everything still to be read, not counting the zeros past the end. */
    ghost function Rest(): seq<Bit>
      reads this
      requires pos <= |input|
    {
      Bits(cur, nbits) + Flatten(input[pos..], 8)
    }

    constructor (buf: seq<byte>)
      ensures Valid() && Rest() == Flatten(buf, 8)
    {
      input, pos, cur, nbits := buf, 0, 0, 0;
    }

    /** Buffers bytes until the accumulator holds enough bits, supplying zeros past the end. */
    method Fill(bits: nat) returns (ghost pad: nat)
      requires Valid() && bits <= 32
      modifies this
      ensures pos <= |input| && bits <= nbits <= 39 && cur < Exp2(nbits)
      ensures nbits < 8 || nbits < bits + 8
      ensures Rest() == old(Rest()) + Zeros(pad)
      ensures pad > 0 ==> |old(Rest())| < bits
    {
      hide Bits, Flatten, Exp2;
      ghost var before := Rest();
      pad := 0;
      assert before + Zeros(0) == before;
      while nbits < bits
        invariant pos <= |input| && nbits <= 39 && cur < Exp2(nbits)
        invariant nbits < 8 || nbits < bits + 8
        invariant Rest() == before + Zeros(pad)
        invariant pad > 0 ==> pos == |input| && |before| < bits
        decreases bits + 8 - nbits
      {
        pad := FillOne(before, pad);
        if pos == |input| {
          FlattenNone(input, pos);
        }
      }
    }

    /** One byte into the accumulator, which stays below 2^40. */
    method FillOne(ghost before: seq<Bit>, ghost pad: nat) returns (ghost pad': nat)
      requires pos <= |input| && nbits < 32 && cur < Exp2(nbits)
      requires Rest() == before + Zeros(pad) && (pad > 0 ==> pos == |input|)
      modifies this
      ensures pos <= |input| && nbits == old(nbits) + 8 && cur < Exp2(nbits)
      ensures Rest() == before + Zeros(pad')
      ensures old(pos) < |input| ==> pad' == pad
      ensures old(pos) == |input| ==> pos == |input| && |before| + pad == old(nbits)
      ensures pad' > pad ==> old(pos) == |input|
    {
      hide Bits, Flatten, Exp2;
      var b: byte := 0;
      pad' := pad;
      ghost var rest := Rest();
      assert cur + b < 0x1_0000_0000_0000_0000 by { Exp39(); Exp2Monotone(nbits, 39); }
      if pos < |input| {
        b := input[pos];
        FlattenHead(input, pos);
        pos := pos + 1;
      } else {
        BitsOfZero(8);
        FlattenNone(input, pos);
        ZerosGrow(pad, 8);
        pad' := pad + 8;
      }
      Exp2Eight();
      RefillBound(cur, nbits, b);
      BitsConcat(cur, nbits, b, 8);
      cur := cur + b * Exp2(nbits);
      nbits := nbits + 8;
      if old(pos) < |input| {
        assert Rest() == rest;
      } else {
        assert Rest() == rest + Zeros(8) == before + (Zeros(pad) + Zeros(8));
      }
    }

    /** Takes the next bits; past the end of the input it reads zeros. */
    method Read(bits: nat) returns (v: nat)
      requires Valid() && bits <= 32
      modifies this
      ensures Valid() && v < Exp2(bits)
      ensures Bits(v, bits) == Prefix(old(Rest()), bits)
      ensures bits <= |old(Rest())| ==> Rest() == old(Rest())[bits..]
      ensures |old(Rest())| < bits ==> AllZero(Rest())
    {
      hide Bits, Flatten, Exp2;
      ghost var before := Rest();
      ghost var pad := Fill(bits);
      DivisionBound(cur, nbits, bits);
      BitsConcat(cur % Exp2(bits), bits, cur / Exp2(bits), nbits - bits);
      ghost var all := Rest();
      v := cur % Exp2(bits);
      cur := cur / Exp2(bits);
      nbits := nbits - bits;
      assert all[..bits] == Bits(v, bits) && all[bits..] == Rest();
      PaddedPrefix(before, pad, bits);
    }
  }

  lemma FlattenHead(input: seq<byte>, pos: nat)
    requires pos < |input|
    ensures Flatten(input[pos..], 8) == Bits(input[pos], 8) + Flatten(input[pos + 1..], 8)
  {
    hide Bits;
    assert input[pos..][1..] == input[pos + 1..];
  }

  lemma FlattenNone(input: seq<byte>, pos: nat)
    requires pos == |input|
    ensures Flatten(input[pos..], 8) == []
  {
  }

  lemma ZerosGrow(m: nat, n: nat)
    ensures Zeros(m) + Zeros(n) == Zeros(m + n)
  {
  }

  lemma RefillBound(cur: nat, n: nat, b: byte)
    requires cur < Exp2(n) && n < 32
    ensures 0 <= b * Exp2(n) && cur + b * Exp2(n) < Exp2(n + 8) <= Exp2(39)
  {
    hide Exp2;
    Exp2Sum(8, n);
    Exp2Eight();
    Exp2Monotone(n + 8, 39);
    MulLe(b, Exp2(n), 255, Exp2(n));
  }

  lemma DivisionBound(cur: nat, n: nat, bits: nat)
    requires bits <= n && cur < Exp2(n)
    ensures cur % Exp2(bits) < Exp2(bits) && cur / Exp2(bits) < Exp2(n - bits)
    ensures cur == cur % Exp2(bits) + cur / Exp2(bits) * Exp2(bits)
    ensures 0 <= cur / Exp2(bits)
  {
    hide Exp2;
    Exp2Sum(n - bits, bits);
    var p, q, u := Exp2(bits), Exp2(n - bits), cur / Exp2(bits);
    assert cur == p * u + cur % p;
    if u >= q {
      MulLe(q, p, u, p);
    }
  }

  lemma PaddedPrefix(bs: seq<Bit>, pad: nat, n: nat)
    requires n <= |bs| + pad && (pad > 0 ==> |bs| < n)
    ensures (bs + Zeros(pad))[..n] == Prefix(bs, n)
    ensures n <= |bs| ==> (bs + Zeros(pad))[n..] == bs[n..]
    ensures |bs| < n ==> AllZero((bs + Zeros(pad))[n..])
  {
    if n <= |bs| {
      assert pad == 0;
    }
  }

  // ---- packing and unpacking polynomials ----------------------------------------------------

  /** The values `bitPack` writes for coefficients in [-a, b]. */
  function Offset(b: int, p: seq<int>): (vs: seq<int>)
    ensures |vs| == |p|
  {
    seq(|p|, i requires 0 <= i < |p| => b - p[i])
  }

  predicate FitsOffset(b: int, p: seq<int>, width: nat) {
    forall i :: 0 <= i < |p| ==> 0 <= b - p[i] < Exp2(width)
  }

  predicate Fits(p: seq<int>, width: nat) {
    forall i :: 0 <= i < |p| ==> 0 <= p[i] < Exp2(width)
  }

  lemma {:induction false} FlattenSnoc(vs: seq<nat>, v: nat, n: nat)
    ensures Flatten(vs + [v], n) == Flatten(vs, n) + Bits(v, n)
  {
    FlattenAppend(vs, [v], n);
    FlattenOne(v, n);
  }

  /** `simpleBitPack`. */
  method SimpleBitPack(p: seq<int>, width: nat) returns (b: seq<byte>)
    requires width <= 32 && Fits(p, width)
    ensures b == Pack(p, width)
  {
    hide Bits, Flatten, Exp2, ToBytes;
    var w := new BitWriter();
    assert Flatten(p[..0], width) == [] by { EmptyFlatten(width); }
    for i := 0 to |p|
      invariant w.Valid() && w.Stream() == Flatten(p[..i], width)
    {
      FlattenSnoc(p[..i], p[i], width);
      assert p[..i + 1] == p[..i] + [p[i]];
      w.Write(p[i], width);
    }
    assert p[..|p|] == p;
    b := w.Bytes();
  }

  lemma EmptyFlatten(n: nat)
    ensures Flatten([], n) == []
  {
  }

  /** `bitPack`: stores b - coefficient. */
  method BitPack(p: seq<int>, b: int, width: nat) returns (r: seq<byte>)
    requires width <= 32 && FitsOffset(b, p, width)
    ensures r == Pack(Offset(b, p), width)
  {
    hide Bits, Flatten, Exp2, ToBytes;
    var w := new BitWriter();
    ghost var vs: seq<nat> := Offset(b, p);
    assert Flatten(vs[..0], width) == [] by { EmptyFlatten(width); }
    for i := 0 to |p|
      invariant w.Valid() && w.Stream() == Flatten(vs[..i], width)
    {
      FlattenSnoc(vs[..i], vs[i], width);
      assert vs[..i + 1] == vs[..i] + [vs[i]];
      w.Write(b - p[i], width);
    }
    assert vs[..|p|] == vs;
    r := w.Bytes();
  }

  /** The C++ `simpleBitPack`, which returns the writer's bytes without flushing. */
  method SimpleBitPackCpp(p: seq<int>, width: nat) returns (b: seq<byte>)
    requires width <= 32 && Fits(p, width)
    ensures b == WholeBytes(Flatten(p, width))
    ensures |p| == 256 ==> b == Pack(p, width)
  {
    hide Bits, Flatten, Exp2, ToBytes, WholeBytes;
    var w := new BitWriter();
    assert Flatten(p[..0], width) == [] by { EmptyFlatten(width); }
    for i := 0 to |p|
      invariant w.Valid() && w.Stream() == Flatten(p[..i], width)
    {
      FlattenSnoc(p[..i], p[i], width);
      assert p[..i + 1] == p[..i] + [p[i]];
      w.Write(p[i], width);
    }
    assert p[..|p|] == p;
    b := w.Unflushed();
    FlattenLength(p, width);
    FlushMatters(Flatten(p, width));
  }

  lemma RestNext(bs: seq<Bit>, width: nat, count: nat)
    ensures Rest(bs, width, 0) == bs && Rest(bs, width, count + 1) == Rest(Suffix(bs, width), width, count)
  {
    hide Suffix;
  }

  lemma FromBitsNext(bs: seq<Bit>, width: nat, count: nat)
    ensures FromBits(bs, width, 0) == []
    ensures FromBits(bs, width, count + 1) == [Value(Prefix(bs, width))] + FromBits(Suffix(bs, width), width, count)
  {
    hide Suffix, Prefix, Value;
  }

  lemma {:induction false} FromBitsSnoc(bs: seq<Bit>, width: nat, count: nat, v: nat)
    requires Bits(v, width) == Prefix(Rest(bs, width, count), width) && v < Exp2(width)
    ensures FromBits(bs, width, count + 1) == FromBits(bs, width, count) + [v]
    ensures Rest(bs, width, count + 1) == Suffix(Rest(bs, width, count), width)
    decreases count
  {
    hide Bits, Value, FromBits, Rest, Suffix, Prefix, Exp2;
    RestNext(bs, width, count);
    FromBitsNext(bs, width, count);
    if count == 0 {
      ValueOfBits(v, width);
      FromBitsNext(Suffix(bs, width), width, 0);
      RestNext(Suffix(bs, width), width, 0);
    } else {
      RestNext(bs, width, count - 1);
      FromBitsNext(bs, width, count - 1);
      FromBitsSnoc(Suffix(bs, width), width, count - 1, v);
    }
  }

  /** What is left after count reads of the given width. */
  function Rest(bs: seq<Bit>, width: nat, count: nat): seq<Bit>
    decreases count
  {
    if count == 0 then bs else Rest(Suffix(bs, width), width, count - 1)
  }

  /** Two streams that differ only in zeros past the end of the shorter one. */
  ghost predicate SameUpToZeros(xs: seq<Bit>, ys: seq<Bit>) {
    xs == ys || (AllZero(xs) && AllZero(ys))
  }

  lemma SamePrefix(xs: seq<Bit>, ys: seq<Bit>, n: nat)
    requires SameUpToZeros(xs, ys)
    ensures Prefix(xs, n) == Prefix(ys, n)
  {
  }

  /** One read of width bits from a stream that agrees with the specified one. */
  lemma ReadAgrees(xs: seq<Bit>, ys: seq<Bit>, after: seq<Bit>, width: nat)
    requires SameUpToZeros(xs, ys)
    requires width <= |xs| ==> after == xs[width..]
    requires |xs| < width ==> AllZero(after)
    ensures SameUpToZeros(after, Suffix(ys, width))
  {
  }

  /** `simpleBitUnpack`. */
  method SimpleBitUnpack(buf: seq<byte>, width: nat) returns (p: seq<nat>)
    requires width <= 32
    ensures p == Unpack(buf, width, 256)
  {
    hide Bits, Flatten, Exp2, FromBits, Rest, SameUpToZeros;
    var r := new BitReader(buf);
    ghost var bs := Flatten(buf, 8);
    p := [];
    StartOfStream(bs, width);
    for i := 0 to 256
      invariant r.Valid() && |p| == i && p == FromBits(bs, width, i)
      invariant SameUpToZeros(r.Rest(), Rest(bs, width, i))
    {
      ghost var xs := r.Rest();
      var v := r.Read(width);
      SamePrefix(xs, Rest(bs, width, i), width);
      ReadAgrees(xs, Rest(bs, width, i), r.Rest(), width);
      FromBitsSnoc(bs, width, i, v);
      p := p + [v];
    }
  }

  lemma StartOfStream(bs: seq<Bit>, width: nat)
    ensures FromBits(bs, width, 0) == [] && Rest(bs, width, 0) == bs && SameUpToZeros(bs, bs)
  {
  }

  /** `bitUnpack`: b minus each stored value. */
  method BitUnpack(buf: seq<byte>, b: int, width: nat) returns (p: seq<int>)
    requires width <= 32
    ensures p == Offset(b, Unpack(buf, width, 256))
  {
    hide Bits, Flatten, Exp2, FromBits, Rest, SameUpToZeros;
    var r := new BitReader(buf);
    ghost var bs := Flatten(buf, 8);
    p := [];
    ghost var vs: seq<nat> := [];
    StartOfStream(bs, width);
    for i := 0 to 256
      invariant r.Valid() && |p| == |vs| == i && vs == FromBits(bs, width, i)
      invariant forall j :: 0 <= j < i ==> p[j] == b - vs[j]
      invariant SameUpToZeros(r.Rest(), Rest(bs, width, i))
    {
      ghost var xs := r.Rest();
      var v := r.Read(width);
      SamePrefix(xs, Rest(bs, width, i), width);
      ReadAgrees(xs, Rest(bs, width, i), r.Rest(), width);
      FromBitsSnoc(bs, width, i, v);
      p := p + [b - v];
      vs := vs + [v];
    }
  }

  /** Offset packing round-trips. */
  lemma OffsetRoundTrip(p: seq<int>, b: int, width: nat)
    requires FitsOffset(b, p, width)
    ensures Offset(b, Unpack(Pack(Offset(b, p), width), width, |p|)) == p
  {
    hide Flatten, ToBytes, FromBits, Exp2;
    UnpackPack(Offset(b, p), width);
  }
}
