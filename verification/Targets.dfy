/**
 Proof-of-work targets. A target is stored as a 32-bit compact number: a size in bytes and the
 leading bits. Rounding a target to its compact form is monotone and leaves compact values alone,
 hence a retarget is a permitted difficulty transition whatever the block times as long as four
 timespans times the target fit 256 bits; and, for timespans of at least eight seconds whose lower
 product fits, only then.
 */
module Targets {
  import opened Arith

  const Uint32: nat := 0x1_0000_0000

  /** 256 to the n. */
  function Bytes(n: nat): (r: nat)
    ensures r >= 1
  {
    if n == 0 then 1 else 256 * Bytes(n - 1)
  }

  /** 2 to the 256. */
  function Capacity(): (r: nat)
    ensures r >= 1
  {
    Bytes(32)
  }

  lemma CapacityIs(k: nat)
    requires k == 32
    ensures Capacity() == Bytes(k)
  {
  }

  /** x shifted up by n bytes. */
  function Up(x: nat, n: nat): nat {
    var b := Bytes(n);
    MulLe(x, b, x, b);
    x * b
  }

  /** x shifted down by n bytes. */
  function Down(x: nat, n: nat): nat {
    var b := Bytes(n);
    QuotientRange(x, b);
    x / b
  }

  /** (bits() + 7) / 8: how many bytes x takes. */
  function ByteLen(x: nat): nat {
    if x == 0 then 0 else 1 + ByteLen(x / 256)
  }

  /** The three leading bytes of x, shifted up if x is shorter. */
  function Mantissa(x: nat): nat {
    var n := ByteLen(x);
    if n <= 3 then Up(x, 3 - n) else Down(x, n - 3)
  }

  /** The size `GetCompact` writes: one more when the sign bit would be set. */
  function SizeOf(x: nat): nat {
    ByteLen(x) + if Mantissa(x) >= 0x80_0000 then 1 else 0
  }

  /** `GetCompact` of a 256-bit number. */
  function GetCompact(x: nat): nat {
    var m := if Mantissa(x) >= 0x80_0000 then Mantissa(x) / 256 else Mantissa(x);
    SizeOf(x) * 0x100_0000 + m
  }

  /** `SetCompact`, on 256-bit numbers, without its flags. */
  function SetCompact(c: nat): (x: nat) {
    var n, w := c / 0x100_0000, c % 0x80_0000;
    if n <= 3 then Down(w, 3 - n) else Up(w, n - 3) % Capacity()
  }

  /** A target after a trip through its compact form. */
  function Round(x: nat): nat {
    SetCompact(GetCompact(x))
  }

  // ---- sizes ------------------------------------------------------------------------------------------

  lemma {:induction false} ByteLenBounds(x: nat)
    requires x > 0
    ensures ByteLen(x) >= 1 && Bytes(ByteLen(x) - 1) <= x < Bytes(ByteLen(x))
  {
    if x >= 256 {
      ByteLenBounds(x / 256);
      var n := ByteLen(x);
      assert n >= 2 && ByteLen(x / 256) == n - 1;
      assert Bytes(n) == 256 * Bytes(n - 1) && Bytes(n - 1) == 256 * Bytes(n - 2);
    } else {
      assert ByteLen(x) == 1 + ByteLen(0);
      assert Bytes(1) == 256 * Bytes(0);
    }
  }

  lemma {:induction false} BytesSum(m: nat, n: nat)
    ensures Bytes(m + n) == Bytes(m) * Bytes(n)
  {
    if m > 0 {
      BytesSum(m - 1, n);
      assert Bytes(m + n) == 256 * Bytes(m - 1 + n);
      assert 256 * (Bytes(m - 1) * Bytes(n)) == 256 * Bytes(m - 1) * Bytes(n);
    }
  }

  lemma {:induction false} BytesMonotone(m: nat, n: nat)
    requires m <= n
    ensures Bytes(m) <= Bytes(n)
  {
    if m < n {
      BytesMonotone(m, n - 1);
    }
  }

  lemma SmallPowers()
    ensures Bytes(0) == 1 && Bytes(1) == 256 && Bytes(2) == 65536 && Bytes(3) == 0x100_0000
  {
    assert Bytes(1) == 256 * Bytes(0) && Bytes(2) == 256 * Bytes(1) && Bytes(3) == 256 * Bytes(2);
  }

  lemma QuotientAtLeast(x: nat, p: nat, b: nat)
    requires p > 0
    ensures x / p >= b <==> x >= b * p
  {
    var q, r := x / p, x % p;
    assert x == p * q + r;
    if q >= b {
      MulLe(b, p, q, p);
    } else {
      MulLe(q + 1, p, b, p);
      assert (q + 1) * p == q * p + p;
    }
  }

  /** The top of the range of numbers whose size is n. */
  function Limit(n: nat): nat
    requires n >= 1
  {
    128 * Bytes(n - 1)
  }

  lemma MantissaSmall(x: nat, n: nat)
    requires x > 0 && n == ByteLen(x) <= 3
    ensures Mantissa(x) == x * Bytes(3 - n) && (Mantissa(x) >= 0x80_0000 <==> x >= Limit(n)) && Mantissa(x) < 0x100_0000
  {
    ByteLenBounds(x);
    SmallPowers();
  }

  lemma MantissaLarge(x: nat, n: nat)
    requires n == ByteLen(x) > 3
    ensures Mantissa(x) == x / Bytes(n - 3) && (Mantissa(x) >= 0x80_0000 <==> x >= Limit(n)) && Mantissa(x) < 0x100_0000
  {
    hide Bytes, Capacity;
    ByteLenBounds(x);
    SmallPowers();
    BytesSum(2, n - 3);
    BytesSum(3, n - 3);
    QuotientAtLeast(x, Bytes(n - 3), 0x80_0000);
    QuotientAtLeast(x, Bytes(n - 3), 0x100_0000);
  }

  lemma MantissaFacts(x: nat)
    requires x > 0
    ensures ByteLen(x) >= 1 && Mantissa(x) < 0x100_0000
    ensures Mantissa(x) >= 0x80_0000 <==> x >= Limit(ByteLen(x))
  {
    hide Mantissa, Limit, Bytes;
    ByteLenBounds(x);
    if ByteLen(x) <= 3 {
      MantissaSmall(x, ByteLen(x));
    } else {
      MantissaLarge(x, ByteLen(x));
    }
  }

  /** The numbers of size n are those from the limit of n - 1 to the limit of n. */
  lemma SizeRange(x: nat)
    requires x > 0
    ensures SizeOf(x) >= 1 && x < Limit(SizeOf(x)) && (SizeOf(x) > 1 ==> x >= Limit(SizeOf(x) - 1))
  {
    hide Mantissa;
    ByteLenBounds(x);
    MantissaFacts(x);
    var n := ByteLen(x);
    assert Bytes(n) == 256 * Bytes(n - 1);
    if n > 1 {
      assert Bytes(n - 1) == 256 * Bytes(n - 2);
    }
  }

  lemma {:induction false} LimitMonotone(m: nat, n: nat)
    requires 1 <= m <= n
    ensures Limit(m) <= Limit(n)
  {
    hide Bytes, Capacity;
    BytesMonotone(m - 1, n - 1);
  }

  lemma SizeMonotone(x: nat, y: nat)
    requires 0 < x <= y
    ensures 1 <= SizeOf(x) <= SizeOf(y)
  {
    hide SizeOf, Limit;
    SizeRange(x);
    SizeRange(y);
    if SizeOf(x) > SizeOf(y) {
      LimitMonotone(SizeOf(y), SizeOf(x) - 1);
    }
  }

  // ---- rounding -----------------------------------------------------------------------------------------

  /** What rounding keeps: whole multiples of the unit of a size. */
  function Unit(n: nat): (u: nat)
    ensures u >= 1
  {
    if n <= 3 then 1 else Bytes(n - 3)
  }

  lemma Unpacked(n: nat, m: nat)
    requires m < 0x80_0000
    ensures (n * 0x100_0000 + m) / 0x100_0000 == n && (n * 0x100_0000 + m) % 0x80_0000 == m
  {
  }

  lemma PackedValue(n: nat, m: nat)
    requires m < 0x80_0000
    ensures SetCompact(n * 0x100_0000 + m) == if n <= 3 then Down(m, 3 - n) else Up(m, n - 3) % Capacity()
  {
    hide Up, Down, Capacity;
    Unpacked(n, m);
  }

  lemma FitsCapacity(x: nat)
    requires x < Capacity()
    ensures x % Capacity() == x
  {
    hide Capacity;
    DivUnique(x, Capacity(), 0, x);
  }

  lemma FloorBound(x: nat, p: nat)
    requires p > 0
    ensures 0 <= x / p * p <= x && x - x / p * p < p
  {
    assert x == p * (x / p) + x % p;
  }

  lemma Short(x: nat, p: nat)
    requires p > 0
    ensures x * p / p == x
  {
    assert x * p == p * x + 0;
    DivUnique(x * p, p, x, 0);
  }

  /** Rounding when the sign bit is clear. */
  lemma RoundPlain(x: nat)
    requires 0 < x < Capacity() && Mantissa(x) < 0x80_0000
    ensures Round(x) == x / Unit(SizeOf(x)) * Unit(SizeOf(x))
  {
    hide Bytes, Capacity, SetCompact, ByteLen, Mantissa;
    var n := ByteLen(x);
    PackedValue(n, Mantissa(x));
    if n <= 3 {
      MantissaSmall(x, n);
      Short(x, Bytes(3 - n));
    } else {
      MantissaLarge(x, n);
      FloorBound(x, Bytes(n - 3));
      FitsCapacity(Up(Mantissa(x), n - 3));
    }
  }

  lemma ThirdByte(x: nat, n: nat)
    requires 1 <= n <= 2
    ensures x * Bytes(3 - n) / 256 == x * Bytes(2 - n)
  {
    SmallPowers();
  }

  /** Rounding when the sign bit would be set: one byte less is kept. */
  lemma RoundShifted(x: nat)
    requires 0 < x < Capacity() && Mantissa(x) >= 0x80_0000
    ensures Round(x) == x / Unit(SizeOf(x)) * Unit(SizeOf(x))
  {
    hide Bytes, Capacity, SetCompact, ByteLen, Mantissa;
    var n := ByteLen(x);
    MantissaFacts(x);
    PackedValue(n + 1, Mantissa(x) / 256);
    SmallPowers();
    if n <= 2 {
      MantissaSmall(x, n);
      ThirdByte(x, n);
      Short(x, Bytes(2 - n));
    } else {
      ShiftedMantissa(x, n);
      FloorBound(x, Bytes(n - 2));
      FitsCapacity(Up(Mantissa(x) / 256, n - 2));
    }
  }

  lemma ShiftedMantissa(x: nat, n: nat)
    requires x > 0 && n == ByteLen(x) >= 3
    ensures Mantissa(x) / 256 == x / Bytes(n - 2)
  {
    hide Bytes, ByteLen, Mantissa;
    SmallPowers();
    if n == 3 {
      MantissaSmall(x, 3);
      assert x * 1 == x;
    } else {
      MantissaLarge(x, n);
      BytesSum(1, n - 3);
      DivTwice(x, Bytes(n - 3), 256);
    }
  }

  lemma DivTwice(x: nat, p: nat, q: nat)
    requires p > 0 && q > 0
    ensures p * q > 0 && x / p / q == x / (q * p)
  {
    var a, r := x / p, x % p;
    var b, t := a / q, a % q;
    assert x == p * a + r && a == q * b + t;
    MulLe(1, 1, p, q);
    assert p * (q * b + t) == q * p * b + p * t;
    MulLe(t + 1, p, q, p);
    assert (t + 1) * p == p * t + p;
    DivUnique(x, q * p, b, p * t + r);
  }

  /** Rounding cuts a target down to a multiple of the unit of its size. */
  lemma RoundIsFloor(x: nat)
    requires x < Capacity()
    ensures Round(x) == x / Unit(SizeOf(x)) * Unit(SizeOf(x)) && Round(x) <= x
  {
    hide Bytes, Capacity, Mantissa, Unit, Round, SizeOf;
    if x == 0 {
      RoundZero();
    } else if Mantissa(x) >= 0x80_0000 {
      RoundShifted(x);
    } else {
      RoundPlain(x);
    }
    FloorBound(x, Unit(SizeOf(x)));
  }

  lemma RoundZero()
    ensures Round(0) == 0 && 0 / Unit(SizeOf(0)) * Unit(SizeOf(0)) == 0
  {
    hide Bytes, Capacity;
    assert ByteLen(0) == 0 && Up(0, 3) == 0;
    assert GetCompact(0) == 0;
    QuotientRange(0, Bytes(3));
  }

  lemma FloorMonotone(x: nat, y: nat, p: nat)
    requires x <= y && p > 0
    ensures x / p * p <= y / p * p
  {
    FloorBound(x, p);
    QuotientAtLeast(y, p, x / p);
    MulLe(x / p, p, y / p, p);
  }

  lemma LimitIsMultiple(n: nat) returns (k: nat)
    requires n >= 3
    ensures Limit(n) == k * Unit(n + 1)
  {
    if n == 3 {
      SmallPowers();
      k := 128 * 256;
    } else {
      k := 128 * 256;
      assert Bytes(n - 1) == 256 * Bytes(n - 2);
    }
  }

  lemma MultipleBelow(k: nat, p: nat, y: nat)
    requires p > 0 && k * p <= y
    ensures k * p <= y / p * p
  {
    QuotientAtLeast(y, p, k);
    MulLe(k, p, y / p, p);
  }

  /** A larger target rounds to a larger or equal one. */
  lemma RoundMonotone(x: nat, y: nat)
    requires x <= y < Capacity()
    ensures Round(x) <= Round(y)
  {
    hide Bytes, Capacity, Mantissa, Unit, Round, SizeOf, Limit;
    RoundIsFloor(x);
    RoundIsFloor(y);
    if x == 0 {
      RoundZero();
    } else {
      SizeMonotone(x, y);
      SizeRange(x);
      SizeRange(y);
      var m, n := SizeOf(x), SizeOf(y);
      if m == n {
        FloorMonotone(x, y, Unit(n));
      } else if n <= 3 {
        UnitOne(n);
      } else {
        LimitMonotone(m, n - 1);
        var k := LimitIsMultiple(n - 1);
        MultipleBelow(k, Unit(n), y);
      }
    }
  }

  lemma UnitOne(n: nat)
    requires n <= 3
    ensures Unit(n) == 1 && forall y: nat :: y / Unit(n) * Unit(n) == y
  {
  }

  /** Rounding loses less than one part in 32768. */
  lemma RoundLoss(x: nat)
    requires x < Capacity()
    ensures Round(x) <= x && 32768 * (x - Round(x)) <= x
  {
    hide Bytes, Capacity, Mantissa, Unit, Round, SizeOf, Limit;
    RoundIsFloor(x);
    if x > 0 {
      SizeRange(x);
      var n := SizeOf(x);
      FloorBound(x, Unit(n));
      if n <= 3 {
        UnitOne(n);
      } else {
        UnitSmall(n);
      }
    }
  }

  /** The compact form of x when n is its size: size and leading bits, shifted up if x is shorter. */
  function Form(x: nat, n: nat): nat {
    n * 0x100_0000 + if n <= 3 then Up(x, 3 - n) else Down(x, n - 3)
  }

  /** The size is the least n with x below 128·256^(n-1), and the bits are the leading ones of x. */
  lemma CompactForm(x: nat)
    requires x > 0
    ensures SizeOf(x) >= 1 && x < Limit(SizeOf(x)) && (SizeOf(x) > 1 ==> x >= Limit(SizeOf(x) - 1))
    ensures GetCompact(x) == Form(x, SizeOf(x))
  {
    hide Bytes, ByteLen, Mantissa, Limit;
    SizeRange(x);
    MantissaFacts(x);
    SmallPowers();
    var n := ByteLen(x);
    if Mantissa(x) < 0x80_0000 {
      if n <= 3 {
        MantissaSmall(x, n);
      } else {
        MantissaLarge(x, n);
      }
    } else if n <= 2 {
      MantissaSmall(x, n);
      ThirdByte(x, n);
    } else {
      ShiftedMantissa(x, n);
      assert n == 3 ==> Bytes(n - 2) == 256;
    }
  }

  lemma SizeUnique(x: nat, n: nat)
    requires x > 0 && n >= 1 && x < Limit(n) && (n > 1 ==> x >= Limit(n - 1))
    ensures SizeOf(x) == n
  {
    hide SizeOf, Limit;
    SizeRange(x);
    var m := SizeOf(x);
    if m < n {
      LimitMonotone(m, n - 1);
    } else if n < m {
      LimitMonotone(n, m - 1);
    }
  }

  /** The compact form of a rounded target is that of the target. */
  lemma CompactCanonical(x: nat)
    requires 0 < x < Capacity()
    ensures 0 < Round(x) && GetCompact(Round(x)) == GetCompact(x)
  {
    hide Bytes, Capacity, Mantissa, Unit, Round, SizeOf, Limit, GetCompact;
    RoundIsFloor(x);
    CompactForm(x);
    var n, y := SizeOf(x), Round(x);
    if n <= 3 {
      UnitOne(n);
    } else {
      var k := LimitIsMultiple(n - 1);
      MultipleBelow(k, Unit(n), x);
      UnitSmall(n);
      SizeUnique(y, n);
      CompactForm(y);
      UnitIs(n);
      Short(x / Unit(n), Unit(n));
    }
  }

  lemma UnitIs(n: nat)
    requires n > 3
    ensures Unit(n) == Bytes(n - 3)
  {
  }

  // ---- compact values --------------------------------------------------------------------------------------

  /** A multiple of 256^k with few enough leading bits rounds to itself. */
  lemma MultipleRoundsToItself(w: nat, k: nat, x: nat)
    requires w < 0x80_0000 && x == w * Bytes(k) < Capacity()
    ensures Round(x) == x
  {
    hide Bytes, Capacity, Mantissa, Unit, Round, SizeOf, Limit;
    RoundIsFloor(x);
    if x == 0 {
      RoundZero();
    } else {
      SizeRange(x);
      var n := SizeOf(x);
      if n <= 3 {
        UnitOne(n);
      } else {
        LimitAbove(w, k);
        if n > k + 3 {
          LimitMonotone(k + 3, n - 1);
        }
        UnitDivides(n, k);
        var d := Bytes(k + 3 - n);
        assert w * (d * Unit(n)) == w * d * Unit(n);
        Short(w * d, Unit(n));
      }
    }
  }

  lemma LimitAbove(w: nat, k: nat)
    requires w < 0x80_0000
    ensures w * Bytes(k) < Limit(k + 3)
  {
    hide Bytes, Capacity;
    SmallPowers();
    BytesSum(2, k);
    MulLe(w, Bytes(k), 0x7f_ffff, Bytes(k));
  }

  lemma UnitDivides(n: nat, k: nat)
    requires 3 < n <= k + 3
    ensures Bytes(k) == Bytes(k + 3 - n) * Unit(n)
  {
    BytesSum(k + 3 - n, n - 3);
  }

  lemma DropHighBytes(w: nat, k: nat)
    requires k <= 32
    ensures w * Bytes(k) % Capacity() == w % Bytes(32 - k) * Bytes(k)
    ensures w % Bytes(32 - k) * Bytes(k) < Capacity()
  {
    hide Bytes, Capacity;
    var p, q := Bytes(k), Bytes(32 - k);
    CapacityIs(32);
    BytesSum(32 - k, k);
    var a, r := w / q, w % q;
    assert w == q * a + r;
    assert (q * a + r) * p == q * p * a + r * p;
    MulLe(r + 1, p, q, p);
    assert (r + 1) * p == r * p + p;
    DivUnique(w * p, q * p, a, r * p);
  }

  lemma {:induction false} HighShift(w: nat, k: nat)
    requires k > 32
    ensures w * Bytes(k) % Capacity() == 0
  {
    hide Bytes, Capacity;
    CapacityIs(32);
    BytesSum(k - 32, 32);
    var e := w * Bytes(k - 32);
    assert w * (Bytes(k - 32) * Bytes(32)) == Bytes(32) * e + 0;
    DivUnique(w * Bytes(k), Bytes(32), e, 0);
  }

  lemma SmallCompact(w: nat, k: nat)
    requires w < 0x80_0000
    ensures Down(w, k) < Capacity() && Round(Down(w, k)) == Down(w, k)
  {
    hide Bytes, Capacity, Round;
    SmallPowers();
    CapacityIs(32);
    BytesMonotone(3, 32);
    QuotientRange(w, Bytes(k));
    var v := Down(w, k);
    assert v * 1 == v;
    MultipleRoundsToItself(v, 0, v);
  }

  lemma KeptBytes(w: nat, k: nat, x: nat)
    requires w < 0x80_0000 && k <= 32 && x == w * Bytes(k) % Capacity()
    ensures Round(x) == x
  {
    hide Bytes, Capacity, Round;
    DropHighBytes(w, k);
    QuotientRange(w, Bytes(32 - k));
    MultipleRoundsToItself(w % Bytes(32 - k), k, x);
  }

  lemma LargeCompact(w: nat, k: nat)
    requires w < 0x80_0000
    ensures Up(w, k) % Capacity() < Capacity() && Round(Up(w, k) % Capacity()) == Up(w, k) % Capacity()
  {
    hide Bytes, Capacity, Round, Up;
    UpIs(w, k);
    if k <= 32 {
      KeptBytes(w, k, Up(w, k) % Capacity());
    } else {
      HighShift(w, k);
      RoundZero();
    }
  }

  lemma UpIs(x: nat, n: nat)
    ensures Up(x, n) == x * Bytes(n)
  {
  }

  /** A value read from compact form rounds to itself. */
  lemma CompactRoundsToItself(c: nat)
    ensures SetCompact(c) < Capacity() && Round(SetCompact(c)) == SetCompact(c)
  {
    hide Up, Down, Capacity, Round;
    var n, w := c / 0x100_0000, c % 0x80_0000;
    if n <= 3 {
      SmallCompact(w, 3 - n);
    } else {
      LargeCompact(w, n - 3);
    }
  }

  // ---- retargeting -------------------------------------------------------------------------------------------

  datatype Params = Params(powLimit: nat, timespan: int, interval: nat, noRetargeting: bool, allowMinDifficulty: bool)

  predicate Wellformed(p: Params) {
    p.timespan > 0 && p.interval > 0 && p.powLimit < Capacity()
  }

  /** `*=` with a 32-bit factor and `/=`, on 256-bit numbers. */
  function Scaled(target: nat, span: int, p: Params): nat
    requires Wellformed(p) && span >= 0
  {
    var factor := span % Uint32;
    MulLe(target, factor, target, factor);
    var product := target * factor;
    QuotientRange(product, Capacity());
    QuotientRange(product % Capacity(), p.timespan);
    product % Capacity() / p.timespan
  }

  function AtMost(x: nat, limit: nat): nat {
    if x > limit then limit else x
  }

  /** The clamped timespan. */
  function Clamped(actual: int, p: Params): (s: int)
    requires Wellformed(p)
    ensures p.timespan / 4 <= s <= p.timespan * 4
  {
    var low, high := p.timespan / 4, p.timespan * 4;
    var a := if actual < low then low else actual;
    if a > high then high else a
  }

  /** `CalculateNextWorkRequired`, from the last block's bits and the two block times. */
  function CalculateNextWorkRequired(bits: nat, lastTime: int, firstTime: int, p: Params): nat
    requires Wellformed(p)
  {
    if p.noRetargeting then bits else
      var span := Clamped(lastTime - firstTime, p);
      GetCompact(AtMost(Scaled(SetCompact(bits), span, p), p.powLimit))
  }

  /** `PermittedDifficultyTransition`. */
  predicate Permitted(p: Params, height: nat, oldBits: nat, newBits: nat)
    requires Wellformed(p)
  {
    p.allowMinDifficulty ||
    if height % p.interval == 0 then
      var observed := SetCompact(newBits);
      && observed <= Round(AtMost(Scaled(SetCompact(oldBits), p.timespan * 4, p), p.powLimit))
      && Round(AtMost(Scaled(SetCompact(oldBits), p.timespan / 4, p), p.powLimit)) <= observed
    else oldBits == newBits
  }

  /** The largest product of a retarget fits 256 bits, and its factor 32. */
  predicate Fits(target: nat, p: Params) {
    target * (4 * p.timespan) < Capacity() && 4 * p.timespan < Uint32
  }

  lemma ScaledExact(target: nat, span: int, p: Params)
    requires Wellformed(p) && 0 <= span < Uint32 && target * span < Capacity()
    ensures 0 <= target * span && Scaled(target, span, p) == target * span / p.timespan
  {
    hide Bytes, Capacity;
    MulLe(target, span, target, span);
    SmallSpan(span);
    FitsCapacity(target * span);
  }

  lemma SmallSpan(span: nat)
    requires span < Uint32
    ensures span % Uint32 == span
  {
  }

  lemma SpanFits(target: nat, span: int, p: Params)
    requires Wellformed(p) && Fits(target, p) && 0 <= span <= p.timespan * 4
    ensures 0 <= target * span < Capacity() && span < Uint32
  {
    hide Bytes, Capacity;
    MulLe(target, span, target, 4 * p.timespan);
  }

  lemma QuotientMonotone(x: nat, y: nat, d: nat)
    requires x <= y && d > 0
    ensures x / d <= y / d
  {
    FloorBound(x, d);
    QuotientAtLeast(y, d, x / d);
  }

  lemma ScaledMonotone(target: nat, a: int, b: int, p: Params)
    requires Wellformed(p) && 0 <= a <= b < Uint32 && target * b < Capacity()
    ensures Scaled(target, a, p) <= Scaled(target, b, p)
  {
    hide Bytes, Capacity, Scaled;
    MulLe(target, a, target, b);
    ScaledExact(target, a, p);
    ScaledExact(target, b, p);
    QuotientMonotone(target * a, target * b, p.timespan);
  }

  /** Not changing the timespan does not change the target. */
  lemma ScaledSame(target: nat, p: Params)
    requires Wellformed(p) && p.timespan < Uint32 && target * p.timespan < Capacity()
    ensures Scaled(target, p.timespan, p) == target
  {
    hide Bytes, Capacity, Scaled;
    ScaledExact(target, p.timespan, p);
    Short(target, p.timespan);
  }

  lemma ScaledAround(target: nat, p: Params)
    requires Wellformed(p) && Fits(target, p)
    ensures Scaled(target, p.timespan / 4, p) <= target <= Scaled(target, p.timespan * 4, p)
  {
    hide Bytes, Capacity, Scaled;
    SpanFits(target, p.timespan, p);
    SpanFits(target, p.timespan * 4, p);
    ScaledSame(target, p);
    ScaledMonotone(target, p.timespan / 4, p.timespan, p);
    ScaledMonotone(target, p.timespan, p.timespan * 4, p);
  }

  /** The smallest, the actual and the largest new target, clamped to the limit, in order. */
  lemma BetweenBounds(target: nat, span: int, p: Params)
    requires Wellformed(p) && Fits(target, p) && p.timespan / 4 <= span <= p.timespan * 4
    ensures var low, mid, high := Scaled(target, p.timespan / 4, p), Scaled(target, span, p), Scaled(target, p.timespan * 4, p);
      Round(AtMost(low, p.powLimit)) <= Round(AtMost(mid, p.powLimit)) <= Round(AtMost(high, p.powLimit))
  {
    hide Bytes, Capacity, Scaled, Round;
    SpanFits(target, span, p);
    SpanFits(target, p.timespan * 4, p);
    ScaledMonotone(target, p.timespan / 4, span, p);
    ScaledMonotone(target, span, p.timespan * 4, p);
    var low, mid, high := Scaled(target, p.timespan / 4, p), Scaled(target, span, p), Scaled(target, p.timespan * 4, p);
    RoundMonotone(AtMost(low, p.powLimit), AtMost(mid, p.powLimit));
    RoundMonotone(AtMost(mid, p.powLimit), AtMost(high, p.powLimit));
  }

  /** When the products fit, the bits a retarget returns are a permitted transition at an adjustment
      height whatever the block times; only a network that neither retargets nor allows minimum
      difficulty refuses a target above its limit, which it repeats. */
  lemma RetargetPermitted(p: Params, height: nat, bits: nat, lastTime: int, firstTime: int)
    requires Wellformed(p) && Fits(SetCompact(bits), p) && height % p.interval == 0
    ensures Permitted(p, height, bits, CalculateNextWorkRequired(bits, lastTime, firstTime, p))
            <==> p.allowMinDifficulty || !p.noRetargeting || SetCompact(bits) <= p.powLimit
  {
    hide Bytes, Capacity, Scaled, Round, SetCompact, GetCompact;
    var target := SetCompact(bits);
    if p.noRetargeting {
      ScaledAround(target, p);
      CompactRoundsToItself(bits);
      var low, high := Scaled(target, p.timespan / 4, p), Scaled(target, p.timespan * 4, p);
      if target <= p.powLimit {
        RoundMonotone(AtMost(low, p.powLimit), target);
        RoundMonotone(target, AtMost(high, p.powLimit));
      } else {
        RoundIsFloor(AtMost(high, p.powLimit));
      }
    } else {
      var span := Clamped(lastTime - firstTime, p);
      BetweenBounds(target, span, p);
      RoundOf(AtMost(Scaled(target, span, p), p.powLimit));
    }
  }

  /** When the products fit, the new target is the old one times the time the blocks took, between a
      quarter of the timespan and four times, over the timespan, at most the limit, less one part in
      32768. */
  lemma RetargetValue(p: Params, bits: nat, lastTime: int, firstTime: int)
    requires Wellformed(p) && Fits(SetCompact(bits), p) && !p.noRetargeting
    ensures var took := lastTime - firstTime;
      var span: nat := if took < p.timespan / 4 then p.timespan / 4 else if took > 4 * p.timespan then 4 * p.timespan else took;
      var full := SetCompact(bits) * span / p.timespan;
      var most := if full > p.powLimit then p.powLimit else full;
      var next := SetCompact(CalculateNextWorkRequired(bits, lastTime, firstTime, p));
      next <= most && 32768 * (most - next) <= most
  {
    hide Bytes, Capacity, Scaled, Round, SetCompact, GetCompact;
    var took := lastTime - firstTime;
    var span: nat := if took < p.timespan / 4 then p.timespan / 4 else if took > 4 * p.timespan then 4 * p.timespan else took;
    assert span == Clamped(took, p);
    SpanFits(SetCompact(bits), span, p);
    ScaledExact(SetCompact(bits), span, p);
    var most := AtMost(Scaled(SetCompact(bits), span, p), p.powLimit);
    RoundLoss(most);
    RoundOf(most);
  }

  lemma RoundOf(x: nat)
    ensures SetCompact(GetCompact(x)) == Round(x)
  {
  }

  /** When the products fit and minimum difficulty is not allowed, a transition is permitted exactly if
      it changes nothing between adjustments, and at one leaves the target between the rounded
      quarter-timespan share of the old one and four times the old one, both at most the limit. */
  lemma PermittedIff(p: Params, height: nat, oldBits: nat, newBits: nat, low: nat, high: nat)
    requires Wellformed(p) && Fits(SetCompact(oldBits), p) && !p.allowMinDifficulty
    requires low == SetCompact(oldBits) * (p.timespan / 4) / p.timespan && high == 4 * SetCompact(oldBits)
    ensures Permitted(p, height, oldBits, newBits) <==>
            && (height % p.interval != 0 ==> oldBits == newBits)
            && (height % p.interval == 0 ==>
                  Round(AtMost(low, p.powLimit)) <= SetCompact(newBits) <= Round(AtMost(high, p.powLimit)))
  {
    hide Bytes, Capacity, Scaled, Round, SetCompact, GetCompact, AtMost;
    var target := SetCompact(oldBits);
    SpanFits(target, p.timespan / 4, p);
    SpanFits(target, p.timespan * 4, p);
    ScaledExact(target, p.timespan / 4, p);
    ScaledExact(target, p.timespan * 4, p);
    FourTimes(target, p.timespan);
  }

  lemma FourTimes(target: nat, span: nat)
    requires span > 0
    ensures target * (span * 4) / span == 4 * target
  {
    assert target * (span * 4) == 4 * target * span;
    Short(4 * target, span);
  }

  // ---- when the products do not fit ---------------------------------------------------------------------

  /** Rounding keeps more than half. */
  lemma RoundAboveHalf(q: nat)
    requires q >= 1 && 2 * q < Capacity()
    ensures Round(2 * q) > q
  {
    hide Bytes, Capacity, Mantissa, Round, SizeOf, Limit;
    var x := 2 * q;
    RoundIsFloor(x);
    SizeRange(x);
    var n := SizeOf(x);
    if n <= 3 {
      UnitOne(n);
    } else {
      UnitSmall(n);
      FloorBound(x, Unit(n));
    }
  }

  lemma UnitSmall(n: nat)
    requires n > 3
    ensures 32768 * Unit(n) == Limit(n - 1)
  {
    if n == 4 {
      SmallPowers();
    } else {
      assert Bytes(n - 2) == 256 * Bytes(n - 3);
    }
  }

  lemma CapacityLarge()
    ensures Capacity() >= Uint32 * Uint32
  {
    hide Bytes, Capacity;
    SmallPowers();
    CapacityIs(32);
    BytesSum(2, 2);
    BytesSum(4, 4);
    BytesMonotone(8, 32);
  }

  /** A target whose largest product overflows is at least the timespan. */
  lemma TargetLarge(target: nat, p: Params)
    requires Wellformed(p) && 4 * p.timespan < Uint32 && target * (4 * p.timespan) >= Capacity()
    ensures target >= p.timespan && target > 0
  {
    hide Bytes, Capacity;
    CapacityLarge();
    if target < Uint32 {
      MulLe(target, 4 * p.timespan, Uint32, 4 * p.timespan);
      MulLe(Uint32, 4 * p.timespan, Uint32, Uint32 - 1);
    }
  }

  /** The least span whose product overflows; what is left after wrapping is below the target. */
  lemma LeastOverflow(target: nat, cap: nat) returns (s: nat)
    requires target > 0
    ensures cap <= target * s && (s > 0 && cap > 0 ==> target * (s - 1) < cap) && target * s - cap < target
  {
    QuotientRange(cap, target);
    var q, r := cap / target, cap % target;
    if r == 0 {
      s := q;
      assert target * (s - 1) == target * s - target;
    } else {
      s := q + 1;
      assert target * s == target * q + target;
    }
  }

  lemma ProductBelow(target: nat, a: int, b: int, cap: nat)
    requires target * a < cap <= target * b && a >= 0
    ensures a < b
  {
    if b <= a && b >= 0 {
      MulLe(target, b, target, a);
    } else if b < 0 {
      assert target * -b == -(target * b);
      MulLe(target, -b, target, -b);
    }
  }

  /** The lower bound of the permitted range is more than twice what the wrapped product gives. */
  lemma WrappedBelow(target: nat, s: nat, p: Params)
    requires Wellformed(p) && p.timespan >= 8 && target <= p.powLimit && target >= p.timespan
    requires 4 * p.timespan < Uint32 && s < Uint32 && target * (p.timespan / 4) < Capacity()
    requires Capacity() <= target * s && target * s - Capacity() < target
    ensures Round(AtMost(Scaled(target, s, p), p.powLimit)) < Round(AtMost(Scaled(target, p.timespan / 4, p), p.powLimit))
  {
    hide Bytes, Capacity, Round, Mantissa, SizeOf;
    var cap, ts := Capacity(), p.timespan;
    QuotientRange(target, ts);
    var q := target / ts;
    QuotientAtLeast(target, ts, 1);
    DivUnique(target * s, cap, 1, target * s - cap);
    SmallSpan(s);
    var next := Scaled(target, s, p);
    assert next == (target * s - cap) / ts;
    QuotientMonotone(target * s - cap, target, ts);
    MulLe(target, 2, target, ts / 4);
    ScaledExact(target, ts / 4, p);
    var low := Scaled(target, ts / 4, p);
    Doubled(target, ts);
    QuotientMonotone(2 * target, target * (ts / 4), ts);
    MulLe(target, ts / 4, target, ts);
    Short(target, ts);
    QuotientMonotone(target * (ts / 4), target * ts, ts);
    assert 2 * q <= low <= target && next <= q;
    RoundAboveHalf(q);
    RoundMonotone(2 * q, low);
    RoundIsFloor(next);
  }

  lemma Doubled(x: nat, d: nat)
    requires d > 0
    ensures 2 * (x / d) <= 2 * x / d
  {
    FloorBound(x, d);
    var q := x / d;
    assert 2 * q * d == 2 * (q * d);
    QuotientAtLeast(2 * x, d, 2 * q);
  }

  lemma SpanRefused(p: Params, height: nat, bits: nat) returns (s: int)
    requires Wellformed(p) && !p.allowMinDifficulty && !p.noRetargeting && height % p.interval == 0
    requires SetCompact(bits) <= p.powLimit && p.timespan >= 8 && 4 * p.timespan < Uint32
    requires SetCompact(bits) * (p.timespan / 4) < Capacity() <= SetCompact(bits) * (4 * p.timespan)
    ensures !Permitted(p, height, bits, CalculateNextWorkRequired(bits, s, 0, p))
  {
    hide Bytes, Capacity, Scaled, Round, SetCompact, GetCompact;
    var target := SetCompact(bits);
    TargetLarge(target, p);
    s := LeastOverflow(target, Capacity());
    ProductBelow(target, p.timespan / 4, s, Capacity());
    if s > 4 * p.timespan {
      MulLe(target, 4 * p.timespan, target, s - 1);
    }
    assert Clamped(s, p) == s;
    WrappedBelow(target, s, p);
    RoundOf(AtMost(Scaled(target, s, p), p.powLimit));
  }

  /** For a timespan of at least eight seconds and a target within the limit whose lower product fits,
      every retarget is permitted whatever the block times exactly when four timespans times the
      target fit 256 bits. */
  lemma AlwaysPermittedIff(p: Params, height: nat, bits: nat)
    requires Wellformed(p) && !p.allowMinDifficulty && !p.noRetargeting && height % p.interval == 0
    requires SetCompact(bits) <= p.powLimit && p.timespan >= 8 && 4 * p.timespan < Uint32
    requires SetCompact(bits) * (p.timespan / 4) < Capacity()
    ensures (forall lastTime, firstTime :: Permitted(p, height, bits, CalculateNextWorkRequired(bits, lastTime, firstTime, p)))
            <==> SetCompact(bits) * (4 * p.timespan) < Capacity()
  {
    hide Bytes, Capacity, SetCompact, Permitted, CalculateNextWorkRequired;
    if SetCompact(bits) * (4 * p.timespan) < Capacity() {
      forall lastTime, firstTime
        ensures Permitted(p, height, bits, CalculateNextWorkRequired(bits, lastTime, firstTime, p))
      {
        RetargetPermitted(p, height, bits, lastTime, firstTime);
      }
    } else {
      var s := SpanRefused(p, height, bits);
      assert !Permitted(p, height, bits, CalculateNextWorkRequired(bits, s, 0, p));
    }
  }

  /** A retarget over exactly the target timespan, which changes nothing, is permitted exactly when the
      wrapped largest product still covers the target. */
  lemma UnchangedPermittedIff(p: Params, height: nat, bits: nat, firstTime: int)
    requires Wellformed(p) && !p.allowMinDifficulty && !p.noRetargeting && height % p.interval == 0
    requires SetCompact(bits) <= p.powLimit && 4 * p.timespan < Uint32 && SetCompact(bits) * p.timespan < Capacity()
    ensures Permitted(p, height, bits, CalculateNextWorkRequired(bits, firstTime + p.timespan, firstTime, p))
            <==> SetCompact(bits) * (4 * p.timespan) % Capacity() >= SetCompact(bits) * p.timespan
  {
    hide Bytes, Capacity, Round, SetCompact, GetCompact;
    var target, ts := SetCompact(bits), p.timespan;
    assert Clamped(ts, p) == ts;
    ScaledSame(target, p);
    RoundOf(target);
    CompactRoundsToItself(bits);
    ScaledMonotone(target, ts / 4, ts, p);
    RoundMonotone(Scaled(target, ts / 4, p), target);
    SmallSpan(ts * 4);
    var high := Scaled(target, ts * 4, p);
    QuotientRange(target * (4 * ts), Capacity());
    QuotientAtLeast(target * (4 * ts) % Capacity(), ts, target);
    assert high >= target <==> target * (4 * ts) % Capacity() >= target * ts;
    if high >= target {
      RoundMonotone(target, AtMost(high, p.powLimit));
    } else {
      RoundIsFloor(high);
    }
  }

  /** Targets of the largest size are fractions of 2^256. */
  lemma LargestSize(w: nat, bits: nat)
    requires w < 0x80_0000 && bits == 0x2000_0000 + w
    ensures SetCompact(bits) * 0x100_0000 == w * Capacity() && SetCompact(bits) < Capacity()
  {
    hide Bytes, Capacity, Up;
    CapacityIs(32);
    SmallPowers();
    BytesSum(3, 29);
    UpIs(w, 29);
    assert w * (0x100_0000 * Bytes(29)) == w * Bytes(29) * 0x100_0000;
    MulLe(w, Bytes(29), 0x7f_ffff, Bytes(29));
    FitsCapacity(Up(w, 29));
  }

  /** With a limit of 2^256 - 1 and a timespan of one second, a target of 2^254 that is not changed at
      all is refused, because four times the target wraps to zero; a target of 3·2^253, four times
      which wraps as well, is permitted. */
  lemma OverflowIsRefused(p: Params, height: nat)
    requires p == Params(Capacity() - 1, 1, 1, false, false)
    ensures !Permitted(p, height, 0x2040_0000, CalculateNextWorkRequired(0x2040_0000, 1, 0, p))
    ensures Permitted(p, height, 0x2060_0000, CalculateNextWorkRequired(0x2060_0000, 1, 0, p))
    ensures SetCompact(0x2060_0000) * 4 >= Capacity()
  {
    hide Bytes, Capacity, SetCompact, Permitted, CalculateNextWorkRequired;
    var cap, quarter, most := Capacity(), SetCompact(0x2040_0000), SetCompact(0x2060_0000);
    LargestSize(0x40_0000, 0x2040_0000);
    LargestSize(0x60_0000, 0x2060_0000);
    assert 4 * quarter == cap && 8 * most == 3 * cap;
    DivUnique(quarter * 4, cap, 1, 0);
    DivUnique(most * 4, cap, 1, most * 4 - cap);
    UnchangedPermittedIff(p, height, 0x2040_0000, 0);
    UnchangedPermittedIff(p, height, 0x2060_0000, 0);
  }
}
