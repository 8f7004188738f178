/**
 `sampleInBall`: the challenge polynomial. It always has exactly tau coefficients of +1 or -1
 and zeros elsewhere, so its negacyclic product with a polynomial bounded by eta is bounded
 by tau·eta.
 */
module Challenge {
  import opened Arith
  import opened Modular
  import opened Outcomes
  import opened NttTree
  import opened Convolution
  import opened Transform
  import opened BitPacking
  import opened Sampling

  /** Bytes that may serve as the position for index i. */
  function BallCandidates(s: Stream, i: nat): Candidates {
    (q: nat) => if s(q) <= i then Some(s(q)) else None
  }

  /** The first eight bytes of the stream, whose bits are the signs. */
  function SignBytes(s: Stream): (b: seq<byte>)
    ensures |b| == 8
  {
    seq<byte>(8, i requires 0 <= i => s(i))
  }

  function SignBits(s: Stream): (bs: seq<Bit>)
    ensures |bs| == 64
  {
    FlattenLength(SignBytes(s), 8);
    Flatten(SignBytes(s), 8)
  }

  function Zero(): (p: Poly256)
    ensures forall i :: 0 <= i < 256 ==> p[i] == 0
  {
    seq(256, i => 0)
  }

  /** The stream offers a position for each of the tau steps. */
  ghost predicate BallOk(s: Stream, tau: nat) {
    tau <= 64 && BallReady(s, tau, tau)
  }

  /** The stream offers a position for each of the first n steps. */
  ghost predicate BallReady(s: Stream, tau: nat, n: nat)
    requires n <= tau <= 64
    decreases n, 0
  {
    n == 0 || (BallReady(s, tau, n - 1) && AcceptsAfter(BallCandidates(s, 256 - tau + (n - 1)), Ball(s, tau, n - 1).1))
  }

  lemma {:induction false} ReadyBefore(s: Stream, tau: nat, m: nat, n: nat)
    requires m <= n <= tau <= 64 && BallReady(s, tau, n)
    ensures BallReady(s, tau, m)
  {
    hide AcceptsAfter, Ball;
    if m < n {
      ReadyBefore(s, tau, m, n - 1);
    }
  }

  /** One step: the entry at j moves to i and j gets the next sign. */
  function Place(c: Poly, i: nat, j: nat, negative: bool): (r: Poly)
    requires |c| == 256 && j <= i < 256
    ensures |r| == 256
  {
    c[i := c[j]][j := if negative then -1 else 1]
  }

  /** The polynomial and the stream position after n of the tau steps. */
  ghost function Ball(s: Stream, tau: nat, n: nat): (r: (Poly, nat))
    requires n <= tau <= 64 && BallReady(s, tau, n)
    ensures |r.0| == 256
    decreases n, 1
  {
    if n == 0 then (Zero(), 8) else
      var (c, pos) := Ball(s, tau, n - 1);
      var i := 256 - tau + (n - 1);
      var q := Next(BallCandidates(s, i), pos);
      (Place(c, i, s(q), SignBits(s)[n - 1]), q + 1)
  }

  /** The challenge polynomial; zero for a stream without a position for each step. */
  ghost function ChallengePoly(x: Xof, ctilde: seq<byte>, tau: nat): Poly256 {
    if BallOk(x.shake256(ctilde), tau) then Ball(x.shake256(ctilde), tau, tau).0 else Zero()
  }

  // ---- weight ---------------------------------------------------------------------------

  function Abs(v: int): nat {
    if v < 0 then -v else v
  }

  function AbsSum(c: Poly, n: nat): nat
    requires n <= |c|
  {
    if n == 0 then 0 else AbsSum(c, n - 1) + Abs(c[n - 1])
  }

  lemma {:induction false} AbsSumUpdate(c: Poly, i: nat, v: int, n: nat)
    requires i < |c| && n <= |c|
    ensures AbsSum(c[i := v], n) == if i < n then AbsSum(c, n) - Abs(c[i]) + Abs(v) else AbsSum(c, n)
  {
    if n > 0 {
      AbsSumUpdate(c, i, v, n - 1);
    }
  }

  lemma {:induction false} AbsSumZero(n: nat)
    requires n <= 256
    ensures AbsSum(Zero(), n) == 0
  {
    if n > 0 {
      AbsSumZero(n - 1);
    }
  }

  ghost predicate Ternary(c: Poly) {
    forall i :: 0 <= i < |c| ==> -1 <= c[i] <= 1
  }

  /** Coefficients in {-1, 0, 1}, at most tau of them non-zero. */
  ghost predicate Sparse(c: Poly256, tau: nat) {
    Ternary(c) && AbsSum(c, |c|) <= tau
  }

  lemma PlaceWeight(c: Poly, i: nat, j: nat, negative: bool)
    requires |c| == 256 && j <= i < 256 && c[i] == 0
    ensures AbsSum(Place(c, i, j, negative), 256) == AbsSum(c, 256) + 1
  {
    var d := c[i := c[j]];
    AbsSumUpdate(c, i, c[j], 256);
    AbsSumUpdate(d, j, if negative then -1 else 1, 256);
  }

  lemma PlaceTernary(c: Poly, i: nat, j: nat, negative: bool)
    requires |c| == 256 && j <= i < 256 && Ternary(c)
    ensures Ternary(Place(c, i, j, negative))
    ensures forall x :: i < x < 256 ==> Place(c, i, j, negative)[x] == c[x]
  {
  }

  /** After n steps there are n ones and nothing beyond index 256 - tau + n. */
  lemma {:induction false} BallShape(s: Stream, tau: nat, n: nat)
    requires n <= tau <= 64 && BallReady(s, tau, n)
    ensures var c := Ball(s, tau, n).0;
      Ternary(c) && AbsSum(c, 256) == n && forall i :: 256 - tau + n <= i < 256 ==> c[i] == 0
  {
    hide AbsSum, AcceptsAfter, SignBits, Ternary, Place, Ball, Next;
    if n == 0 {
      AbsSumZero(256);
      ZeroTernary();
      BallStart(s, tau, Zero());
    } else {
      BallShape(s, tau, n - 1);
      var c := Ball(s, tau, n - 1).0;
      var i := 256 - tau + (n - 1);
      var q := Next(BallCandidates(s, i), Ball(s, tau, n - 1).1);
      BallStep(s, tau, n - 1, q);
      PlaceWeight(c, i, s(q), SignBits(s)[n - 1]);
      PlaceTernary(c, i, s(q), SignBits(s)[n - 1]);
    }
  }

  lemma ZeroTernary()
    ensures Ternary(Zero())
  {
  }

  /** Exactly tau coefficients are +1 or -1, the rest are zero. */
  lemma ChallengeWeight(x: Xof, ctilde: seq<byte>, tau: nat)
    requires BallOk(x.shake256(ctilde), tau)
    ensures Ternary(ChallengePoly(x, ctilde, tau)) && AbsSum(ChallengePoly(x, ctilde, tau), 256) == tau
  {
    hide AbsSum, BallReady, Ball;
    BallShape(x.shake256(ctilde), tau, tau);
  }

  /** Never more than tau, whatever the stream. */
  lemma ChallengeBounded(x: Xof, ctilde: seq<byte>, tau: nat)
    ensures Sparse(ChallengePoly(x, ctilde, tau), tau)
  {
    hide AbsSum, BallReady, Ball;
    if BallOk(x.shake256(ctilde), tau) {
      ChallengeWeight(x, ctilde, tau);
    } else {
      AbsSumZero(256);
    }
  }

  // ---- the loop -------------------------------------------------------------------------

  lemma BallStep(s: Stream, tau: nat, n: nat, q: nat)
    requires n < tau <= 64 && BallReady(s, tau, n + 1)
    requires q == Next(BallCandidates(s, 256 - tau + n), Ball(s, tau, n).1)
    ensures s(q) <= 256 - tau + n
    ensures Ball(s, tau, n + 1) == (Place(Ball(s, tau, n).0, 256 - tau + n, s(q), SignBits(s)[n]), q + 1)
  {
    hide SignBits, AcceptsAfter;
  }

  lemma LowSign(signs: nat, bs: seq<Bit>)
    requires bs != [] && Bits(signs, |bs|) == bs
    ensures (signs % 2 == 1) == bs[0] && Bits(signs / 2, |bs| - 1) == bs[1..]
  {
    assert Bits(signs, |bs|) == [signs % 2 == 1] + Bits(signs / 2, |bs| - 1);
  }

  /** The eight sign bytes as one little-endian 64-bit word. */
  method ReadSigns(s: Stream) returns (signs: nat)
    ensures signs < Exp2(64) && Bits(signs, 64) == SignBits(s)
  {
    hide Bits, Flatten, Exp2;
    signs := 0;
    ghost var b := SignBytes(s);
    assert Bits(0, 0) == [] && Flatten(b[..0], 8) == [] by { EmptyFlatten(8); EmptyBits(); }
    assert signs < Exp2(8 * 0);
    for i := 0 to 8
      invariant signs < Exp2(8 * i) && Bits(signs, 8 * i) == Flatten(b[..i], 8)
    {
      SignRange(signs, i, s(i));
      BitsConcat(signs, 8 * i, s(i), 8);
      FlattenSnoc(b[..i], b[i], 8);
      assert b[..i + 1] == b[..i] + [b[i]];
      signs := signs + s(i) * Exp2(8 * i);
    }
    assert b[..8] == b;
  }

  lemma EmptyBits()
    ensures Bits(0, 0) == []
  {
  }

  lemma SignRange(signs: nat, i: nat, b: byte)
    requires signs < Exp2(8 * i)
    ensures 0 <= b * Exp2(8 * i) && signs + b * Exp2(8 * i) < Exp2(8 * (i + 1))
  {
    hide Exp2;
    Exp2Sum(8, 8 * i);
    Exp2Eight();
    MulLe(b, Exp2(8 * i), 255, Exp2(8 * i));
  }

  /** Reads bytes until one is at most i. */
  method NextPosition(s: Stream, pos: nat, i: nat) returns (q: nat)
    requires AcceptsAfter(BallCandidates(s, i), pos)
    ensures q == Next(BallCandidates(s, i), pos)
  {
    hide AcceptsAfter;
    ghost var target := Next(BallCandidates(s, i), pos);
    q := pos;
    while s(q) > i
      invariant pos <= q <= target
      invariant forall r: nat :: pos <= r < q ==> BallCandidates(s, i)(r).None?
      decreases target - q
    {
      assert BallCandidates(s, i)(q).None?;
      q := q + 1;
    }
    assert BallCandidates(s, i)(q).Some?;
  }

  /** `sampleInBall`. */
  method SampleInBall(x: Xof, ctilde: seq<byte>, tau: nat) returns (c: Poly256)
    requires BallOk(x.shake256(ctilde), tau)
    ensures c == ChallengePoly(x, ctilde, tau)
  {
    hide BallReady, AcceptsAfter, Ball, Bits, Flatten, Exp2, Next, SignBits;
    var s := x.shake256(ctilde);
    var signs := ReadSigns(s);
    var a := new int[256](i => 0);
    var pos := 8;
    ReadyBefore(s, tau, 0, tau);
    BallStart(s, tau, a[..]);
    for n := 0 to tau
      invariant BallReady(s, tau, n)
      invariant a[..] == Ball(s, tau, n).0 && pos == Ball(s, tau, n).1
      invariant Bits(signs, 64 - n) == SignBits(s)[n..]
    {
      var i := 256 - tau + n;
      ReadyBefore(s, tau, n + 1, tau);
      ReadyNow(s, tau, n);
      var q := NextPosition(s, pos, i);
      BallStep(s, tau, n, q);
      LowSign(signs, SignBits(s)[n..]);
      var j := s(q);
      ghost var before := a[..];
      a[i] := a[j];
      a[j] := if signs % 2 == 1 then -1 else 1;
      assert a[..] == Place(before, i, j, SignBits(s)[n]);
      signs := signs / 2;
      pos := q + 1;
      assert SignBits(s)[n..][1..] == SignBits(s)[n + 1..];
    }
    c := a[..];
  }

  lemma ReadyNow(s: Stream, tau: nat, n: nat)
    requires n < tau <= 64 && BallReady(s, tau, n + 1) && BallReady(s, tau, n)
    ensures AcceptsAfter(BallCandidates(s, 256 - tau + n), Ball(s, tau, n).1)
  {
    hide AcceptsAfter, Ball;
  }

  lemma BallStart(s: Stream, tau: nat, a: Poly)
    requires tau <= 64 && |a| == 256 && forall i :: 0 <= i < 256 ==> a[i] == 0
    ensures Ball(s, tau, 0) == (a, 8)
  {
    assert a == Zero();
  }

  // ---- the norm of a product ---------------------------------------------------------------

  lemma TermBound(c: Poly, s: Poly, k: nat, i: nat, eta: int)
    requires |c| == |s| == 256 && k < 256 && i < 256 && Ternary(c) && Small(s, eta) && eta >= 0
    ensures Abs(Term(c, s, -1, k, i)) <= eta * Abs(c[i])
  {
    var j := if i <= k then k - i else 256 + k - i;
    assert -eta <= s[j] <= eta && -1 <= c[i] <= 1;
  }

  lemma {:induction false} ConvSumBound(c: Poly, s: Poly, k: nat, n: nat, eta: int)
    requires |c| == |s| == 256 && k < 256 && n <= 256 && Ternary(c) && Small(s, eta) && eta >= 0
    ensures Abs(ConvSum(c, s, -1, k, n)) <= eta * AbsSum(c, n)
  {
    hide Term;
    if n > 0 {
      ConvSumBound(c, s, k, n - 1, eta);
      TermBound(c, s, k, n - 1, eta);
      assert eta * (AbsSum(c, n - 1) + Abs(c[n - 1])) == eta * AbsSum(c, n - 1) + eta * Abs(c[n - 1]);
    }
  }

  /** A coefficient of the product of a challenge of weight at most tau with an eta-bounded
      polynomial is congruent to a number of absolute value at most tau·eta. */
  lemma ProductBound(c: Poly256, s: Poly256, tau: nat, eta: int, beta: int, k: nat) returns (v: int)
    requires Sparse(c, tau) && Small(s, eta)
    requires eta >= 0 && beta == eta * tau && k < 256
    ensures -beta <= v <= beta && Negacyclic(c, s)[k] == Red(v)
  {
    hide ConvSum, AbsSum, Red, Ternary, Small;
    ConvSumBound(c, s, k, 256, eta);
    MulLe(eta, AbsSum(c, 256), eta, tau);
    MulModAt(c, s, -1, k);
    v := ConvSum(c, s, -1, k, 256);
  }
}
