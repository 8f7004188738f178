/**
 What the samplers draw, byte by byte. A rejection sampler's coefficients come from positions of
 its stream in ascending order, and every position it skipped holds a value it had to reject. The
 challenge draws one byte for each of tau indices after eight bytes of signs, the first that does not
 exceed the index, and each coefficient can be traced back to the sign it got or to zero.
 */
module Draws {
  import opened Arith
  import opened Modular
  import opened Outcomes
  import opened BitPacking
  import opened Sampling
  import opened Challenge
  import opened Scheme

  // ---- rejection --------------------------------------------------------------------------------------

  /** The values are those of the candidates at the positions, in order. */
  ghost predicate InOrder(g: Candidates, values: seq<int>, at: seq<nat>) {
    && |at| == |values|
    && (forall i, j :: 0 <= i < j < |at| ==> at[i] < at[j])
    && (forall i :: 0 <= i < |at| ==> g(at[i]) == Some(values[i]))
  }

  /** No acceptable candidate before n is missing. */
  ghost predicate Complete(g: Candidates, at: seq<nat>, n: nat) {
    forall q: nat :: q < n && g(q).Some? ==> q in at
  }

  /** And no other candidate up to the last position was acceptable. */
  ghost predicate DrawnAt(g: Candidates, values: seq<int>, at: seq<nat>) {
    InOrder(g, values, at) && forall i :: 0 <= i < |at| ==> Complete(g, at, at[i])
  }

  lemma {:induction false} AcceptedAt(g: Candidates, n: nat) returns (at: seq<nat>)
    ensures InOrder(g, AcceptedIn(g, n), at) && Complete(g, at, n)
    ensures forall i :: 0 <= i < |at| ==> at[i] < n
  {
    if n == 0 {
      at := [];
    } else {
      var front := AcceptedAt(g, n - 1);
      if g(n - 1).Some? {
        at := front + [n - 1];
        CompleteNext(g, front, n - 1);
      } else {
        at := front;
        assert AcceptedIn(g, n) == AcceptedIn(g, n - 1) + [];
      }
    }
  }

  lemma CompleteNext(g: Candidates, front: seq<nat>, n: nat)
    requires Complete(g, front, n)
    ensures Complete(g, front + [n], n + 1)
  {
    var at := front + [n];
    forall q: nat | q < n + 1 && g(q).Some?
      ensures q in at
    {
      if q < n {
        assert q in front;
      } else {
        assert at[|front|] == q;
      }
    }
  }

  lemma SamplesDrawn(g: Candidates, count: nat) returns (at: seq<nat>)
    requires Enough(g, count)
    ensures DrawnAt(g, Samples(g, count), at)
  {
    hide AcceptedIn, Samples;
    var n: nat :| |AcceptedIn(g, n)| >= count;
    SamplesAre(g, count, n);
    var all := AcceptedAt(g, n);
    at := all[..count];
    assert forall i :: 0 <= i < count ==> at[i] == all[i];
    forall i | 0 <= i < count
      ensures Complete(g, at, at[i])
    {
      forall q: nat | q < at[i] && g(q).Some?
        ensures q in at
      {
        assert q in all;
        var j :| 0 <= j < |all| && all[j] == q;
        assert j < i;
        assert at[j] == q;
      }
    }
  }

  /** Bits 0 to 22 of three bytes from position 3·i of a stream. */
  function Triple(s: Stream, i: nat): nat {
    s(3 * i) + 256 * s(3 * i + 1) + 65536 * (s(3 * i + 2) % 128)
  }

  /** Entry (row, column) of A: the first 256 triples below Q of SHAKE128 on rho, column, row. */
  lemma MatrixDrawn(x: Xof, rho: seq<byte>, row: byte, column: byte, l: nat, s: Stream) returns (at: seq<nat>)
    requires column < l && s == x.shake128(rho + [column, row]) && Enough(NttCandidates(s), 256)
    ensures var p := MatrixRow(x, rho, row, l)[column];
      && |at| == 256 && (forall i, j :: 0 <= i < j < 256 ==> at[i] < at[j])
      && (forall i :: 0 <= i < 256 ==> p[i] == Triple(s, at[i]) < 8380417)
      && (forall i, q: nat :: 0 <= i < 256 && q < at[i] && q !in at ==> Triple(s, q) >= 8380417)
  {
    hide Samples, Enough;
    var g := NttCandidates(s);
    assert NttStream(x, rho, column, row) == s;
    at := SamplesDrawn(g, 256);
    assert MatrixRow(x, rho, row, l)[column] == Samples(g, 256);
    forall q: nat
      ensures g(q) == if Triple(s, q) < 8380417 then Some(Triple(s, q)) else None
    {
    }
    assert forall i :: 0 <= i < 256 ==> g(at[i]) == Some(Samples(g, 256)[i]) && Complete(g, at, at[i]);
  }

  /** Half byte i of a stream, the low half of each byte first. */
  function Nibble(s: Stream, i: nat): nat {
    if i % 2 == 0 then s(i / 2) % 16 else s(i / 2) / 16
  }

  /** A secret polynomial: the first 256 half bytes below 15 (or 9) of SHAKE256 on the seed and the
      two bytes of the nonce, mapped to 2 - (z mod 5) (or 4 - z). */
  lemma BoundedDrawn(x: Xof, rhoP: seq<byte>, nonce: nat, eta: Eta, s: Stream) returns (at: seq<nat>)
    requires nonce < 65536 && s == x.shake256(rhoP + [nonce % 256, nonce / 256]) && Enough(HalfByteCandidates(s, eta), 256)
    ensures var p, limit := BoundedPoly(x, rhoP, nonce, eta), if eta == 2 then 15 else 9;
      && |at| == 256 && (forall i, j :: 0 <= i < j < 256 ==> at[i] < at[j])
      && (forall i :: 0 <= i < 256 ==> Nibble(s, at[i]) < limit)
      && (forall i :: 0 <= i < 256 ==> p[i] == if eta == 2 then 2 - Nibble(s, at[i]) % 5 else 4 - Nibble(s, at[i]))
      && (forall i, q: nat :: 0 <= i < 256 && q < at[i] && q !in at ==> Nibble(s, q) >= limit)
  {
    hide Samples, Enough;
    var g := HalfByteCandidates(s, eta);
    assert BoundedStream(x, rhoP, nonce) == s;
    at := SamplesDrawn(g, 256);
    var limit := if eta == 2 then 15 else 9;
    forall q: nat
      ensures g(q) == if Nibble(s, q) < limit then Some(if eta == 2 then 2 - Nibble(s, q) % 5 else 4 - Nibble(s, q)) else None
    {
    }
    assert forall i :: 0 <= i < 256 ==> g(at[i]) == Some(Samples(g, 256)[i]) && Complete(g, at, at[i]);
  }

  // ---- the challenge -----------------------------------------------------------------------------------

  /** Sign n: bit n of the first eight bytes, lowest bit of the first byte first. */
  function Sign(s: Stream, n: nat): int {
    if s(n / 8) / Exp2(n % 8) % 2 == 1 then -1 else 1
  }

  lemma {:induction false} BitsAt(v: nat, n: nat, i: nat)
    requires i < n
    ensures Bits(v, n)[i] <==> v / Exp2(i) % 2 == 1
    decreases n
  {
    if i > 0 {
      BitsAt(v / 2, n - 1, i - 1);
      assert v / 2 / Exp2(i - 1) == v / Exp2(i) by { HalfQuotient(v, Exp2(i - 1)); }
    }
  }

  lemma HalfQuotient(v: nat, p: nat)
    requires p >= 1
    ensures v / 2 / p == v / (2 * p)
  {
    var q, r := v / (2 * p), v % (2 * p);
    assert v == 2 * p * q + r;
    assert v / 2 == p * q + r / 2;
    DivUnique(v / 2, p, q, r / 2);
  }

  lemma {:induction false} ByteBitAt(bytes: seq<byte>, i: nat)
    requires i < 8 * |bytes|
    ensures |Flatten(bytes, 8)| == 8 * |bytes|
    ensures Flatten(bytes, 8)[i] <==> bytes[i / 8] / Exp2(i % 8) % 2 == 1
    decreases |bytes|
  {
    hide Bits, Exp2;
    FlattenLength(bytes, 8);
    if i < 8 {
      BitsAt(bytes[0], 8, i);
    } else {
      var rest := bytes[1..];
      ByteBitAt(rest, i - 8);
      assert rest[(i - 8) / 8] == bytes[i / 8] && (i - 8) % 8 == i % 8;
    }
  }

  lemma SignAt(s: Stream, n: nat)
    requires n < 64
    ensures SignBits(s)[n] <==> Sign(s, n) == -1
  {
    hide Flatten, Exp2;
    ByteBitAt(SignBytes(s), n);
  }

  /** Position m: the first byte, after the signs and the position before, that does not exceed index
      256 - tau + m. */
  ghost predicate DrawnFor(s: Stream, tau: nat, at: seq<nat>, m: nat)
    requires m < |at|
  {
    s(at[m]) <= 256 - tau + m && Start(at, m) <= at[m] && forall q: nat :: Start(at, m) <= q < at[m] ==> s(q) > 256 - tau + m
  }

  ghost predicate BallDrawn(s: Stream, tau: nat, at: seq<nat>) {
    |at| <= tau <= 64 && forall m :: 0 <= m < |at| ==> DrawnFor(s, tau, at, m)
  }

  /** Where the search for position m starts. */
  function Start(at: seq<nat>, m: nat): nat
    requires m <= |at|
  {
    if m == 0 then 8 else at[m - 1] + 1
  }

  /** Coefficient k after the positions: the sign of the last index it was drawn for, or what the index it
      was the target of moved there, or zero. */
  function Traced(s: Stream, tau: nat, at: seq<nat>, k: nat): int
    requires tau <= 256
    decreases |at|
  {
    if at == [] then 0 else
      var n := |at| - 1;
      if s(at[n]) == k then Sign(s, n)
      else Traced(s, tau, at[..n], if k == 256 - tau + n then s(at[n]) else k)
  }

  lemma {:induction false} BallTraced(s: Stream, tau: nat, n: nat) returns (at: seq<nat>)
    requires n <= tau <= 64 && BallReady(s, tau, n)
    ensures |at| == n && BallDrawn(s, tau, at) && Ball(s, tau, n).1 == Start(at, n)
    ensures forall k :: 0 <= k < 256 ==> Ball(s, tau, n).0[k] == Traced(s, tau, at, k)
  {
    hide SignBits, AcceptsAfter, Next, Sign, Place, Ball, Traced, BallDrawn, BallCandidates, Start;
    if n == 0 {
      at := [];
      BallStart(s, tau, Zero());
      NoneDrawn(s, tau);
    } else {
      var front := BallTraced(s, tau, n - 1);
      var c, i := Ball(s, tau, n - 1).0, 256 - tau + (n - 1);
      assert AcceptsAfter(BallCandidates(s, i), Ball(s, tau, n - 1).1);
      var q := Next(BallCandidates(s, i), Ball(s, tau, n - 1).1);
      at := front + [q];
      BallStep(s, tau, n - 1, q);
      DrawnNext(s, tau, front, q, i);
      forall k | 0 <= k < 256
        ensures Ball(s, tau, n).0[k] == Traced(s, tau, at, k)
      {
        PlacedAt(c, i, s(q), SignBits(s)[n - 1], k);
        TracedNext(s, tau, front, q, k);
      }
    }
  }

  lemma NoneDrawn(s: Stream, tau: nat)
    requires tau <= 64
    ensures BallDrawn(s, tau, []) && Start([], 0) == 8 && forall k :: 0 <= k < 256 ==> Traced(s, tau, [], k) == 0
  {
  }

  lemma TracedNext(s: Stream, tau: nat, front: seq<nat>, q: nat, k: nat)
    requires tau <= 64 && |front| < 64
    ensures Traced(s, tau, front + [q], k)
            == if s(q) == k then (if SignBits(s)[|front|] then -1 else 1)
               else Traced(s, tau, front, if k == 256 - tau + |front| then s(q) else k)
  {
    hide SignBits, Sign;
    var at := front + [q];
    assert at[..|at| - 1] == front && at[|at| - 1] == q;
    SignAt(s, |front|);
    SignIs(s, |front|);
  }

  lemma SignIs(s: Stream, n: nat)
    ensures Sign(s, n) == -1 || Sign(s, n) == 1
  {
  }

  lemma PlacedAt(c: seq<int>, i: nat, j: nat, negative: bool, k: nat)
    requires |c| == 256 && j <= i < 256 && k < 256
    ensures Place(c, i, j, negative)[k] == if k == j then (if negative then -1 else 1) else if k == i then c[j] else c[k]
  {
  }

  lemma DrawnNext(s: Stream, tau: nat, front: seq<nat>, q: nat, i: nat)
    requires BallDrawn(s, tau, front) && |front| < tau && i == 256 - tau + |front|
    requires AcceptsAfter(BallCandidates(s, i), Start(front, |front|)) && q == Next(BallCandidates(s, i), Start(front, |front|))
    ensures BallDrawn(s, tau, front + [q]) && Start(front + [q], |front| + 1) == q + 1
  {
    hide AcceptsAfter, DrawnFor;
    var n, at := |front|, front + [q];
    forall m | 0 <= m <= n
      ensures DrawnFor(s, tau, at, m)
    {
      if m < n {
        assert DrawnFor(s, tau, front, m);
        DrawnStays(s, tau, front, q, m);
      } else {
        LastDrawn(s, tau, front, q, i);
      }
    }
  }

  lemma DrawnStays(s: Stream, tau: nat, front: seq<nat>, q: nat, m: nat)
    requires m < |front| && DrawnFor(s, tau, front, m)
    ensures DrawnFor(s, tau, front + [q], m)
  {
    var at := front + [q];
    assert at[m] == front[m] && Start(at, m) == Start(front, m);
  }

  lemma LastDrawn(s: Stream, tau: nat, front: seq<nat>, q: nat, i: nat)
    requires |front| < tau <= 64 && i == 256 - tau + |front|
    requires AcceptsAfter(BallCandidates(s, i), Start(front, |front|)) && q == Next(BallCandidates(s, i), Start(front, |front|))
    ensures DrawnFor(s, tau, front + [q], |front|)
  {
    hide AcceptsAfter;
    var n, at := |front|, front + [q];
    assert at[n] == q && Start(at, n) == Start(front, n);
    assert BallCandidates(s, i)(q).Some?;
    forall p: nat | Start(front, n) <= p < q
      ensures s(p) > i
    {
      assert BallCandidates(s, i)(p).None?;
    }
  }

  /** The challenge polynomial of a hash. */
  lemma ChallengeDrawn(x: Xof, ctilde: seq<byte>, tau: nat, s: Stream) returns (at: seq<nat>)
    requires s == x.shake256(ctilde) && BallOk(s, tau)
    ensures |at| == tau && BallDrawn(s, tau, at)
    ensures forall k :: 0 <= k < 256 ==> ChallengePoly(x, ctilde, tau)[k] == Traced(s, tau, at, k)
  {
    hide BallReady, Ball, BallDrawn, Traced;
    at := BallTraced(s, tau, tau);
  }
}
