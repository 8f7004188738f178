/**
 The samplers (section 7.3 of FIPS 204) over an extendable-output function. SHAKE is a
 parameter: a function from the absorbed bytes to an endless stream. A rejection sampler
 returns the first accepted candidates of its stream, in order.
 */
module Sampling {
  import opened Modular
  import opened Outcomes
  import opened NttTree
  import opened Transform
  import opened BitPacking

  type Stream = nat -> byte

  datatype Xof = Xof(shake128: seq<byte> -> Stream, shake256: seq<byte> -> Stream)

  /** `shake256Sum`: the first n bytes. */
  function Sum256(x: Xof, n: nat, absorbed: seq<byte>): (r: seq<byte>)
    ensures |r| == n
  {
    seq<byte>(n, i requires 0 <= i => x.shake256(absorbed)(i))
  }

  // ---- first accepted candidates ------------------------------------------------------

  type Candidates = nat -> Option<int>

  /** The accepted values among the first n candidates. */
  function AcceptedIn(g: Candidates, n: nat): seq<int> {
    if n == 0 then [] else AcceptedIn(g, n - 1) + if g(n - 1).Some? then [g(n - 1).value] else []
  }

  /** The stream offers as many acceptable candidates as are drawn. */
  ghost predicate Enough(g: Candidates, count: nat) {
    exists n: nat :: |AcceptedIn(g, n)| >= count
  }

  lemma {:induction false} AcceptedPrefix(g: Candidates, m: nat, n: nat)
    requires m <= n
    ensures AcceptedIn(g, m) <= AcceptedIn(g, n)
  {
    if m < n {
      AcceptedPrefix(g, m, n - 1);
    }
  }

  /** The first accepted candidates. */
  ghost function Samples(g: Candidates, count: nat): (s: seq<int>)
    requires Enough(g, count)
    ensures |s| == count
  {
    var n: nat :| |AcceptedIn(g, n)| >= count;
    AcceptedIn(g, n)[..count]
  }

  /** It does not matter how far one looks. */
  lemma SamplesAre(g: Candidates, count: nat, m: nat)
    requires |AcceptedIn(g, m)| >= count
    ensures Enough(g, count) && Samples(g, count) == AcceptedIn(g, m)[..count]
  {
    hide AcceptedIn;
    var n: nat :| |AcceptedIn(g, n)| >= count && Samples(g, count) == AcceptedIn(g, n)[..count];
    if m <= n {
      AcceptedPrefix(g, m, n);
    } else {
      AcceptedPrefix(g, n, m);
    }
  }

  lemma {:induction false} AcceptedFrom(g: Candidates, n: nat, i: nat)
    requires i < |AcceptedIn(g, n)|
    ensures exists q: nat :: g(q) == Some(AcceptedIn(g, n)[i])
  {
    if i < |AcceptedIn(g, n - 1)| {
      AcceptedFrom(g, n - 1, i);
    } else {
      assert g(n - 1) == Some(AcceptedIn(g, n)[i]);
    }
  }

  lemma SamplesAreCandidates(g: Candidates, count: nat, i: nat)
    requires Enough(g, count) && i < count
    ensures exists q: nat :: g(q) == Some(Samples(g, count)[i])
  {
    hide AcceptedIn, Samples;
    var n: nat :| |AcceptedIn(g, n)| >= count;
    SamplesAre(g, count, n);
    AcceptedFrom(g, n, i);
  }

  /** A loop that has fewer values than needed has not looked far enough. */
  lemma NotYet(g: Candidates, count: nat, n: nat, c: nat)
    requires |AcceptedIn(g, n)| >= count && |AcceptedIn(g, c)| < count
    ensures c < n
  {
    hide AcceptedIn;
    if n <= c {
      AcceptedPrefix(g, n, c);
    }
  }

  lemma AcceptedNext(g: Candidates, n: nat)
    ensures AcceptedIn(g, 0) == []
    ensures AcceptedIn(g, n + 1) == AcceptedIn(g, n) + if g(n).Some? then [g(n).value] else []
  {
  }

  /** A polynomial of the first 256 accepted candidates; zero for a stream without as many, on which
      the source would not return. */
  ghost function FirstAccepted(g: Candidates): Poly256 {
    if Enough(g, 256) then Samples(g, 256) else seq(256, i => 0)
  }

  // ---- the next accepted candidate --------------------------------------------------------------

  ghost predicate AcceptsAfter(g: Candidates, p: nat) {
    exists q: nat :: p <= q && g(q).Some?
  }

  ghost function Least(g: Candidates, p: nat, w: nat): (q: nat)
    requires p <= w && g(w).Some?
    ensures p <= q <= w && g(q).Some? && forall r: nat :: p <= r < q ==> g(r).None?
    decreases w - p
  {
    if g(p).Some? then p else Least(g, p + 1, w)
  }

  /** The first accepted candidate at or after p. */
  ghost function Next(g: Candidates, p: nat): (q: nat)
    requires AcceptsAfter(g, p)
    ensures p <= q && g(q).Some? && forall r: nat :: p <= r < q ==> g(r).None?
  {
    var w: nat :| p <= w && g(w).Some?;
    Least(g, p, w)
  }

  // ---- rejNTTPoly ---------------------------------------------------------------------

  /** Candidate i: 23 bits of three bytes, accepted below Q. */
  function NttCandidates(s: Stream): Candidates {
    (i: nat) =>
      var d := s(3 * i) + s(3 * i + 1) * 256 + s(3 * i + 2) % 128 * 65536;
      if d < 8380417 then Some(d) else None
  }

  function NttStream(x: Xof, rho: seq<byte>, s: nat, r: nat): Stream {
    x.shake128(rho + [s % 256, r % 256])
  }

  /** One entry of the matrix A, already in the transformed domain. */
  ghost function MatrixEntry(x: Xof, rho: seq<byte>, s: nat, r: nat): Poly256 {
    FirstAccepted(NttCandidates(NttStream(x, rho, s, r)))
  }

  lemma MatrixEntryReduced(x: Xof, rho: seq<byte>, s: nat, r: nat)
    ensures ReducedPoly(MatrixEntry(x, rho, s, r))
  {
    hide Samples, Enough;
    var g := NttCandidates(NttStream(x, rho, s, r));
    var p := MatrixEntry(x, rho, s, r);
    forall i | 0 <= i < 256 && Enough(g, 256)
      ensures 0 <= p[i] < 8380417
    {
      SamplesAreCandidates(g, 256, i);
      var q: nat :| g(q) == Some(p[i]);
    }
  }

  /** `rejNTTPoly`. */
  method RejNTTPoly(x: Xof, rho: seq<byte>, s: nat, r: nat) returns (p: Poly256)
    requires Enough(NttCandidates(NttStream(x, rho, s, r)), 256)
    ensures p == MatrixEntry(x, rho, s, r)
  {
    hide Samples, AcceptedIn;
    var stream := NttStream(x, rho, s, r);
    ghost var g := NttCandidates(stream);
    ghost var far: nat :| |AcceptedIn(g, far)| >= 256;
    var acc: seq<int> := [];
    var c := 0;
    AcceptedNext(g, 0);
    while |acc| < 256
      invariant |acc| <= 256 && acc == AcceptedIn(g, c)
      decreases 256 - |acc|, far - c
    {
      NotYet(g, 256, far, c);
      AcceptedNext(g, c);
      var d := stream(3 * c) + stream(3 * c + 1) * 256 + stream(3 * c + 2) % 128 * 65536;
      if d < 8380417 {
        acc := acc + [d];
      }
      c := c + 1;
    }
    SamplesAre(g, 256, c);
    p := acc;
  }

  // ---- rejBoundedPoly -------------------------------------------------------------------

  /** `coeffFromHalfByte`. */
  function CoeffFromHalfByte(z: nat, eta: int): (r: Option<int>)
    ensures r.Some? && z < 16 && (eta == 2 || eta == 4) ==> -eta <= r.value <= eta
  {
    if eta == 2 then
      if z < 15 then Some(2 - z % 5) else None
    else if z < 9 then Some(4 - z) else None
  }

  /** Candidate i: the low half of byte i/2 if i is even, else the high half. */
  function HalfByteCandidates(s: Stream, eta: int): Candidates {
    (i: nat) => CoeffFromHalfByte(if i % 2 == 0 then s(i / 2) % 16 else s(i / 2) / 16, eta)
  }

  lemma HalfByteAt(s: Stream, eta: int, c: nat)
    ensures HalfByteCandidates(s, eta)(2 * c) == CoeffFromHalfByte(s(c) % 16, eta)
    ensures HalfByteCandidates(s, eta)(2 * c + 1) == CoeffFromHalfByte(s(c) / 16, eta)
  {
    hide CoeffFromHalfByte;
    assert (2 * c + 1) % 2 == 1 && (2 * c + 1) / 2 == c;
  }

  lemma HalfByteRange(s: Stream, eta: int, q: nat)
    requires (eta == 2 || eta == 4) && HalfByteCandidates(s, eta)(q).Some?
    ensures -eta <= HalfByteCandidates(s, eta)(q).value <= eta
  {
    hide CoeffFromHalfByte;
    var b := s(q / 2);
    assert b % 16 < 16 && b / 16 < 16;
  }

  function BoundedStream(x: Xof, rhoP: seq<byte>, nonce: nat): Stream {
    x.shake256(rhoP + [nonce % 256, nonce / 256 % 256])
  }

  ghost function BoundedPoly(x: Xof, rhoP: seq<byte>, nonce: nat, eta: int): Poly256 {
    FirstAccepted(HalfByteCandidates(BoundedStream(x, rhoP, nonce), eta))
  }

  ghost predicate Small(p: Poly, bound: int) {
    |p| == 256 && forall i :: 0 <= i < 256 ==> -bound <= p[i] <= bound
  }

  lemma BoundedPolySmall(x: Xof, rhoP: seq<byte>, nonce: nat, eta: int)
    requires eta == 2 || eta == 4
    ensures Small(BoundedPoly(x, rhoP, nonce, eta), eta)
  {
    hide Samples, Enough;
    var g := HalfByteCandidates(BoundedStream(x, rhoP, nonce), eta);
    var p := BoundedPoly(x, rhoP, nonce, eta);
    forall i | 0 <= i < 256 && Enough(g, 256)
      ensures -eta <= p[i] <= eta
    {
      SamplesAreCandidates(g, 256, i);
      var q: nat :| g(q) == Some(p[i]);
      HalfByteRange(BoundedStream(x, rhoP, nonce), eta, q);
    }
  }

  /** `rejBoundedPoly`: two candidates per byte, stopping in the middle of one if need be. */
  method RejBoundedPoly(x: Xof, rhoP: seq<byte>, nonce: nat, eta: int) returns (p: Poly256)
    requires Enough(HalfByteCandidates(BoundedStream(x, rhoP, nonce), eta), 256)
    ensures p == BoundedPoly(x, rhoP, nonce, eta)
  {
    hide Samples, AcceptedIn, CoeffFromHalfByte, HalfByteCandidates;
    var stream := BoundedStream(x, rhoP, nonce);
    ghost var g := HalfByteCandidates(stream, eta);
    ghost var far: nat :| |AcceptedIn(g, far)| >= 256;
    var acc: seq<int> := [];
    var c := 0;
    ghost var seen: nat := 0;
    AcceptedNext(g, 0);
    while |acc| < 256
      invariant |acc| <= 256 && acc == AcceptedIn(g, seen)
      invariant |acc| < 256 ==> seen == 2 * c
      decreases 256 - |acc|, far - 2 * c
    {
      NotYet(g, 256, far, seen);
      HalfByteAt(stream, eta, c);
      AcceptedNext(g, 2 * c);
      AcceptedNext(g, 2 * c + 1);
      var b := stream(c);
      var v := CoeffFromHalfByte(b % 16, eta);
      seen := 2 * c + 1;
      if v.Some? {
        acc := acc + [v.value];
        if |acc| >= 256 {
          break;
        }
      }
      v := CoeffFromHalfByte(b / 16, eta);
      seen := 2 * c + 2;
      if v.Some? {
        acc := acc + [v.value];
      }
      c := c + 1;
    }
    SamplesAre(g, 256, seen);
    p := acc;
  }
}
