/**
 The hint encoding (section 7.1 of FIPS 204): the positions of the ones of each polynomial in
 ascending order, padded to omega bytes, followed by one running count per polynomial. The
 accepted buffers and the 0/1 hints with at most omega ones correspond one to one.
 */
module HintCodec {
  import opened Modular
  import opened Outcomes
  import opened BitPacking

  type Hints = seq<Poly256>

  ghost predicate ZeroOne(h: Hints) {
    forall i, j :: 0 <= i < |h| && 0 <= j < |h[i]| ==> h[i][j] == 0 || h[i][j] == 1
  }

  /** The positions below n of the non-zero coefficients of p, ascending. */
  function Ones(p: Poly256, n: nat): (s: seq<byte>)
    requires n <= |p| == 256
    ensures |s| <= n
  {
    if n == 0 then [] else Ones(p, n - 1) + (if p[n - 1] != 0 then [n - 1] else [])
  }

  /** The positions of the first n polynomials, one list after the other. */
  ghost function AllOnes(h: Hints, n: nat): (s: seq<byte>)
    requires n <= |h|
  {
    if n == 0 then [] else AllOnes(h, n - 1) + Ones(h[n - 1], 256)
  }

  /** How many ones a hint has in all. */
  ghost function Weight(h: Hints): nat
  {
    |AllOnes(h, |h|)|
  }

  /** The i-th running count. */
  ghost predicate CountAt(h: Hints, omega: nat, out: seq<byte>, i: nat)
    requires i < |h| && omega + i < |out|
  {
    out[omega + i] == |AllOnes(h, i + 1)|
  }

  ghost predicate IsEncoding(h: Hints, omega: nat, out: seq<byte>)
  {
    && |out| == omega + |h| && Weight(h) <= omega
    && out[..Weight(h)] == AllOnes(h, |h|)
    && (forall i :: Weight(h) <= i < omega ==> out[i] == 0)
    && (forall i :: 0 <= i < |h| ==> CountAt(h, omega, out, i))
  }

  /** The encoding as a value. */
  ghost function HintBytes(h: Hints, omega: nat): (out: seq<byte>)
    requires Weight(h) <= omega < 256
  {
    seq<byte>(omega + |h|, x requires 0 <= x < omega + |h| => HintByte(h, omega, x))
  }

  ghost function HintByte(h: Hints, omega: nat, x: nat): byte
    requires Weight(h) <= omega < 256 && x < omega + |h|
  {
    if x < Weight(h) then AllOnes(h, |h|)[x] else if x < omega then 0 else Count(h, omega, x - omega + 1)
  }

  ghost function Count(h: Hints, omega: nat, n: nat): (c: byte)
    requires Weight(h) <= omega < 256 && n <= |h|
    ensures c == |AllOnes(h, n)|
  {
    AllOnesPrefix(h, n, |h|);
    |AllOnes(h, n)|
  }

  /** There is exactly one encoding. */
  lemma EncodingIsHintBytes(h: Hints, omega: nat, out: seq<byte>)
    requires Weight(h) <= omega < 256
    ensures IsEncoding(h, omega, out) <==> out == HintBytes(h, omega)
  {
    hide AllOnes;
    var e := HintBytes(h, omega);
    assert IsEncoding(h, omega, e) by {
      forall i | 0 <= i < |h|
        ensures CountAt(h, omega, e, i)
      {
        assert e[omega + i] == Count(h, omega, i + 1);
      }
    }
    if IsEncoding(h, omega, out) {
      forall x | 0 <= x < omega + |h|
        ensures out[x] == e[x]
      {
        if x < Weight(h) {
          assert out[..Weight(h)][x] == out[x];
        } else if x >= omega {
          assert CountAt(h, omega, out, x - omega) && CountAt(h, omega, e, x - omega);
        }
      }
    }
  }

  lemma {:induction false} AllOnesPrefix(h: Hints, m: nat, n: nat)
    requires m <= n <= |h|
    ensures AllOnes(h, m) <= AllOnes(h, n)
  {
    if m < n {
      AllOnesPrefix(h, m, n - 1);
    }
  }

  /** The inner loop of `hintPack`: appends the positions of one polynomial, unless there is
      no room for all of them. */
  method WritePositions(p: Poly256, out: array<byte>, start: nat, omega: nat) returns (r: Option<nat>)
    requires |p| == 256 && start <= omega <= out.Length
    modifies out
    ensures r.None? <==> start + |Ones(p, 256)| > omega
    ensures r.Some? ==> r.value == start + |Ones(p, 256)|
    ensures r.Some? ==> out[..r.value] == old(out[..start]) + Ones(p, 256)
    ensures r.Some? ==> forall x :: r.value <= x < out.Length ==> out[x] == old(out[x])
  {
    hide Ones;
    var idx := start;
    OnesStep(p, 0);
    for j := 0 to 256
      invariant idx == start + |Ones(p, j)| <= omega
      invariant out[..idx] == old(out[..start]) + Ones(p, j)
      invariant forall x :: idx <= x < out.Length ==> out[x] == old(out[x])
    {
      OnesStep(p, j);
      if p[j] != 0 {
        if idx >= omega {
          OnesPrefix(p, j + 1, 256);
          return None;
        }
        out[idx] := j;
        idx := idx + 1;
        assert out[..idx] == out[..idx - 1] + [out[idx - 1]];
      }
    }
    return Some(idx);
  }

  /** `hintPack`: nil exactly when there are more than omega ones. */
  method HintPack(h: Hints, omega: nat) returns (r: Option<seq<byte>>)
    requires omega < 256
    ensures r.None? <==> Weight(h) > omega
    ensures r.Some? ==> IsEncoding(h, omega, r.value)
  {
    hide Ones, AllOnes;
    var out := new byte[omega + |h|](i => 0);
    var idx := 0;
    EmptyOnes(h);
    for i := 0 to |h|
      invariant idx == |AllOnes(h, i)| <= omega
      invariant out[..idx] == AllOnes(h, i)
      invariant forall x :: idx <= x < omega ==> out[x] == 0
      invariant forall x :: 0 <= x < i ==> CountAt(h, omega, out[..], x)
    {
      AllOnesStep(h, i);
      AllOnesPrefix(h, i + 1, |h|);
      ghost var before := out[..];
      var next := WritePositions(h[i], out, idx, omega);
      if next.None? {
        return None;
      }
      idx := next.value;
      out[omega + i] := idx;
      forall x | 0 <= x < i
        ensures CountAt(h, omega, out[..], x)
      {
        assert CountAt(h, omega, before, x);
      }
    }
    return Some(out[..]);
  }

  lemma EmptyOnes(h: Hints)
    ensures AllOnes(h, 0) == []
  {
  }

  lemma OnesStep(p: Poly256, j: nat)
    requires j < |p| == 256
    ensures Ones(p, j + 1) == Ones(p, j) + (if p[j] != 0 then [j] else [])
    ensures Ones(p, 0) == []
  {
  }

  lemma AllOnesStep(h: Hints, i: nat)
    requires i < |h|
    ensures AllOnes(h, i + 1) == AllOnes(h, i) + Ones(h[i], 256)
  {
    hide Ones;
  }

  lemma {:induction false} OnesPrefix(p: Poly256, m: nat, n: nat)
    requires m <= n <= |p| == 256
    ensures Ones(p, m) <= Ones(p, n)
  {
    if m < n {
      OnesPrefix(p, m, n - 1);
    }
  }

  // ---- decoding -----------------------------------------------------------------------

  /** Where the positions of polynomial i begin: the count after its predecessor. */
  function Start(buf: seq<byte>, omega: nat, i: nat): nat
    requires omega + i <= |buf|
  {
    if i == 0 then 0 else buf[omega + i - 1]
  }

  /** Segment i: a sane count and strictly ascending positions. */
  ghost predicate SegmentOk(buf: seq<byte>, omega: nat, i: nat)
    requires omega + i < |buf|
  {
    && Start(buf, omega, i) <= buf[omega + i] <= omega
    && forall x :: Start(buf, omega, i) < x < buf[omega + i] ==> buf[x - 1] < buf[x]
  }

  ghost predicate Accepts(buf: seq<byte>, omega: nat, k: nat) {
    && |buf| == omega + k
    && (forall i :: 0 <= i < k ==> SegmentOk(buf, omega, i))
    && forall x :: Start(buf, omega, k) <= x < omega ==> buf[x] == 0
  }

  ghost function Segment(buf: seq<byte>, omega: nat, i: nat): seq<byte>
    requires omega + i < |buf| && SegmentOk(buf, omega, i)
  {
    buf[Start(buf, omega, i)..buf[omega + i]]
  }

  /** The 0/1 polynomial with ones at the listed positions. */
  ghost function Indicator(s: seq<byte>): (p: Poly256)
    ensures |p| == 256 && forall j :: 0 <= j < 256 ==> p[j] == if j in s then 1 else 0
  {
    seq(256, j => if j in s then 1 else 0)
  }

  ghost predicate IsDecoding(buf: seq<byte>, omega: nat, k: nat, h: Hints)
    requires Accepts(buf, omega, k)
  {
    |h| == k && forall i :: 0 <= i < k ==> h[i] == Indicator(Segment(buf, omega, i))
  }

  /** The inner loop of `hintUnpack`: one segment of positions. */
  method ReadSegment(buf: seq<byte>, first: nat, end: nat) returns (r: Option<Poly256>)
    requires first <= end <= |buf|
    ensures r.Some? <==> forall x :: first < x < end ==> buf[x - 1] < buf[x]
    ensures r.Some? ==> r.value == Indicator(buf[first..end])
  {
    var p := new int[256](_ => 0);
    var idx := first;
    while idx < end
      invariant first <= idx <= end
      invariant forall x :: first < x < idx ==> buf[x - 1] < buf[x]
      invariant forall j :: 0 <= j < 256 ==> p[j] == if j in buf[first..idx] then 1 else 0
    {
      if idx > first && buf[idx] <= buf[idx - 1] {
        return None;
      }
      assert buf[first..idx + 1] == buf[first..idx] + [buf[idx]];
      p[buf[idx]] := 1;
      idx := idx + 1;
    }
    assert p[..] == Indicator(buf[first..end]);
    return Some(p[..]);
  }

  /** `hintUnpack`: rejects exactly the buffers that are no encoding. */
  method HintUnpack(buf: seq<byte>, omega: nat, k: nat) returns (r: Option<Hints>)
    ensures r.Some? <==> Accepts(buf, omega, k)
    ensures r.Some? ==> IsDecoding(buf, omega, k, r.value)
  {
    hide Indicator;
    if |buf| != omega + k {
      return None;
    }
    var h: Hints := [];
    var idx := 0;
    for i := 0 to k
      invariant |h| == i && idx == Start(buf, omega, i)
      invariant forall c :: 0 <= c < i ==> SegmentOk(buf, omega, c)
      invariant forall c :: 0 <= c < i ==> h[c] == Indicator(Segment(buf, omega, c))
    {
      var end := buf[omega + i];
      if end < idx || end > omega {
        assert !SegmentOk(buf, omega, i);
        return None;
      }
      var p := ReadSegment(buf, idx, end);
      assert p.Some? <==> SegmentOk(buf, omega, i);
      if p.None? {
        return None;
      }
      h := h + [p.value];
      idx := end;
    }
    ghost var total := idx;
    while idx < omega
      invariant total <= idx
      invariant forall x :: total <= x < idx ==> x < omega && buf[x] == 0
    {
      if buf[idx] != 0 {
        return None;
      }
      idx := idx + 1;
    }
    return Some(h);
  }

  // ---- the bijection ------------------------------------------------------------------

  lemma {:induction false} OnesAscending(p: Poly256, n: nat)
    requires n <= |p| == 256
    ensures forall x :: 0 <= x < |Ones(p, n)| ==> Ones(p, n)[x] < n && p[Ones(p, n)[x]] != 0
    ensures forall x :: 0 < x < |Ones(p, n)| ==> Ones(p, n)[x - 1] < Ones(p, n)[x]
    ensures forall j :: 0 <= j < n && p[j] != 0 ==> j in Ones(p, n)
  {
    if n > 0 {
      OnesAscending(p, n - 1);
    }
  }

  lemma EncodedStart(h: Hints, omega: nat, out: seq<byte>, i: nat)
    requires IsEncoding(h, omega, out) && i <= |h|
    ensures Start(out, omega, i) == |AllOnes(h, i)|
  {
    hide Ones;
    if i > 0 {
      assert CountAt(h, omega, out, i - 1);
    }
  }

  lemma EncodedSlice(h: Hints, omega: nat, out: seq<byte>, i: nat)
    requires IsEncoding(h, omega, out) && i < |h|
    ensures var s, e := |AllOnes(h, i)|, |AllOnes(h, i + 1)|;
      s <= e <= omega && out[s..e] == Ones(h[i], 256)
  {
    hide Ones, AllOnes, CountAt;
    AllOnesStep(h, i);
    AllOnesPrefix(h, i + 1, |h|);
    var s, e := |AllOnes(h, i)|, |AllOnes(h, i + 1)|;
    assert out[s..e] == out[..Weight(h)][s..e] == AllOnes(h, i + 1)[s..e];
  }

  lemma AscendingSlice(out: seq<byte>, s: nat, e: nat, o: seq<byte>)
    requires s <= e <= |out| && out[s..e] == o && Ascending(o)
    ensures forall x :: s < x < e ==> out[x - 1] < out[x]
  {
    forall x | s < x < e
      ensures out[x - 1] < out[x]
    {
      assert out[x] == o[x - s] && out[x - 1] == o[x - s - 1];
    }
  }

  /** Segment i of an encoding is the list of ones of polynomial i. */
  lemma EncodedSegment(h: Hints, omega: nat, out: seq<byte>, i: nat)
    requires IsEncoding(h, omega, out) && i < |h|
    ensures SegmentOk(out, omega, i) && Segment(out, omega, i) == Ones(h[i], 256)
  {
    hide Ones, AllOnes;
    EncodedStart(h, omega, out, i);
    EncodedSlice(h, omega, out, i);
    OnesAscending(h[i], 256);
    assert CountAt(h, omega, out, i);
    AscendingSlice(out, |AllOnes(h, i)|, |AllOnes(h, i + 1)|, Ones(h[i], 256));
  }

  lemma IndicatorOfOnes(p: Poly256)
    requires |p| == 256 && forall j :: 0 <= j < 256 ==> p[j] == 0 || p[j] == 1
    ensures Indicator(Ones(p, 256)) == p
  {
    hide Ones;
    OnesAscending(p, 256);
  }

  /** Unpacking what was packed gives the hint back. */
  lemma UnpackOfPack(h: Hints, omega: nat, out: seq<byte>)
    requires IsEncoding(h, omega, out)
    ensures Accepts(out, omega, |h|)
    ensures forall g :: IsDecoding(out, omega, |h|, g) && ZeroOne(h) ==> g == h
  {
    hide Ones, Indicator, SegmentOk;
    forall i | 0 <= i < |h|
      ensures SegmentOk(out, omega, i)
    {
      EncodedSegment(h, omega, out, i);
    }
    EncodedStart(h, omega, out, |h|);
    forall g | IsDecoding(out, omega, |h|, g) && ZeroOne(h)
      ensures g == h
    {
      forall i | 0 <= i < |h|
        ensures g[i] == h[i]
      {
        EncodedSegment(h, omega, out, i);
        IndicatorOfOnes(h[i]);
      }
    }
  }

  ghost predicate Ascending(s: seq<byte>) {
    forall x :: 0 < x < |s| ==> s[x - 1] < s[x]
  }

  lemma {:induction false} AscendingFar(s: seq<byte>, x: nat, y: nat)
    requires Ascending(s) && x < y < |s|
    ensures s[x] < s[y]
  {
    if x + 1 < y {
      AscendingFar(s, x, y - 1);
    }
  }

  /** The ones below n of an ascending list's indicator are the list's elements below n. */
  lemma {:induction false} OnesOfIndicator(s: seq<byte>, n: nat) returns (m: nat)
    requires Ascending(s) && n <= 256
    ensures m <= |s| && Ones(Indicator(s), n) == s[..m]
    ensures (m > 0 ==> s[m - 1] < n) && (m < |s| ==> s[m] >= n)
  {
    hide Indicator;
    if n == 0 {
      m := 0;
    } else {
      m := OnesOfIndicator(s, n - 1);
      if m < |s| && s[m] == n - 1 {
        assert s[..m + 1] == s[..m] + [s[m]];
        assert s[m] in s;
        m := m + 1;
        if m < |s| {
          AscendingFar(s, m - 1, m);
        }
      } else if n - 1 in s {
        var x :| 0 <= x < |s| && s[x] == n - 1;
        if x < m {
          if x < m - 1 {
            AscendingFar(s, x, m - 1);
          }
        } else if m < x {
          AscendingFar(s, m, x);
        }
        assert false;
      }
    }
  }

  lemma OnesOfSegment(s: seq<byte>)
    requires Ascending(s)
    ensures Ones(Indicator(s), 256) == s
  {
    var m := OnesOfIndicator(s, 256);
    assert s[..|s|] == s;
  }

  lemma SegmentAscending(buf: seq<byte>, omega: nat, i: nat)
    requires omega + i < |buf| && SegmentOk(buf, omega, i)
    ensures Ascending(Segment(buf, omega, i))
  {
    var s, o := Segment(buf, omega, i), Start(buf, omega, i);
    forall x | 0 < x < |s|
      ensures s[x - 1] < s[x]
    {
      assert buf[o + x - 1] < buf[o + x];
    }
  }

  lemma NextStart(buf: seq<byte>, omega: nat, i: nat)
    requires omega + i < |buf| && SegmentOk(buf, omega, i)
    ensures Start(buf, omega, i) <= Start(buf, omega, i + 1) <= |buf|
    ensures buf[..Start(buf, omega, i + 1)] == buf[..Start(buf, omega, i)] + Segment(buf, omega, i)
  {
  }

  lemma {:induction false} DecodedOnes(buf: seq<byte>, omega: nat, k: nat, h: Hints, i: nat)
    requires Accepts(buf, omega, k) && IsDecoding(buf, omega, k, h) && i <= k
    ensures Start(buf, omega, i) <= |buf|
    ensures AllOnes(h, i) == buf[..Start(buf, omega, i)]
  {
    hide Ones, Indicator, AllOnes, SegmentOk, Segment, Start;
    if i == 0 {
      FirstStart(buf, omega);
      EmptyOnes(h);
    } else {
      DecodedOnes(buf, omega, k, h, i - 1);
      assert SegmentOk(buf, omega, i - 1);
      SegmentAscending(buf, omega, i - 1);
      OnesOfSegment(Segment(buf, omega, i - 1));
      AllOnesStep(h, i - 1);
      NextStart(buf, omega, i - 1);
    }
  }

  lemma FirstStart(buf: seq<byte>, omega: nat)
    requires omega <= |buf|
    ensures Start(buf, omega, 0) == 0
  {
  }

  /** Every accepted buffer is the encoding of what it decodes to. */
  lemma PackOfUnpack(buf: seq<byte>, omega: nat, k: nat, h: Hints)
    requires Accepts(buf, omega, k) && IsDecoding(buf, omega, k, h)
    ensures ZeroOne(h) && IsEncoding(h, omega, buf)
    ensures forall out :: IsEncoding(h, omega, out) ==> out == buf
  {
    hide Ones, Indicator, AllOnes;
    DecodedOnes(buf, omega, k, h, k);
    if k > 0 {
      assert SegmentOk(buf, omega, k - 1);
    }
    forall i | 0 <= i < k
      ensures CountAt(h, omega, buf, i)
    {
      DecodedOnes(buf, omega, k, h, i + 1);
    }
    forall out | IsEncoding(h, omega, out)
      ensures out == buf
    {
      var w := Weight(h);
      forall x | 0 <= x < omega + k
        ensures out[x] == buf[x]
      {
        if x < w {
          assert out[..w][x] == buf[..w][x];
        } else if x >= omega {
          assert CountAt(h, omega, out, x - omega) && CountAt(h, omega, buf, x - omega);
        }
      }
    }
  }
}
