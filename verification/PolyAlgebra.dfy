/**
 Linear algebra over the transformed domain: what signing and verification compute row by row,
 and the identities that make the two sides meet.
 */
module PolyAlgebra {
  import opened Zetas
  import opened Modular
  import opened NttTree
  import opened Transform
  import opened Challenge

  // ---- one coefficient --------------------------------------------------------------------

  lemma RedAdd(x: int, y: int)
    ensures Red(Red(x) + Red(y)) == Red(x + y)
    ensures Red(Red(x) - Red(y)) == Red(x - y)
    ensures Red(x + Red(y)) == Red(x + y) && Red(Red(x) + y) == Red(x + y)
    ensures Red(x - Red(y)) == Red(x - y) && Red(Red(x) - y) == Red(x - y)
  {
    hide Red;
    RedRed(x);
    RedRed(y);
    CongAdd(Red(x), x, Red(y), y);
    CongAdd(x, x, Red(y), y);
    CongAdd(Red(x), x, y, y);
  }

  lemma RedMul(x: int, y: int)
    ensures Red(Red(x) * Red(y)) == Red(x * y)
    ensures Red(x * Red(y)) == Red(x * y)
  {
    hide Red;
    RedRed(x);
    RedRed(y);
    CongMul(Red(x), x, Red(y), y);
    CongMul(x, x, Red(y), y);
  }

  // ---- linearity of the transforms ----------------------------------------------------------

  lemma CombIsSum(a: Poly, b: Poly)
    requires |a| == |b|
    ensures CongSeq(AddRed(a, b), Comb(1, a, 1, b)) && CongSeq(SubRed(a, b), Comb(1, a, -1, b))
    ensures RedPoly(Comb(1, a, 1, b)) == AddRed(a, b) && RedPoly(Comb(1, a, -1, b)) == SubRed(a, b)
  {
    hide Red;
    forall i | 0 <= i < |a|
      ensures Cong(AddRed(a, b)[i], Comb(1, a, 1, b)[i]) && Cong(SubRed(a, b)[i], Comb(1, a, -1, b)[i])
    {
      RedRed(a[i] + b[i]);
      RedRed(a[i] - b[i]);
    }
  }

  lemma ForwardLinear(a: Poly, b: Poly)
    requires |a| == |b| == 256
    ensures Forward(AddRed(a, b)) == AddRed(Forward(a), Forward(b))
    ensures Forward(SubRed(a, b)) == SubRed(Forward(a), Forward(b))
  {
    hide Forward, AddRed, SubRed, Comb, RedPoly, CongSeq, Red;
    CombIsSum(a, b);
    ForwardOfComb(1, a, 1, b);
    ForwardOfComb(1, a, -1, b);
    ForwardCong(AddRed(a, b), Comb(1, a, 1, b));
    ForwardCong(SubRed(a, b), Comb(1, a, -1, b));
    CombIsSum(Forward(a), Forward(b));
  }

  lemma ForwardOfComb(x: int, a: Poly, y: int, b: Poly)
    requires |a| == |b| == 256
    ensures Forward(Comb(x, a, y, b)) == RedPoly(Comb(x, Forward(a), y, Forward(b)))
  {
    hide Ntt, ZetaTable, Comb, RedPoly, CongSeq, Red;
    RootNode();
    var c := Comb(x, a, y, b);
    NttLinear(ZetaTable(), x, a, y, b, 1, 8);
    ForwardReduced(c);
    ReducedIsItsResidue(Forward(c));
    SameResidues(Forward(c), Comb(x, Forward(a), y, Forward(b)));
  }

  lemma ResiduesOfReduced(a: Poly)
    requires ReducedPoly(a)
    ensures RedPoly(a) == a
  {
    ReducedIsItsResidue(a);
  }

  lemma SumReduced(a: Poly, b: Poly)
    requires |a| == |b| == 256
    ensures ReducedPoly(AddRed(a, b)) && ReducedPoly(SubRed(a, b))
  {
    hide Red;
  }

  lemma BackwardLinear(u: Poly, v: Poly)
    requires ReducedPoly(u) && ReducedPoly(v)
    ensures Backward(AddRed(u, v)) == AddRed(Backward(u), Backward(v))
    ensures Backward(SubRed(u, v)) == SubRed(Backward(u), Backward(v))
  {
    hide Forward, Backward, AddRed, SubRed, RedPoly, Red, ReducedPoly;
    PolyLength(u);
    PolyLength(v);
    var a, b := Backward(u), Backward(v);
    ForwardLinear(a, b);
    ForwardOfBackward(u);
    ForwardOfBackward(v);
    ResiduesOfReduced(u);
    ResiduesOfReduced(v);
    BackwardOfForward(AddRed(a, b));
    BackwardOfForward(SubRed(a, b));
    SumReduced(a, b);
    ResiduesOfReduced(AddRed(a, b));
    ResiduesOfReduced(SubRed(a, b));
  }

  lemma PolyLength(a: Poly)
    requires ReducedPoly(a)
    ensures |a| == 256
  {
  }

  // ---- rows -----------------------------------------------------------------------------------

  /** The accumulated product of a matrix row with a vector, both transformed. */
  ghost function RowAcc(row: seq<Poly>, v: seq<Poly>, n: nat): (r: Poly)
    requires n <= |row| && n <= |v| && AllPolys(row) && AllPolys(v)
    ensures |r| == 256
  {
    if n == 0 then Zero() else AddRed(RowAcc(row, v, n - 1), Pointwise(row[n - 1], v[n - 1]))
  }

  ghost predicate AllPolys(v: seq<Poly>) {
    forall i :: 0 <= i < |v| ==> |v[i]| == 256
  }

  lemma RowAccReduced(row: seq<Poly>, v: seq<Poly>, n: nat)
    requires n <= |row| && n <= |v| && AllPolys(row) && AllPolys(v)
    ensures ReducedPoly(RowAcc(row, v, n))
  {
    hide Red;
  }

  /** p·(a·y) + p·(c·s) in one row position. */
  lemma RowTerm(acc1: int, acc2: int, acc3: int, a: int, y: int, s: int, c: int, z: int)
    requires z == Red(y + Red(c * s)) && acc1 == Red(acc2 + Red(c * acc3))
    ensures Red(acc1 + Red(a * z)) == Red(Red(acc2 + Red(a * y)) + Red(c * Red(acc3 + Red(a * s))))
  {
    hide Red;
    RedAdd(y, c * s);
    RedMul(a, y + c * s);
    RedAdd(acc2, c * acc3);
    RedAdd(acc2 + c * acc3, a * (y + c * s));
    RedAdd(acc2, a * y);
    RedAdd(acc3, a * s);
    RedMul(c, acc3 + a * s);
    RedAdd(acc2 + a * y, c * (acc3 + a * s));
    RowIdentity(acc2, acc3, a, y, s, c);
  }

  lemma RowIdentity(acc2: int, acc3: int, a: int, y: int, s: int, c: int)
    ensures acc2 + c * acc3 + a * (y + c * s) == acc2 + a * y + c * (acc3 + a * s)
  {
    assert a * (c * s) == c * (a * s);
  }

  lemma AddRedAt(a: Poly, b: Poly, i: nat)
    requires |a| == |b| && i < |a|
    ensures AddRed(a, b)[i] == Red(a[i] + b[i]) && SubRed(a, b)[i] == Red(a[i] - b[i])
    ensures Pointwise(a, b)[i] == Red(a[i] * b[i])
  {
    hide Red;
  }

  /** If every z_j is y_j + c·s_j then the row product of z is that of y plus c times that of s. */
  lemma {:induction false} RowLinear(row: seq<Poly>, z: seq<Poly>, y: seq<Poly>, s: seq<Poly>, c: Poly, n: nat)
    requires n <= |row| && n <= |z| == |y| == |s| && |c| == 256
    requires AllPolys(row) && AllPolys(z) && AllPolys(y) && AllPolys(s)
    requires forall j :: 0 <= j < |z| ==> z[j] == AddRed(y[j], Pointwise(c, s[j]))
    ensures RowAcc(row, z, n) == AddRed(RowAcc(row, y, n), Pointwise(c, RowAcc(row, s, n)))
  {
    hide Red, AddRed, Pointwise;
    var p, q, r := RowAcc(row, z, n), RowAcc(row, y, n), RowAcc(row, s, n);
    if n == 0 {
      forall i | 0 <= i < 256
        ensures Zero()[i] == AddRed(Zero(), Pointwise(c, Zero()))[i]
      {
        AddRedAt(c, Zero(), i);
        AddRedAt(Zero(), Pointwise(c, Zero()), i);
        RedSmall(0);
        assert c[i] * 0 == 0;
      }
    } else {
      RowLinear(row, z, y, s, c, n - 1);
      var p', q', r' := RowAcc(row, z, n - 1), RowAcc(row, y, n - 1), RowAcc(row, s, n - 1);
      var a, zj, yj, sj := row[n - 1], z[n - 1], y[n - 1], s[n - 1];
      forall i | 0 <= i < 256
        ensures p[i] == AddRed(q, Pointwise(c, r))[i]
      {
        RowPoint(a, zj, yj, sj, c, p', q', r', i);
      }
    }
  }

  lemma RowPoint(a: Poly, z: Poly, y: Poly, s: Poly, c: Poly, p: Poly, q: Poly, r: Poly, i: nat)
    requires |a| == |z| == |y| == |s| == |c| == |p| == |q| == |r| == 256 && i < 256
    requires z == AddRed(y, Pointwise(c, s)) && p == AddRed(q, Pointwise(c, r))
    ensures AddRed(p, Pointwise(a, z))[i]
            == AddRed(AddRed(q, Pointwise(a, y)), Pointwise(c, AddRed(r, Pointwise(a, s))))[i]
  {
    hide Red, AddRed, Pointwise;
    AddRedAt(c, s, i);
    AddRedAt(y, Pointwise(c, s), i);
    AddRedAt(c, r, i);
    AddRedAt(q, Pointwise(c, r), i);
    AddRedAt(a, z, i);
    AddRedAt(p, Pointwise(a, z), i);
    AddRedAt(a, y, i);
    AddRedAt(q, Pointwise(a, y), i);
    AddRedAt(a, s, i);
    AddRedAt(r, Pointwise(a, s), i);
    AddRedAt(c, AddRed(r, Pointwise(a, s)), i);
    AddRedAt(AddRed(q, Pointwise(a, y)), Pointwise(c, AddRed(r, Pointwise(a, s))), i);
    RowTerm(p[i], q[i], r[i], a[i], y[i], s[i], c[i], z[i]);
  }

  // ---- the equation behind verification ----------------------------------------------------------

  /** (a + c·b) - c·(b + s - t) = a - c·s + c·t, in one position. */
  lemma VerifyTerm(a: int, b: int, c: int, s: int, t: int)
    ensures Red(Red(a + Red(c * b)) - Red(c * Red(Red(b + s) - t)))
            == Red(Red(a - Red(c * s)) + Red(c * t))
  {
    hide Red;
    RedAdd(a, c * b);
    RedAdd(b + s, t);
    RedMul(c, b + s - t);
    RedAdd(a + c * b, c * (b + s - t));
    RedAdd(a, c * s);
    RedAdd(a - c * s, c * t);
    assert c * (b + s - t) == c * b + c * s - c * t;
  }

  lemma VerifyPoint(a: Poly, b: Poly, c: Poly, s: Poly, t: Poly, i: nat)
    requires |a| == |b| == |c| == |s| == |t| == 256 && i < 256
    ensures SubRed(AddRed(a, Pointwise(c, b)), Pointwise(c, SubRed(AddRed(b, s), t)))[i]
            == AddRed(SubRed(a, Pointwise(c, s)), Pointwise(c, t))[i]
  {
    hide Red, AddRed, SubRed, Pointwise;
    AddRedAt(c, b, i);
    AddRedAt(a, Pointwise(c, b), i);
    AddRedAt(b, s, i);
    AddRedAt(AddRed(b, s), t, i);
    AddRedAt(c, SubRed(AddRed(b, s), t), i);
    AddRedAt(AddRed(a, Pointwise(c, b)), Pointwise(c, SubRed(AddRed(b, s), t)), i);
    AddRedAt(c, s, i);
    AddRedAt(a, Pointwise(c, s), i);
    AddRedAt(c, t, i);
    AddRedAt(SubRed(a, Pointwise(c, s)), Pointwise(c, t), i);
    VerifyTerm(a[i], b[i], c[i], s[i], t[i]);
  }

  lemma VerifyEquation(a: Poly, b: Poly, c: Poly, s: Poly, t: Poly)
    requires |a| == |b| == |c| == |s| == |t| == 256
    ensures SubRed(AddRed(a, Pointwise(c, b)), Pointwise(c, SubRed(AddRed(b, s), t)))
            == AddRed(SubRed(a, Pointwise(c, s)), Pointwise(c, t))
  {
    hide Red, AddRed, SubRed, Pointwise;
    forall i | 0 <= i < 256
      ensures SubRed(AddRed(a, Pointwise(c, b)), Pointwise(c, SubRed(AddRed(b, s), t)))[i]
              == AddRed(SubRed(a, Pointwise(c, s)), Pointwise(c, t))[i]
    {
      VerifyPoint(a, b, c, s, t, i);
    }
  }
}
