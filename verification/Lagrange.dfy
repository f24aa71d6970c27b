/** Lagrange interpolation over arbitrary distinct nodes, and its closed form at roots of unity. */
module Lagrange {
  import opened Fp
  import opened Prime
  import opened Poly
  import opened Dft

  // ---------- products over the nodes ----------

  /** The product of (x - xs[j]) over j < m, leaving out j == i. */
  function ProdBut(xs: seq<Elt>, i: int, m: nat, x: Elt): Elt
    requires m <= |xs|
  {
    if m == 0 then 1
    else if m - 1 == i then ProdBut(xs, i, m - 1, x)
    else Mul(ProdBut(xs, i, m - 1, x), Sub(x, xs[m - 1]))
  }

  lemma {:induction false} ProdButZero(xs: seq<Elt>, i: int, m: nat, l: nat)
    requires l < m <= |xs| && l != i
    ensures ProdBut(xs, i, m, xs[l]) == 0
  {
    hide Mul, Sub;
    if m - 1 == l {
      SubNonzero(xs[l], xs[l]);
      MulOne(ProdBut(xs, i, m - 1, xs[l]));
    } else {
      ProdButZero(xs, i, m - 1, l);
      MulOne(Sub(xs[l], xs[m - 1]));
    }
  }

  lemma {:induction false} ProdButNonzero(xs: seq<Elt>, i: int, m: nat, x: Elt)
    requires m <= |xs|
    requires forall j :: 0 <= j < m && j != i ==> xs[j] != x
    ensures ProdBut(xs, i, m, x) != 0
  {
    hide Mul, Sub;
    if m > 0 {
      ProdButNonzero(xs, i, m - 1, x);
      SubNonzero(x, xs[m - 1]);
      var p := ProdBut(xs, i, m - 1, x);
      if m - 1 != i && Mul(p, Sub(x, xs[m - 1])) == 0 { NoZeroDivisors(p, Sub(x, xs[m - 1])); }
    }
  }

  /** The coefficients of (x - r) * c. */
  function MulLinear(c: seq<Elt>, r: Elt): (q: seq<Elt>)
    ensures |q| == |c| + 1
  {
    VAdd([0] + c, VScale(Neg(r), c) + [0])
  }

  lemma EvalMulLinear(c: seq<Elt>, r: Elt, x: Elt)
    ensures Eval(MulLinear(c, r), x) == Mul(Eval(c, x), Sub(x, r))
  {
    hide Add, Mul, Sub, Neg, VAdd, VScale;
    EvalAdd([0] + c, VScale(Neg(r), c) + [0], x);
    assert ([0] + c)[1..] == c;
    EvalScale(Neg(r), c, x);
    assert [0] == Zeros(1);
    EvalPad(VScale(Neg(r), c), 1, x);
    LinearRing(Eval(c, x), r, x);
  }

  lemma LinearRing(e: Elt, r: Elt, x: Elt)
    ensures Add(Add(0, Mul(x, e)), Mul(Neg(r), e)) == Mul(e, Sub(x, r))
  {
    hide *;
    Ring();
    AddZero(Mul(x, e));
  }

  /** The coefficients of the product in ProdBut. */
  function Basis(xs: seq<Elt>, i: nat, m: nat): (c: seq<Elt>)
    requires m <= |xs|
    ensures |c| == if i < m then m else m + 1
  {
    if m == 0 then [1]
    else if m - 1 == i then Basis(xs, i, m - 1)
    else MulLinear(Basis(xs, i, m - 1), xs[m - 1])
  }

  lemma {:induction false} EvalBasis(xs: seq<Elt>, i: nat, m: nat, x: Elt)
    requires m <= |xs|
    ensures Eval(Basis(xs, i, m), x) == ProdBut(xs, i, m, x)
  {
    hide Add, Mul, Sub, MulLinear;
    if m == 0 {
      assert Eval([1], x) == Add(1, Mul(x, 0));
      MulOne(x);
      AddZero(1);
    } else {
      EvalBasis(xs, i, m - 1, x);
      if m - 1 != i { EvalMulLinear(Basis(xs, i, m - 1), xs[m - 1], x); }
    }
  }

  lemma {:induction false} BasisMonic(xs: seq<Elt>, i: nat, m: nat)
    requires m <= |xs|
    ensures var c := Basis(xs, i, m); |c| > 0 && c[|c| - 1] == 1
  {
    hide Add, Mul, Neg, VAdd, VScale, MulLinear;
    if m > 0 {
      BasisMonic(xs, i, m - 1);
      if m - 1 != i { LinearMonic(Basis(xs, i, m - 1), xs[m - 1]); }
    }
  }

  lemma LinearMonic(c: seq<Elt>, r: Elt)
    requires |c| > 0
    ensures MulLinear(c, r)[|c|] == c[|c| - 1]
  {
    hide Add, Mul, Neg, VAdd, VScale;
    AddZero(c[|c| - 1]);
  }

  // ---------- the interpolation formula ----------

  /** Barycentric denominator of node i. */
  function Denom(xs: seq<Elt>, i: nat): Elt
    requires i < |xs|
  {
    ProdBut(xs, i, |xs|, xs[i])
  }

  /** The first m terms of the Lagrange formula for the values ys at the nodes xs, evaluated at x. */
  function LagrangeSum(xs: seq<Elt>, ys: seq<Elt>, m: nat, x: Elt): Elt
    requires m <= |xs| == |ys|
  {
    if m == 0 then 0
    else Add(LagrangeSum(xs, ys, m - 1, x),
             Mul(Mul(ys[m - 1], Inv(Denom(xs, m - 1))), ProdBut(xs, m - 1, |xs|, x)))
  }

  function LagrangePoly(xs: seq<Elt>, ys: seq<Elt>, m: nat): (c: seq<Elt>)
    requires m <= |xs| == |ys|
    ensures |c| == |xs|
  {
    if m == 0 then Zeros(|xs|)
    else VAdd(LagrangePoly(xs, ys, m - 1), VScale(Mul(ys[m - 1], Inv(Denom(xs, m - 1))), Basis(xs, m - 1, |xs|)))
  }

  lemma {:induction false} EvalLagrange(xs: seq<Elt>, ys: seq<Elt>, m: nat, x: Elt)
    requires m <= |xs| == |ys|
    ensures Eval(LagrangePoly(xs, ys, m), x) == LagrangeSum(xs, ys, m, x)
  {
    hide Add, Mul, Inv, Eval, VAdd, VScale, Basis, ProdBut, Denom;
    if m == 0 {
      EvalZeros(|xs|, x);
    } else {
      EvalLagrange(xs, ys, m - 1, x);
      var s := Mul(ys[m - 1], Inv(Denom(xs, m - 1)));
      EvalAdd(LagrangePoly(xs, ys, m - 1), VScale(s, Basis(xs, m - 1, |xs|)), x);
      EvalScale(s, Basis(xs, m - 1, |xs|), x);
      EvalBasis(xs, m - 1, |xs|, x);
    }
  }

  lemma {:induction false} LagrangeAtNode(xs: seq<Elt>, ys: seq<Elt>, m: nat, l: nat)
    requires m <= |xs| == |ys| && l < |xs| && Distinct(xs)
    ensures LagrangeSum(xs, ys, m, xs[l]) == if l < m then ys[l] else 0
  {
    hide Add, Mul, Inv, ProdBut;
    if m > 0 {
      LagrangeAtNode(xs, ys, m - 1, l);
      var i := m - 1;
      var s := Mul(ys[i], Inv(Denom(xs, i)));
      if i == l {
        DenomNonzero(xs, l);
        FermatInverse(Denom(xs, l));
        MulAssoc(ys[l], Inv(Denom(xs, l)), Denom(xs, l));
        MulComm(Inv(Denom(xs, l)), Denom(xs, l));
        MulOne(ys[l]);
        AddZero(ys[l]);
      } else {
        ProdButZero(xs, i, |xs|, l);
        MulOne(s);
        AddZero(if l < i then ys[l] else 0);
      }
    }
  }

  lemma DenomNonzero(xs: seq<Elt>, i: nat)
    requires i < |xs| && Distinct(xs)
    ensures Denom(xs, i) != 0
  {
    ProdButNonzero(xs, i, |xs|, xs[i]);
  }

  /** A polynomial of degree below |xs| is its own Lagrange interpolant, at every point. */
  lemma LagrangeFormula(xs: seq<Elt>, c: seq<Elt>, ys: seq<Elt>, x: Elt)
    requires |c| == |xs| == |ys| && Distinct(xs)
    requires forall i :: 0 <= i < |xs| ==> Eval(c, xs[i]) == ys[i]
    ensures Eval(c, x) == LagrangeSum(xs, ys, |xs|, x)
    ensures c == LagrangePoly(xs, ys, |xs|)
  {
    hide Eval, LagrangeSum, LagrangePoly;
    var q := LagrangePoly(xs, ys, |xs|);
    forall i | 0 <= i < |xs| ensures Eval(q, xs[i]) == Eval(c, xs[i]) {
      EvalLagrange(xs, ys, |xs|, xs[i]);
      LagrangeAtNode(xs, ys, |xs|, i);
    }
    Unique(c, q, xs);
    EvalLagrange(xs, ys, |xs|, x);
  }

  // ---------- roots of unity ----------

  function Unit(n: nat, i: nat): (r: seq<Elt>)
    requires i < n
    ensures |r| == n
  {
    Zeros(i) + [1] + Zeros(n - 1 - i)
  }

  lemma EvalUnit(n: nat, i: nat, x: Elt)
    requires i < n
    ensures Eval(Unit(n, i), x) == Pow(x, i)
  {
    hide Add, Mul, Pow;
    EvalPad(Zeros(i) + [1], n - 1 - i, x);
    EvalAppend(Zeros(i), 1, x);
    EvalZeros(i, x);
    MulOne(Pow(x, i));
    AddZero(Pow(x, i));
  }

  /** At the n-th roots of unity the barycentric weight of node i is w^i / n. */
  lemma RootWeight(w: Elt, n: nat, i: nat)
    requires IsRoot(w, n) && i < n
    ensures Inv(Denom(Nodes(w, n), i)) == Mul(Pow(w, i), Inv(n))
  {
    hide Mul, Pow, Eval, Denom, Inv, VScale, InvTransform, Transform, Basis, ProdBut;
    var xs := Nodes(w, n);
    var d := Inv(Denom(xs, i));
    var c := VScale(d, Basis(xs, i, n));
    var e := InvTransform(Unit(n, i), w);
    NodesDistinct(w, n);
    forall l | 0 <= l < n ensures Eval(c, xs[l]) == Eval(e, xs[l]) { UnitValues(w, n, i, l); }
    Unique(c, e, xs);
    BasisMonic(xs, i, n);
    MulOne(d);
    LeadingOfUnit(w, n, i);
  }

  lemma UnitValues(w: Elt, n: nat, i: nat, l: nat)
    requires IsRoot(w, n) && i < n && l < n
    ensures var xs := Nodes(w, n);
      Eval(VScale(Inv(Denom(xs, i)), Basis(xs, i, n)), xs[l]) == Eval(InvTransform(Unit(n, i), w), xs[l])
  {
    hide Mul, Pow, Eval, Inv, VScale, InvTransform, Basis, ProdBut;
    var xs := Nodes(w, n);
    TransformAfterInv(Unit(n, i), w);
    assert Eval(InvTransform(Unit(n, i), w), xs[l]) == Transform(InvTransform(Unit(n, i), w), w, n)[l];
    EvalScale(Inv(Denom(xs, i)), Basis(xs, i, n), xs[l]);
    EvalBasis(xs, i, n, xs[l]);
    if i == l {
      NodesDistinct(w, n);
      DenomNonzero(xs, i);
      FermatInverse(Denom(xs, i));
      MulComm(Denom(xs, i), Inv(Denom(xs, i)));
    } else {
      ProdButZero(xs, i, n, l);
      MulOne(Inv(Denom(xs, i)));
    }
  }

  lemma LeadingOfUnit(w: Elt, n: nat, i: nat)
    requires IsRoot(w, n) && i < n
    ensures InvTransform(Unit(n, i), w)[n - 1] == Mul(Pow(w, i), Inv(n))
  {
    hide Mul, Pow, Eval, Inv, VScale, Transform, Unit;
    var v := Inv(w);
    EvalUnit(n, i, Pow(v, n - 1));
    InverseFacts(w, n);
    InverseRoot(w, v, n);
    PowSucc(v, n - 1);
    Cancel2(v, Pow(v, n - 1), w);
    MulComm(Pow(w, i), Inv(n));
  }

  lemma Cancel2(v: Elt, a: Elt, b: Elt)
    requires Mul(v, a) == 1 && Mul(b, v) == 1
    ensures a == b
  {
    hide *;
    MulComm(b, v);
    if v == 0 {
      MulOne(a);
      assert false;
    }
    Cancel(v, a, b);
  }
}
