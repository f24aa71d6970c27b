/** The Lagrange-basis algorithms of the proof system, as loops over field words. */
module LagrangeBasis {
  import opened Fp
  import opened Prime
  import opened Word64
  import opened Poly
  import opened Dft
  import opened Lagrange
  import opened Accumulators
  import F = Field64

  lemma MulIsFp(a: Elt, b: Elt)
    ensures F.Mul(a, b) == Mul(a, b)
  {}

  lemma EvalNone(c: seq<Elt>, x: Elt)
    requires |c| == 0
    ensures Eval(c, x) == 0
  {}

  method NextPowerOf2(n: nat) returns (p: nat)
    ensures IsPow2(p) && p >= n
    ensures forall q: nat :: IsPow2(q) && q >= n ==> p <= q
  {
    if n <= 1 { return 1; }
    p := 1;
    while p < n
      invariant IsPow2(p) && p < 2 * n
      invariant forall q: nat :: IsPow2(q) && q >= n ==> p <= q
      decreases 2 * n - p
    {
      forall q: nat | IsPow2(q) && q >= n ensures 2 * p <= q { Pow2Gap(p, q); }
      p := p * 2;
    }
  }

  lemma {:induction false} Pow2Gap(p: nat, q: nat)
    requires IsPow2(p) && IsPow2(q) && p < q
    ensures 2 * p <= q
  {
    if p > 1 { Pow2Gap(p / 2, q / 2); }
  }

  lemma HalveDouble(m: nat, p: nat)
    requires m % 2 == 0
    ensures m * p == m / 2 * (2 * p)
  {
    assert m == m / 2 * 2;
  }

  method Log2(n: nat) returns (l: nat)
    requires IsPow2(n)
    ensures Pow2(l) == n
  {
    l := 0;
    var m: nat := n;
    while m > 1
      invariant IsPow2(m) && m * Pow2(l) == n
      decreases m
    {
      HalveDouble(m, Pow2(l));
      m := m / 2;
      l := l + 1;
    }
  }

  method PrincipalRoot(n: nat) returns (w: Elt)
    requires Size(n)
    ensures w == Root(n)
  {
    hide Pow;
    var r := F.NthRoot(n);
    w := r.value;
  }

  /** The powers W_n^0, ..., W_n^(n-1). */
  method NthRootPowers(n: nat) returns (out: seq<Elt>)
    requires Size(n)
    ensures out == Nodes(Root(n), n)
  {
    hide Mul, Pow, F.Mul, Root;
    var root := PrincipalRoot(n);
    out := [];
    var cur: Elt := 1;
    PowSucc(root, 0);
    for i := 0 to n
      invariant cur == Pow(root, i)
      invariant |out| == i && forall j :: 0 <= j < i ==> out[j] == Pow(root, j)
    {
      out := out + [cur];
      PowSucc(root, i);
      MulComm(cur, root);
      cur := F.Mul(cur, root);
    }
  }

  /** Horner's method. */
  method EvalMonomial(coeffs: seq<Elt>, x: Elt) returns (acc: Elt)
    ensures acc == Eval(coeffs, x)
  {
    hide Mul, Add, F.Mul, F.Add;
    acc := 0;
    for i := |coeffs| downto 0
      invariant acc == Eval(coeffs[i..], x)
    {
      assert coeffs[i..][1..] == coeffs[i + 1..];
      MulComm(acc, x);
      AddComm(Mul(acc, x), coeffs[i]);
      acc := F.Add(F.Mul(acc, x), coeffs[i]);
    }
    assert coeffs[0..] == coeffs;
  }

  /** The transform at W_n^i, or at the odd powers W_2n^(2i+1) when setS. */
  method Ntt(coeffs: seq<Elt>, n: nat, setS: bool) returns (out: seq<Elt>)
    requires Size(n) && (setS ==> Size(2 * n))
    ensures |out| == n
    ensures !setS ==> out == Transform(coeffs, Root(n), n)
    ensures setS ==> forall i :: 0 <= i < n ==> out[i] == Eval(coeffs, Pow(Root(2 * n), 2 * i + 1))
  {
    hide Mul, Pow, F.Mul, Root, Eval;
    var wn := PrincipalRoot(n);
    var s: Elt := 1;
    if setS {
      s := PrincipalRoot(2 * n);
      RootSquare(n);
    }
    PowSucc(wn, 0);
    PowSucc(s, 0);
    MulOne(s);
    out := [];
    var point := s;
    for i := 0 to n
      invariant |out| == i
      invariant point == if setS then Pow(s, 2 * i + 1) else Pow(wn, i)
      invariant !setS ==> forall j :: 0 <= j < i ==> out[j] == Eval(coeffs, Pow(wn, j))
      invariant setS ==> forall j :: 0 <= j < i ==> out[j] == Eval(coeffs, Pow(s, 2 * j + 1))
    {
      var y := EvalMonomial(coeffs, point);
      out := out + [y];
      PowSucc(wn, i);
      PowSucc(s, 2 * i + 1);
      PowSucc(s, 2 * i + 2);
      MulComm(point, wn);
      if setS { MulAssoc(s, s, point); }
      point := F.Mul(point, wn);
    }
  }

  /** The coefficients of the polynomial with the given values at W_n^i. */
  method InvNtt(evals: seq<Elt>, n: nat) returns (coeffs: seq<Elt>)
    requires Size(n) && n <= |evals|
    ensures coeffs == InvTransform(evals[..n], Root(n))
  {
    hide Mul, Add, Pow, F.Mul, F.Add, F.New, Root, Eval;
    var wn := PrincipalRoot(n);
    var wnInv := F.Inv(wn);
    var nInv := F.Inv(F.New(n));
    var e := evals[..n];
    coeffs := [];
    for j := 0 to n
      invariant |coeffs| == j
      invariant forall l :: 0 <= l < j ==> coeffs[l] == Mul(nInv, Eval(e, Pow(wnInv, l)))
    {
      var acc: Elt := 0;
      var w: Elt := 1;
      var wj := F.Pow(wnInv, j);
      PowSucc(wj, 0);
      EvalNone(e[..0], wj);
      for i := 0 to n
        invariant w == Pow(wj, i)
        invariant acc == Eval(e[..i], wj)
      {
        assert e[..i + 1] == e[..i] + [e[i]];
        EvalAppend(e[..i], e[i], wj);
        PowSucc(wj, i);
        MulComm(w, wj);
        acc := F.Add(acc, F.Mul(evals[i], w));
        w := F.Mul(w, wj);
      }
      assert e[..n] == e;
      MulComm(acc, nInv);
      coeffs := coeffs + [F.Mul(acc, nInv)];
    }
    assert coeffs == InvTransform(e, wn);
  }

  /** The values of the same polynomial at the 2n-th roots, in order. */
  method DoubleEvaluations(p: seq<Elt>) returns (out: seq<Elt>)
    requires Size(|p|) && Size(2 * |p|)
    ensures out == Transform(InvTransform(p, Root(|p|)), Root(2 * |p|), 2 * |p|)
  {
    hide Mul, Pow, Root, Eval, InvTransform;
    var n := |p|;
    assert p[..n] == p;
    var coeffs := InvNtt(p, n);
    var odd := Ntt(coeffs, n, true);
    RootIsRoot(n);
    TransformAfterInv(p, Root(n));
    var a := new Elt[2 * n];
    for i := 0 to n
      invariant forall j :: 0 <= j < 2 * i ==> a[j] == Eval(coeffs, Pow(Root(2 * n), j))
    {
      EvenRootPower(n, i);
      assert p[i] == Transform(coeffs, Root(n), n)[i];
      a[2 * i] := p[i];
      a[2 * i + 1] := odd[i];
    }
    out := a[..];
    assert out == Transform(coeffs, Root(2 * n), 2 * n);
  }

  lemma EvenRootPower(n: nat, i: nat)
    requires Size(n) && Size(2 * n)
    ensures Pow(Root(2 * n), 2 * i) == Pow(Root(n), i)
  {
    hide Mul, Pow, Root;
    var s := Root(2 * n);
    RootSquare(n);
    PowSucc(s, 0);
    PowSucc(s, 1);
    MulOne(s);
    PowPow(s, 2, i);
  }

  /** Values of the product polynomial at the 2n-th roots. */
  method PolyMul(p: seq<Elt>, q: seq<Elt>) returns (out: seq<Elt>)
    requires |p| == |q| && Size(|p|) && Size(2 * |p|)
    ensures out == Transform(PMul(InvTransform(p, Root(|p|)), InvTransform(q, Root(|q|))), Root(2 * |p|), 2 * |p|)
  {
    hide Mul, F.Mul, Pow, Root, Eval, InvTransform, PMul;
    var p2 := DoubleEvaluations(p);
    var q2 := DoubleEvaluations(q);
    ghost var a, b := InvTransform(p, Root(|p|)), InvTransform(q, Root(|q|));
    out := [];
    for i := 0 to |p2|
      invariant |out| == i
      invariant forall j :: 0 <= j < i ==> out[j] == Eval(PMul(a, b), Pow(Root(2 * |p|), j))
    {
      EvalPMul(a, b, Pow(Root(2 * |p|), i));
      out := out + [F.Mul(p2[i], q2[i])];
    }
  }

  /** Takes node number i into every accumulator of the batch. */
  method AddNode(polys: seq<seq<Elt>>, u: array<Elt>, ghost nodes: seq<Elt>, i: nat, ghost x: Elt, d: Elt, t: Elt)
    requires u.Length == |polys| && 0 < i < |nodes|
    requires d == Sub(nodes[i], x) && t == Mul(KAcc(nodes, i, x), nodes[i])
    requires forall l :: 0 <= l < |polys| ==> u[l] == UAcc(polys[l], nodes, i, x)
    modifies u
    ensures forall l :: 0 <= l < |polys| ==> u[l] == UAcc(polys[l], nodes, i + 1, x)
  {
    hide Mul, Add, Sub, F.Mul, F.Add, UAcc, KAcc;
    for j := 0 to |polys|
      invariant forall l :: 0 <= l < j ==> u[l] == UAcc(polys[l], nodes, i + 1, x)
      invariant forall l :: j <= l < |polys| ==> u[l] == UAcc(polys[l], nodes, i, x)
    {
      var p := polys[j];
      UAccNext(p, nodes, i, x);
      u[j] := F.Mul(u[j], d);
      if i < |p| {
        u[j] := F.Add(u[j], F.Mul(t, p[i]));
      }
    }
  }

  /** The final factor turns every accumulator into an evaluation. */
  method ScaleAll(polys: seq<seq<Elt>>, u: array<Elt>, ghost nodes: seq<Elt>, ghost x: Elt, factor: Elt)
    requires u.Length == |polys| && |polys| > 0 && Size(|polys[0]|) && nodes == Nodes(Root(|polys[0]|), |polys[0]|)
    requires factor == if (|polys[0]| - 1) % 2 == 1 then Neg(Inv(|polys[0]|)) else Inv(|polys[0]|)
    requires forall l :: 0 <= l < |polys| ==> u[l] == UAcc(polys[l], nodes, |polys[0]|, x)
    modifies u
    ensures forall l :: 0 <= l < |polys| ==> u[l] == Eval(InvTransform(Fit(polys[l], |polys[0]|), Root(|polys[0]|)), x)
  {
    hide Mul, F.Mul, Pow, Root, Eval, InvTransform, UAcc, Inv, Neg;
    var n := |polys[0]|;
    RootIsRoot(n);
    for j := 0 to |polys|
      invariant forall l :: 0 <= l < j ==> u[l] == Eval(InvTransform(Fit(polys[l], n), Root(n)), x)
      invariant forall l :: j <= l < |polys| ==> u[l] == UAcc(polys[l], nodes, n, x)
    {
      BatchedIsInterpolation(polys[j], Root(n), n, x);
      u[j] := F.Mul(u[j], factor);
    }
  }

  /** Evaluates every polynomial of the batch at x in one pass over the nodes. */
  method PolyEvalBatched(polys: seq<seq<Elt>>, x: Elt) returns (out: seq<Elt>)
    requires |polys| > 0 && Size(|polys[0]|)
    requires forall j :: 0 <= j < |polys| ==> |polys[j]| > 0
    ensures |out| == |polys|
    ensures forall j :: 0 <= j < |polys| ==>
      out[j] == Eval(InvTransform(Fit(polys[j], |polys[0]|), Root(|polys[0]|)), x)
  {
    hide Mul, Add, Sub, Neg, F.Mul, F.Add, F.Sub, F.Neg, F.New, Pow, Root, Eval, InvTransform;
    var n := |polys[0]|;
    var nodes := NthRootPowers(n);
    var k: Elt := 1;
    var u := new Elt[|polys|];
    for j := 0 to |polys|
      invariant forall l :: 0 <= l < j ==> u[l] == polys[l][0]
    {
      u[j] := polys[j][0];
    }
    var d := F.Sub(nodes[0], x);
    forall j | 0 <= j < |polys|
      ensures u[j] == UAcc(polys[j], nodes, 1, x)
    {
      UAccFirst(polys[j], nodes, Root(n), n, x);
    }
    for i := 1 to n
      invariant k == KAcc(nodes, i - 1, x) && d == Sub(nodes[i - 1], x)
      invariant forall l :: 0 <= l < |polys| ==> u[l] == UAcc(polys[l], nodes, i, x)
    {
      k := F.Mul(k, d);
      d := F.Sub(nodes[i], x);
      var t := F.Mul(k, nodes[i]);
      AddNode(polys, u, nodes, i, x, d, t);
    }
    var factor := F.Inv(F.New(n));
    if (n - 1) % 2 == 1 {
      factor := F.Neg(factor);
    }
    ScaleAll(polys, u, nodes, x, factor);
    out := u[..];
  }

  lemma UAccFirst(p: seq<Elt>, xs: seq<Elt>, w: Elt, n: nat, x: Elt)
    requires n > 0 && |p| > 0 && xs == Nodes(w, n)
    ensures UAcc(p, xs, 1, x) == p[0]
  {
    hide Mul, Add, Sub;
    PowSucc(w, 0);
    assert UAcc(p, xs, 0, x) == 0 && KAcc(xs, 0, x) == 1;
    MulOne(Sub(xs[0], x));
    MulOne(1);
    MulOne(p[0]);
    AddZero(p[0]);
  }

  lemma UAccNext(p: seq<Elt>, xs: seq<Elt>, i: nat, x: Elt)
    requires 0 < i < |xs|
    ensures KAcc(xs, i, x) == Mul(KAcc(xs, i - 1, x), Sub(xs[i - 1], x))
    ensures var u := Mul(UAcc(p, xs, i, x), Sub(xs[i], x));
      UAcc(p, xs, i + 1, x) == if i < |p| then Add(u, Mul(Mul(KAcc(xs, i, x), xs[i]), p[i])) else u
  {
    hide Mul, Add, Sub;
    var u := Mul(UAcc(p, xs, i, x), Sub(xs[i], x));
    MulOne(Mul(KAcc(xs, i, x), xs[i]));
    AddZero(u);
  }

  method PolyEval(p: seq<Elt>, x: Elt) returns (y: Elt)
    requires Size(|p|)
    ensures y == Eval(InvTransform(p, Root(|p|)), x)
  {
    var r := PolyEvalBatched([p], x);
    assert Fit(p, |p|) == p;
    y := r[0];
  }

  /** The values at all n-th roots of the polynomial of degree below |p| with values p at the first ones. */
  function Extended(p: seq<Elt>, n: nat): (r: seq<Elt>)
    requires Size(n) && |p| <= n
    ensures |r| == n
  {
    Transform(LagrangePoly(Nodes(Root(n), n)[..|p|], p, |p|), Root(n), n)
  }

  lemma DistinctPrefix(xs: seq<Elt>, k: nat)
    requires Distinct(xs) && k <= |xs|
    ensures Distinct(xs[..k])
  {}

  /** Extension recovers every dropped value: it does not matter which polynomial the values came from. */
  lemma ExtendedRecovers(c: seq<Elt>, p: seq<Elt>, n: nat)
    requires Size(n) && |c| <= |p| <= n
    requires forall i :: 0 <= i < |p| ==> p[i] == Eval(c, Pow(Root(n), i))
    ensures Extended(p, n) == Transform(c, Root(n), n)
  {
    hide Mul, Add, Pow, Eval, Root, LagrangePoly, LagrangeSum;
    var xs := Nodes(Root(n), n);
    RootIsRoot(n);
    NodesDistinct(Root(n), n);
    DistinctPrefix(xs, |p|);
    var c' := c + Zeros(|p| - |c|);
    forall i | 0 <= i < |p| ensures Eval(c', xs[..|p|][i]) == p[i] { EvalPad(c, |p| - |c|, xs[i]); }
    LagrangeFormula(xs[..|p|], c', p, 0);
    forall i | 0 <= i < n
      ensures Eval(c', Pow(Root(n), i)) == Eval(c, Pow(Root(n), i))
    {
      EvalPad(c, |p| - |c|, Pow(Root(n), i));
    }
  }

  /** The product of (x[i] - x[j]) over j < m, j != i; every j < m when i is out of range. */
  method NodeProduct(x: seq<Elt>, i: nat, m: nat) returns (prod: Elt)
    requires i < |x| && m <= |x|
    ensures prod == ProdBut(x, i, m, x[i])
  {
    hide Mul, Sub, F.Mul, F.Sub, ProdBut;
    prod := 1;
    ProdButEmpty(x, i, x[i]);
    for j := 0 to m
      invariant prod == ProdBut(x, i, j, x[i])
    {
      ProdButNext(x, i, j, x[i]);
      if i != j {
        prod := F.Mul(prod, F.Sub(x[i], x[j]));
      }
    }
  }

  /** The sum of p[i] / w[i] as one fraction over a running common denominator. */
  method CommonFraction(p: seq<Elt>, w: array<Elt>) returns (yNum: Elt, yDen: Elt)
    requires |p| <= w.Length
    requires forall i :: 0 <= i < |p| ==> w[i] != 0
    ensures yDen != 0 && yNum == Mul(yDen, FracSum(p, w[..], |p|))
  {
    hide Mul, Add, F.Mul, F.Add, Inv;
    yNum, yDen := 0, 1;
    MulOne(1);
    for i := 0 to |p|
      invariant yDen != 0 && yNum == Mul(yDen, FracSum(p, w[..], i))
    {
      FracStep(yNum, yDen, FracSum(p, w[..], i), p[i], w[i]);
      yNum := F.Add(F.Mul(yNum, w[i]), F.Mul(yDen, p[i]));
      yDen := F.Mul(yDen, w[i]);
    }
  }

  /** The weight of each of the first m nodes: its product of differences to the others. */
  method InitialWeights(x: seq<Elt>, w: array<Elt>, m: nat)
    requires m <= |x| && m <= w.Length
    modifies w
    ensures forall l :: 0 <= l < m ==> w[l] == ProdBut(x, l, m, x[l])
  {
    hide ProdBut;
    for i := 0 to m
      invariant forall l :: 0 <= l < i ==> w[l] == ProdBut(x, l, m, x[l])
    {
      w[i] := NodeProduct(x, i, m);
    }
  }

  /** Takes node k into the weights of the nodes before it; over distinct nodes none becomes zero. */
  method MultiplyIn(x: seq<Elt>, w: array<Elt>, k: nat)
    requires k < |x| && k <= w.Length && Distinct(x)
    requires forall l :: 0 <= l < k ==> w[l] == ProdBut(x, l, k, x[l])
    modifies w
    ensures forall l :: 0 <= l < k ==> w[l] == ProdBut(x, l, k + 1, x[l]) && w[l] != 0
  {
    hide Mul, Sub, F.Mul, F.Sub, ProdBut;
    for i := 0 to k
      invariant forall l :: 0 <= l < i ==> w[l] == ProdBut(x, l, k + 1, x[l]) && w[l] != 0
      invariant forall l :: i <= l < k ==> w[l] == ProdBut(x, l, k, x[l])
    {
      ProdButNext(x, i, k, x[i]);
      ProdButNonzero(x, i, k + 1, x[i]);
      w[i] := F.Mul(w[i], F.Sub(x[i], x[k]));
    }
  }

  method ExtendValuesToPowerOf2(p0: seq<Elt>, n: nat) returns (p: seq<Elt>)
    requires Size(n) && |p0| <= n
    ensures p == Extended(p0, n) && p[..|p0|] == p0
  {
    hide Mul, Add, Sub, Neg, Inv, F.Mul, F.Sub, F.Neg, Pow, Root, Eval, LagrangePoly, LagrangeSum, ProdBut, FracSum;
    var x := NthRootPowers(n);
    RootIsRoot(n);
    NodesDistinct(Root(n), n);
    var initLen := |p0|;
    ghost var c := LagrangePoly(x[..initLen], p0, initLen);
    forall i | 0 <= i < initLen ensures p0[i] == Eval(c, x[i]) { InterpolantValue(x, p0, i); }
    var w := new Elt[n];
    p := p0;
    InitialWeights(x, w, initLen);
    for k := initLen to n
      invariant |p| == k && p0 <= p
      invariant forall l :: 0 <= l < k ==> p[l] == Eval(c, x[l])
      invariant forall l :: 0 <= l < k ==> w[l] == ProdBut(x, l, k, x[l])
    {
      MultiplyIn(x, w, k);
      ghost var ws := w[..];
      var yNum, yDen := CommonFraction(p, w);
      w[k] := NodeProduct(x, k, k);
      ProdButAll(x, k, k, x[k]);
      ProdButNext(x, k, k, x[k]);
      var yInv := F.Inv(yDen);
      QuotientValue(Neg(w[k]), yDen, FracSum(p, ws, k));
      ExtensionStep(x, c, p, ws, k);
      p := p + [F.Mul(F.Mul(F.Neg(w[k]), yNum), yInv)];
    }
    assert p == Transform(c, Root(n), n);
  }

  lemma InterpolantValue(x: seq<Elt>, p: seq<Elt>, i: nat)
    requires i < |p| <= |x| && Distinct(x)
    ensures Eval(LagrangePoly(x[..|p|], p, |p|), x[i]) == p[i]
  {
    hide Eval, LagrangePoly, LagrangeSum;
    DistinctPrefix(x, |p|);
    EvalLagrange(x[..|p|], p, |p|, x[i]);
    LagrangeAtNode(x[..|p|], p, |p|, i);
    assert x[..|p|][i] == x[i];
  }

  lemma ProdButEmpty(xs: seq<Elt>, i: int, x: Elt)
    ensures ProdBut(xs, i, 0, x) == 1
  {}

  lemma ProdButNext(xs: seq<Elt>, i: int, m: nat, x: Elt)
    requires m < |xs|
    ensures ProdBut(xs, i, m + 1, x) ==
      if i == m then ProdBut(xs, i, m, x) else Mul(ProdBut(xs, i, m, x), Sub(x, xs[m]))
  {}

  lemma QuotientValue(a: Elt, den: Elt, s: Elt)
    requires den != 0
    ensures Mul(Mul(a, Mul(den, s)), Inv(den)) == Mul(a, s)
  {
    hide Mul, Inv;
    FermatInverse(den);
    AC4(a, den, s, Inv(den));
    MulOne(Mul(a, s));
  }

  lemma AC4(a: Elt, b: Elt, c: Elt, d: Elt)
    ensures Mul(Mul(a, Mul(b, c)), d) == Mul(Mul(a, c), Mul(b, d))
  {
    hide *;
    AC();
  }
}
