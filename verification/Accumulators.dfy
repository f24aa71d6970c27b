/** What the running accumulators of the batched evaluation and of the extension compute. */
module Accumulators {
  import opened Fp
  import opened Prime
  import opened Poly
  import opened Dft
  import opened Lagrange

  // ---------- batched evaluation ----------

  function At(p: seq<Elt>, i: nat): Elt { if i < |p| then p[i] else 0 }

  /** The first n entries of p, missing ones read as zero. */
  function Fit(p: seq<Elt>, n: nat): (r: seq<Elt>)
    ensures |r| == n && forall i :: 0 <= i < n ==> r[i] == At(p, i)
  {
    seq(n, i requires 0 <= i => At(p, i))
  }

  function KAcc(xs: seq<Elt>, m: nat, x: Elt): Elt
    requires m <= |xs|
  {
    if m == 0 then 1 else Mul(KAcc(xs, m - 1, x), Sub(xs[m - 1], x))
  }

  function UAcc(p: seq<Elt>, xs: seq<Elt>, m: nat, x: Elt): Elt
    requires m <= |xs|
  {
    if m == 0 then 0
    else Add(Mul(UAcc(p, xs, m - 1, x), Sub(xs[m - 1], x)), Mul(Mul(KAcc(xs, m - 1, x), xs[m - 1]), At(p, m - 1)))
  }

  function Sign(m: nat): Elt { if m == 0 then 1 else Neg(Sign(m - 1)) }

  function NodeSum(p: seq<Elt>, xs: seq<Elt>, m: nat, l: nat, x: Elt): Elt
    requires l <= m <= |xs|
  {
    if l == 0 then 0
    else Add(NodeSum(p, xs, m, l - 1, x), Mul(Mul(At(p, l - 1), xs[l - 1]), ProdBut(xs, l - 1, m, x)))
  }

  lemma {:induction false} KClosed(xs: seq<Elt>, m: nat, x: Elt)
    requires m <= |xs|
    ensures KAcc(xs, m, x) == Mul(Sign(m), ProdBut(xs, -1, m, x))
  {
    hide Mul, Sub, Neg;
    if m == 0 {
      MulOne(1);
    } else {
      KClosed(xs, m - 1, x);
      KRing(Sign(m - 1), ProdBut(xs, -1, m - 1, x), x, xs[m - 1]);
    }
  }

  lemma KRing(s: Elt, p: Elt, x: Elt, r: Elt)
    ensures Mul(Mul(s, p), Sub(r, x)) == Mul(Neg(s), Mul(p, Sub(x, r)))
  {
    hide *;
    Ring();
  }

  lemma {:induction false} NodeSumStep(p: seq<Elt>, xs: seq<Elt>, m: nat, l: nat, x: Elt)
    requires l <= m < |xs|
    ensures NodeSum(p, xs, m + 1, l, x) == Mul(NodeSum(p, xs, m, l, x), Sub(x, xs[m]))
  {
    hide Add, Mul, Sub;
    var d := Sub(x, xs[m]);
    if l == 0 {
      MulOne(d);
    } else {
      NodeSumStep(p, xs, m, l - 1, x);
      DistribRight(NodeSum(p, xs, m, l - 1, x), Mul(At(p, l - 1), xs[l - 1]), ProdBut(xs, l - 1, m, x), d);
    }
  }

  lemma DistribRight(a: Elt, b: Elt, c: Elt, d: Elt)
    ensures Mul(Add(a, Mul(b, c)), d) == Add(Mul(a, d), Mul(b, Mul(c, d)))
  {
    hide *;
    Ring();
  }

  lemma {:induction false} ProdButAll(xs: seq<Elt>, i: int, m: nat, x: Elt)
    requires m <= |xs| && (i < 0 || m <= i)
    ensures ProdBut(xs, i, m, x) == ProdBut(xs, -1, m, x)
  {
    hide Mul, Sub;
    if m > 0 { ProdButAll(xs, i, m - 1, x); }
  }

  lemma {:induction false} UClosed(p: seq<Elt>, xs: seq<Elt>, m: nat, x: Elt)
    requires m <= |xs|
    ensures UAcc(p, xs, m, x) == Neg(Mul(Sign(m), NodeSum(p, xs, m, m, x)))
  {
    hide Add, Mul, Sub, Neg, At;
    if m == 0 {
      MulOne(1);
      NegZero();
    } else {
      UClosed(p, xs, m - 1, x);
      KClosed(xs, m - 1, x);
      NodeSumStep(p, xs, m - 1, m - 1, x);
      ProdButAll(xs, m - 1, m - 1, x);
      URing(Sign(m - 1), NodeSum(p, xs, m - 1, m - 1, x), x, xs[m - 1], ProdBut(xs, -1, m - 1, x), At(p, m - 1));
    }
  }

  lemma NegZero()
    ensures Neg(0) == 0
  {}

  lemma URing(s: Elt, n: Elt, x: Elt, r: Elt, k: Elt, y: Elt)
    ensures Add(Mul(Neg(Mul(s, n)), Sub(r, x)), Mul(Mul(Mul(s, k), r), y))
         == Neg(Mul(Neg(s), Add(Mul(n, Sub(x, r)), Mul(Mul(y, r), k))))
  {
    hide *;
    var a, b := Mul(n, Sub(x, r)), Mul(Mul(y, r), k);
    assert Mul(Neg(Mul(s, n)), Sub(r, x)) == Mul(s, a) by { URing1(s, n, x, r); }
    assert Mul(Mul(Mul(s, k), r), y) == Mul(s, b) by { AC(); }
    Distrib(s, a, b);
    NegNegMul(s, Add(a, b));
  }

  lemma URing1(s: Elt, n: Elt, x: Elt, r: Elt)
    ensures Mul(Neg(Mul(s, n)), Sub(r, x)) == Mul(s, Mul(n, Sub(x, r)))
  {
    hide *;
    Ring();
  }

  lemma NegNegMul(s: Elt, t: Elt)
    ensures Neg(Mul(Neg(s), t)) == Mul(s, t)
  {
    hide *;
    Ring();
  }

  lemma {:induction false} LagrangeAtRoots(p: seq<Elt>, w: Elt, n: nat, m: nat, x: Elt)
    requires IsRoot(w, n) && m <= n
    ensures LagrangeSum(Nodes(w, n), Fit(p, n), m, x) == Mul(Inv(n), NodeSum(p, Nodes(w, n), n, m, x))
  {
    hide Add, Mul, Inv, Denom, Nodes, ProdBut, Pow, At;
    if m == 0 {
      MulOne(Inv(n));
    } else {
      LagrangeAtRoots(p, w, n, m - 1, x);
      RootWeight(w, n, m - 1);
      WeightRing(NodeSum(p, Nodes(w, n), n, m - 1, x), Inv(n), At(p, m - 1), Pow(w, m - 1),
                 ProdBut(Nodes(w, n), m - 1, n, x));
    }
  }

  lemma WeightRing(s: Elt, v: Elt, y: Elt, r: Elt, k: Elt)
    ensures Add(Mul(v, s), Mul(Mul(y, Mul(r, v)), k)) == Mul(v, Add(s, Mul(Mul(y, r), k)))
  {
    hide *;
    Ring();
  }

  lemma {:induction false} SignParity(m: nat)
    ensures Sign(m) == if m % 2 == 0 then 1 else Neg(1)
  {
    if m > 0 { SignParity(m - 1); }
  }

  /** The scaling factor (-1)^(n-1) / n. */
  function BatchFactor(n: nat): Elt
    requires 1 <= n < P
  {
    if (n - 1) % 2 == 1 then Neg(Inv(n)) else Inv(n)
  }

  /** The batched evaluation is evaluation of the interpolating polynomial, at every x, nodes included. */
  lemma BatchedIsInterpolation(p: seq<Elt>, w: Elt, n: nat, x: Elt)
    requires IsRoot(w, n)
    ensures Mul(UAcc(p, Nodes(w, n), n, x), BatchFactor(n)) == Eval(InvTransform(Fit(p, n), w), x)
  {
    hide Add, Mul, Neg, Inv, Pow, Eval, Transform, VScale, LagrangePoly, LagrangeSum, UAcc, NodeSum, Nodes,
      InvTransform;
    var xs, ys := Nodes(w, n), Fit(p, n);
    var c := InvTransform(ys, w);
    NodesDistinct(w, n);
    TransformAfterInv(ys, w);
    forall i | 0 <= i < n ensures Eval(c, xs[i]) == ys[i] { assert Transform(c, w, n)[i] == ys[i]; }
    LagrangeFormula(xs, c, ys, x);
    LagrangeAtRoots(p, w, n, n, x);
    UClosed(p, xs, n, x);
    SignParity(n);
    FactorRing(NodeSum(p, xs, n, n, x), Inv(n));
  }

  lemma FactorRing(s: Elt, v: Elt)
    ensures Mul(Neg(Mul(1, s)), Neg(v)) == Mul(v, s)
    ensures Mul(Neg(Mul(Neg(1), s)), v) == Mul(v, s)
  {
    hide *;
    Ring();
  }

  // ---------- extension ----------

  /** The sum of p[i] / w[i] over i < m. */
  function FracSum(p: seq<Elt>, w: seq<Elt>, m: nat): Elt
    requires m <= |p| && m <= |w|
  {
    if m == 0 then 0 else Add(FracSum(p, w, m - 1), Mul(p[m - 1], Inv(w[m - 1])))
  }

  /** One step of the common-denominator accumulation: (num, den) stands for num / den. */
  lemma FracStep(num: Elt, den: Elt, s: Elt, y: Elt, w: Elt)
    requires num == Mul(den, s) && den != 0 && w != 0
    ensures Mul(den, w) != 0
    ensures Add(Mul(num, w), Mul(den, y)) == Mul(Mul(den, w), Add(s, Mul(y, Inv(w))))
  {
    hide Add, Mul, Inv;
    if Mul(den, w) == 0 { NoZeroDivisors(den, w); }
    FermatInverse(w);
    FracRing(den, s, y, w, Inv(w));
    MulOne(Mul(den, y));
  }

  lemma FracRing(den: Elt, s: Elt, y: Elt, w: Elt, v: Elt)
    ensures Mul(Mul(den, w), Add(s, Mul(y, v))) == Add(Mul(Mul(den, s), w), Mul(Mul(den, y), Mul(w, v)))
  {
    hide *;
    Ring();
  }

  lemma {:induction false} ProdSplit(xs: seq<Elt>, i: nat, m: nat, x: Elt)
    requires i < m <= |xs|
    ensures ProdBut(xs, -1, m, x) == Mul(ProdBut(xs, i, m, x), Sub(x, xs[i]))
  {
    hide Mul, Sub;
    if m - 1 == i {
      ProdButAll(xs, i, m - 1, x);
    } else {
      ProdSplit(xs, i, m - 1, x);
      Shuffle(ProdBut(xs, i, m - 1, x), Sub(x, xs[i]), Sub(x, xs[m - 1]));
      MulAssoc(ProdBut(xs, i, m - 1, x), Sub(x, xs[m - 1]), Sub(x, xs[i]));
    }
  }

  lemma {:induction false} ProdButPrefix(xs: seq<Elt>, i: int, k: nat, m: nat, x: Elt)
    requires m <= k <= |xs|
    ensures ProdBut(xs[..k], i, m, x) == ProdBut(xs, i, m, x)
  {
    hide Mul, Sub;
    if m > 0 { ProdButPrefix(xs, i, k, m - 1, x); }
  }

  /** The weights held while the value at node k is being recovered. */
  ghost predicate Weights(w: seq<Elt>, xs: seq<Elt>, k: nat)
    requires k < |xs|
  {
    |w| >= k && forall i :: 0 <= i < k ==> w[i] == ProdBut(xs, i, k + 1, xs[i])
  }

  lemma {:induction false} ExtensionTerms(xs: seq<Elt>, p: seq<Elt>, w: seq<Elt>, k: nat, m: nat)
    requires m <= k < |xs| && |p| == k && Distinct(xs) && Weights(w, xs, k)
    ensures LagrangeSum(xs[..k], p, m, xs[k]) == Mul(Neg(ProdBut(xs, -1, k, xs[k])), FracSum(p, w, m))
  {
    hide Add, Mul, Sub, Neg, Inv, ProdBut;
    if m == 0 {
      MulOne(Neg(ProdBut(xs, -1, k, xs[k])));
    } else {
      ExtensionTerms(xs, p, w, k, m - 1);
      var i := m - 1;
      ProdButPrefix(xs, i, k, k, xs[i]);
      ProdButPrefix(xs, i, k, k, xs[k]);
      assert xs[..k][i] == xs[i];
      var d, nu := ProdBut(xs, i, k, xs[i]), ProdBut(xs, i, k, xs[k]);
      ProdSplit(xs, i, k, xs[k]);
      assert w[i] == Mul(d, Sub(xs[i], xs[k])) by { ProdButLast(xs, i, k, xs[i]); }
      ProdButNonzero(xs, i, k, xs[i]);
      TermRing(d, nu, xs[i], xs[k], p[i]);
      Distrib(Neg(ProdBut(xs, -1, k, xs[k])), FracSum(p, w, i), Mul(p[i], Inv(w[i])));
    }
  }

  lemma ProdButLast(xs: seq<Elt>, i: nat, k: nat, x: Elt)
    requires i < k < |xs|
    ensures ProdBut(xs, i, k + 1, x) == Mul(ProdBut(xs, i, k, x), Sub(x, xs[k]))
  {}

  lemma TermRing(d: Elt, nu: Elt, a: Elt, b: Elt, y: Elt)
    requires d != 0 && a != b
    ensures Mul(Mul(y, Inv(d)), nu) == Mul(Neg(Mul(nu, Sub(b, a))), Mul(y, Inv(Mul(d, Sub(a, b)))))
  {
    hide Add, Mul, Sub, Neg, Inv;
    var e := Sub(a, b);
    SubNonzero(a, b);
    InvMul(d, e);
    FermatInverse(e);
    TermRing2(nu, a, b, y, Inv(d), Inv(e));
    MulOne(Mul(Mul(y, Inv(d)), nu));
  }

  lemma TermRing2(nu: Elt, a: Elt, b: Elt, y: Elt, di: Elt, ei: Elt)
    ensures Mul(Neg(Mul(nu, Sub(b, a))), Mul(y, Mul(di, ei))) == Mul(Mul(Mul(y, di), nu), Mul(Sub(a, b), ei))
  {
    hide *;
    Ring();
  }

  lemma InvMul(a: Elt, b: Elt)
    requires a != 0 && b != 0
    ensures Inv(Mul(a, b)) == Mul(Inv(a), Inv(b))
  {
    hide Mul, Inv;
    FermatInverse(a);
    FermatInverse(b);
    if Mul(a, b) == 0 { NoZeroDivisors(a, b); }
    FermatInverse(Mul(a, b));
    Interchange(a, b, Inv(a), Inv(b));
    MulOne(1);
    Cancel(Mul(a, b), Inv(Mul(a, b)), Mul(Inv(a), Inv(b)));
  }

  /** The recovered value is the value of the underlying polynomial at the next node. */
  lemma ExtensionStep(xs: seq<Elt>, c: seq<Elt>, p: seq<Elt>, w: seq<Elt>, k: nat)
    requires k < |xs| && |p| == k && |c| <= k && Distinct(xs) && Weights(w, xs, k)
    requires forall i :: 0 <= i < k ==> p[i] == Eval(c, xs[i])
    ensures Mul(Neg(ProdBut(xs, -1, k, xs[k])), FracSum(p, w, k)) == Eval(c, xs[k])
  {
    hide Add, Mul, Sub, Neg, Inv, ProdBut, Eval, LagrangeSum, LagrangePoly, FracSum;
    var c' := c + Zeros(k - |c|);
    forall i | 0 <= i < k ensures Eval(c', xs[..k][i]) == p[i] { EvalPad(c, k - |c|, xs[i]); }
    EvalPad(c, k - |c|, xs[k]);
    LagrangeFormula(xs[..k], c', p, xs[k]);
    ExtensionTerms(xs, p, w, k, k);
  }
}
