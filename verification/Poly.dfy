/** Polynomials over the field as coefficient vectors, lowest degree first. */
module Poly {
  import opened Fp
  import opened Prime

  // ---------- vectors ----------

  function VAdd(a: seq<Elt>, b: seq<Elt>): (r: seq<Elt>)
    requires |a| == |b|
    ensures |r| == |a| && forall i :: 0 <= i < |a| ==> r[i] == Add(a[i], b[i])
  {
    if |a| == 0 then [] else [Add(a[0], b[0])] + VAdd(a[1..], b[1..])
  }

  function VScale(s: Elt, a: seq<Elt>): (r: seq<Elt>)
    ensures |r| == |a| && forall i :: 0 <= i < |a| ==> r[i] == Mul(s, a[i])
  {
    if |a| == 0 then [] else [Mul(s, a[0])] + VScale(s, a[1..])
  }

  function VSub(a: seq<Elt>, b: seq<Elt>): (r: seq<Elt>)
    requires |a| == |b|
    ensures |r| == |a| && forall i :: 0 <= i < |a| ==> r[i] == Sub(a[i], b[i])
  {
    if |a| == 0 then [] else [Sub(a[0], b[0])] + VSub(a[1..], b[1..])
  }

  function Zeros(n: nat): (r: seq<Elt>)
    ensures |r| == n
    ensures forall i :: 0 <= i < n ==> r[i] == 0
  {
    seq(n, i => 0)
  }

  // ---------- evaluation ----------

  function Eval(c: seq<Elt>, x: Elt): Elt {
    if |c| == 0 then 0 else Add(c[0], Mul(x, Eval(c[1..], x)))
  }

  lemma {:induction false} EvalAdd(a: seq<Elt>, b: seq<Elt>, x: Elt)
    requires |a| == |b|
    ensures Eval(VAdd(a, b), x) == Add(Eval(a, x), Eval(b, x))
  {
    hide Add, Mul, Sub, Neg;
    Ring();
    if |a| > 0 {
      EvalAdd(a[1..], b[1..], x);
      assert VAdd(a, b)[1..] == VAdd(a[1..], b[1..]);
    }
  }

  lemma {:induction false} EvalScale(s: Elt, a: seq<Elt>, x: Elt)
    ensures Eval(VScale(s, a), x) == Mul(s, Eval(a, x))
  {
    hide Add, Mul, Sub, Neg;
    Ring();
    if |a| > 0 {
      EvalScale(s, a[1..], x);
      assert VScale(s, a)[1..] == VScale(s, a[1..]);
    }
  }

  lemma {:induction false} EvalSub(a: seq<Elt>, b: seq<Elt>, x: Elt)
    requires |a| == |b|
    ensures Eval(VSub(a, b), x) == Sub(Eval(a, x), Eval(b, x))
  {
    hide Add, Mul, Sub, Neg;
    if |a| == 0 {
      AddZero(0);
    } else {
      EvalSub(a[1..], b[1..], x);
      assert VSub(a, b)[1..] == VSub(a[1..], b[1..]);
      SubStep(a[0], b[0], x, Eval(a[1..], x), Eval(b[1..], x));
    }
  }

  lemma SubStep(a0: Elt, b0: Elt, x: Elt, a: Elt, b: Elt)
    ensures Add(Sub(a0, b0), Mul(x, Sub(a, b))) == Sub(Add(a0, Mul(x, a)), Add(b0, Mul(x, b)))
  {
    hide *;
    Ring();
  }

  lemma {:induction false} EvalZeros(n: nat, x: Elt)
    ensures Eval(Zeros(n), x) == 0
  {
    hide Add, Mul, Sub, Neg;
    if n > 0 {
      EvalZeros(n - 1, x);
      assert Zeros(n)[1..] == Zeros(n - 1);
      MulOne(x);
      AddZero(0);
    }
  }

  /** Appending a coefficient adds its monomial. */
  lemma {:induction false} EvalAppend(c: seq<Elt>, z: Elt, x: Elt)
    ensures Eval(c + [z], x) == Add(Eval(c, x), Mul(z, Pow(x, |c|)))
  {
    hide Add, Mul, Sub, Neg;
    if |c| == 0 {
      assert c + [z] == [z];
      assert Eval([], x) == 0;
      MulOne(x);
      MulOne(z);
      AddZero(z);
    } else {
      EvalAppend(c[1..], z, x);
      assert (c + [z])[1..] == c[1..] + [z];
      AppendStep(c[0], x, Eval(c[1..], x), z, Pow(x, |c| - 1));
    }
  }

  lemma AppendStep(c0: Elt, x: Elt, e: Elt, z: Elt, p: Elt)
    ensures Add(c0, Mul(x, Add(e, Mul(z, p)))) == Add(Add(c0, Mul(x, e)), Mul(z, Mul(x, p)))
  {
    hide *;
    Ring();
  }

  lemma {:induction false} EvalPad(c: seq<Elt>, n: nat, x: Elt)
    ensures Eval(c + Zeros(n), x) == Eval(c, x)
  {
    hide Add, Mul, Sub, Neg;
    if n == 0 {
      assert c + Zeros(0) == c;
    } else {
      EvalPad(c, n - 1, x);
      EvalAppend(c + Zeros(n - 1), 0, x);
      assert c + Zeros(n) == c + Zeros(n - 1) + [0];
      MulOne(Pow(x, |c| + n - 1));
      AddZero(Eval(c, x));
    }
  }

  // ---------- the root bound ----------

  /** Synthetic division: the quotient of c by (x - r). */
  function Quot(c: seq<Elt>, r: Elt): (q: seq<Elt>)
    requires |c| > 0
    ensures |q| == |c| - 1
  {
    if |c| == 1 then [] else [Eval(c[1..], r)] + Quot(c[1..], r)
  }

  lemma {:induction false} QuotRemainder(c: seq<Elt>, r: Elt, x: Elt)
    requires |c| > 0
    ensures Eval(c, x) == Add(Mul(Sub(x, r), Eval(Quot(c, r), x)), Eval(c, r))
  {
    hide Add, Mul, Sub, Neg;
    if |c| == 1 {
      assert Eval(c[1..], x) == Eval(c[1..], r) == 0;
      Ring();
    } else {
      QuotRemainder(c[1..], r, x);
      var q := Quot(c[1..], r);
      assert Quot(c, r)[1..] == q;
      QuotStep(c[0], x, r, Eval(q, x), Eval(c[1..], r));
    }
  }

  lemma QuotStep(c0: Elt, x: Elt, r: Elt, q: Elt, t: Elt)
    ensures Add(c0, Mul(x, Add(Mul(Sub(x, r), q), t))) == Add(Mul(Sub(x, r), Add(t, Mul(x, q))), Add(c0, Mul(r, t)))
  {
    hide *;
    var d := Sub(x, r);
    Distrib(x, Mul(d, q), t);
    Shuffle(x, d, q);
    SplitAt(x, r, t);
    Distrib(d, t, Mul(x, q));
    QuotSum(c0, Mul(d, Mul(x, q)), Mul(d, t), Mul(r, t));
  }

  lemma SplitAt(x: Elt, r: Elt, t: Elt)
    ensures Mul(x, t) == Add(Mul(Sub(x, r), t), Mul(r, t))
  {
    hide *;
    SubAsAdd(x, r);
    Distrib(t, Sub(x, r), r);
    MulComm(t, x);
    MulComm(t, Sub(x, r));
    MulComm(t, r);
  }

  lemma QuotSum(a: Elt, b: Elt, c: Elt, d: Elt)
    ensures Add(a, Add(b, Add(c, d))) == Add(Add(c, b), Add(a, d))
  {
    hide *;
    AC();
  }

  lemma {:induction false} QuotZero(c: seq<Elt>, r: Elt)
    requires |c| > 0 && Quot(c, r) == Zeros(|c| - 1)
    ensures c[1..] == Zeros(|c| - 1)
  {
    hide Add, Mul, Sub, Neg;
    if |c| > 1 {
      var t := c[1..];
      assert Quot(c, r)[1..] == Quot(t, r) == Zeros(|c| - 1)[1..] == Zeros(|t| - 1);
      QuotZero(t, r);
      EvalZeros(|t| - 1, r);
      MulOne(r);
      AddZero(t[0]);
      assert Eval(t, r) == t[0];
    }
  }

  ghost predicate Distinct(xs: seq<Elt>) {
    forall i, j :: 0 <= i < j < |xs| ==> xs[i] != xs[j]
  }

  /** A polynomial with at least as many distinct roots as coefficients is zero. */
  lemma {:induction false} RootBound(c: seq<Elt>, xs: seq<Elt>)
    requires |c| <= |xs| && Distinct(xs)
    requires forall i :: 0 <= i < |xs| ==> Eval(c, xs[i]) == 0
    ensures c == Zeros(|c|)
    decreases |c|
  {
    hide Add, Mul, Sub, Neg;
    if |c| > 0 {
      var r := xs[0];
      var q := Quot(c, r);
      forall i | 0 <= i < |xs| - 1 ensures Eval(q, xs[1..][i]) == 0 {
        QuotRemainder(c, r, xs[i + 1]);
        AddZero(Mul(Sub(xs[i + 1], r), Eval(q, xs[i + 1])));
        SubNonzero(xs[i + 1], r);
        NoZeroDivisors(Sub(xs[i + 1], r), Eval(q, xs[i + 1]));
      }
      RootBound(q, xs[1..]);
      QuotZero(c, r);
      EvalZeros(|c| - 1, r);
      MulOne(r);
      AddZero(c[0]);
      assert c == [c[0]] + c[1..];
    }
  }

  lemma SubNonzero(a: Elt, b: Elt)
    ensures Sub(a, b) == 0 <==> a == b
  {}

  /** Polynomials of degree below n that agree at n distinct points are the same polynomial. */
  lemma Unique(a: seq<Elt>, b: seq<Elt>, xs: seq<Elt>)
    requires |a| == |b| <= |xs| && Distinct(xs)
    requires forall i :: 0 <= i < |xs| ==> Eval(a, xs[i]) == Eval(b, xs[i])
    ensures a == b
  {
    hide Add, Mul, Sub, Neg;
    forall i | 0 <= i < |xs| ensures Eval(VSub(a, b), xs[i]) == 0 {
      EvalSub(a, b, xs[i]);
      SubNonzero(Eval(a, xs[i]), Eval(b, xs[i]));
    }
    RootBound(VSub(a, b), xs);
    forall i | 0 <= i < |a| ensures a[i] == b[i] {
      assert VSub(a, b)[i] == Zeros(|a|)[i];
      SubNonzero(a[i], b[i]);
    }
  }

  // ---------- products ----------

  function PMul(a: seq<Elt>, b: seq<Elt>): (r: seq<Elt>)
    requires |a| > 0 && |b| > 0
    ensures |r| == |a| + |b| - 1
  {
    if |a| == 1 then VScale(a[0], b)
    else VAdd(VScale(a[0], b) + Zeros(|a| - 1), [0] + PMul(a[1..], b))
  }

  lemma {:induction false} EvalPMul(a: seq<Elt>, b: seq<Elt>, x: Elt)
    requires |a| > 0 && |b| > 0
    ensures Eval(PMul(a, b), x) == Mul(Eval(a, x), Eval(b, x))
  {
    hide Add, Mul, Sub, Neg, VScale, Zeros;
    EvalScale(a[0], b, x);
    if |a| == 1 {
      assert Eval(a[1..], x) == 0;
      MulOne(x);
      AddZero(a[0]);
    } else {
      var p := PMul(a[1..], b);
      EvalPMul(a[1..], b, x);
      EvalPad(VScale(a[0], b), |a| - 1, x);
      assert ([0] + p)[1..] == p;
      EvalAdd(VScale(a[0], b) + Zeros(|a| - 1), [0] + p, x);
      ProductStep(a[0], x, Eval(a[1..], x), Eval(b, x));
    }
  }

  lemma ProductStep(a0: Elt, x: Elt, a: Elt, b: Elt)
    ensures Add(Mul(a0, b), Add(0, Mul(x, Mul(a, b)))) == Mul(Add(a0, Mul(x, a)), b)
  {
    hide *;
    Ring();
    AddZero(Mul(x, Mul(a, b)));
  }
}
