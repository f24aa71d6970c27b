/** Roots of unity and the discrete Fourier transform over the field. */
module Dft {
  import opened Fp
  import opened Prime
  import opened Word64
  import opened Poly

  // ---------- roots of unity ----------

  /** w has multiplicative order exactly n. */
  ghost predicate IsRoot(w: Elt, n: nat) {
    && 1 <= n <= 0x1_0000_0000
    && Pow(w, n) == 1
    && forall m :: 0 < m < n ==> Pow(w, m) != 1
  }

  predicate Size(n: nat) { n <= 0x1_0000_0000 && IsPow2(n) }

  /** The principal n-th root of unity. */
  function Root(n: nat): Elt
    requires Size(n)
  {
    Pow(GEN, 0x1_0000_0000 / n)
  }

  lemma {:induction false} Pow2Divides(n: nat, big: nat)
    requires IsPow2(n) && IsPow2(big) && n <= big
    ensures n * (big / n) == big
  {
    if n > 1 {
      Pow2Divides(n / 2, big / 2);
      var k := big / 2 / (n / 2);
      assert n * k == big;
      DivUnique(big, k, 0, n);
    }
  }

  lemma {:induction false} Pow2IsPow2(k: nat)
    ensures IsPow2(Pow2(k))
  {
    if k > 0 { Pow2IsPow2(k - 1); }
  }

  lemma Pow2Is32()
    ensures IsPow2(0x1_0000_0000)
  {
    hide Pow2, IsPow2;
    P32();
    Pow2IsPow2(32);
  }

  lemma GenDistinct(m: nat)
    requires 0 < m < 0x1_0000_0000
    ensures Pow(GEN, m) != 1
  {
    hide Pow, Mul, Pow2;
    P32();
    PowSucc(GEN, 0);
    assert Times(1, P) == P && Times(0, P) == 0;
    PowersDistinct(P, 0, m);
    AddZero(1);
  }

  lemma Positive(n: nat)
    requires Size(n)
    ensures n > 0
  {}

  lemma RootIsRoot(n: nat)
    requires Size(n)
    ensures IsRoot(Root(n), n)
  {
    hide Pow, Mul, Pow2, IsPow2;
    Positive(n);
    var s := 0x1_0000_0000 / n;
    Pow2Is32();
    Pow2Divides(n, 0x1_0000_0000);
    assert s * n == 0x1_0000_0000;
    PowPow(GEN, s, n);
    P32();
    GenOrder();
    forall m | 0 < m < n ensures Pow(Root(n), m) != 1 { RootPowers(n, s, m); }
  }

  lemma RootPowers(n: nat, s: nat, m: nat)
    requires Size(n) && s == 0x1_0000_0000 / n && s * n == 0x1_0000_0000 && 0 < m < n
    ensures Pow(Root(n), m) != 1
  {
    hide Pow, Mul, Pow2;
    PowPow(GEN, s, m);
    MulBetween(s, m, n);
    GenDistinct(s * m);
  }

  lemma MulBetween(s: nat, m: nat, n: nat)
    requires s * n == 0x1_0000_0000 && 0 < m < n
    ensures 0 < s * m < 0x1_0000_0000
  {
    assert s > 0;
    assert s * (n - m) > 0;
  }

  /** The principal 2n-th root squares to the principal n-th root. */
  lemma RootSquare(n: nat)
    requires Size(n) && Size(2 * n)
    ensures Mul(Root(2 * n), Root(2 * n)) == Root(n)
  {
    hide Pow, Mul, Pow2;
    Pow2Is32();
    Pow2Divides(n, 0x1_0000_0000);
    Pow2Divides(2 * n, 0x1_0000_0000);
    var s := 0x1_0000_0000 / (2 * n);
    assert n * (2 * s) == 0x1_0000_0000;
    DivUnique(0x1_0000_0000, 2 * s, 0, n);
    PowAdd(GEN, s, s);
  }

  /** The powers w^0, ..., w^(n-1) of an n-th root of unity are pairwise distinct. */
  lemma PowersInjective(w: Elt, n: nat, i: nat, j: nat)
    requires IsRoot(w, n) && i < j < n
    ensures Pow(w, i) != Pow(w, j)
  {
    hide Pow, Mul;
    if Pow(w, i) == Pow(w, j) {
      PowAdd(w, n - i, i);
      PowAdd(w, n - i, j);
      PowAdd(w, n, j - i);
      assert n - i + j == n + (j - i);
      MulOne(Pow(w, j - i));
      assert false;
    }
  }

  function Nodes(w: Elt, n: nat): (r: seq<Elt>)
    ensures |r| == n
    ensures forall i :: 0 <= i < n ==> r[i] == Pow(w, i)
  {
    seq(n, i requires 0 <= i => Pow(w, i))
  }

  lemma NodesDistinct(w: Elt, n: nat)
    requires IsRoot(w, n)
    ensures Distinct(Nodes(w, n))
  {
    hide Pow;
    forall i, j | 0 <= i < j < n ensures Nodes(w, n)[i] != Nodes(w, n)[j] { PowersInjective(w, n, i, j); }
  }

  // ---------- geometric sums ----------

  function GeoSum(q: Elt, n: nat): Elt {
    if n == 0 then 0 else Add(1, Mul(q, GeoSum(q, n - 1)))
  }

  lemma {:induction false} GeoTelescope(q: Elt, n: nat)
    ensures Mul(Sub(q, 1), GeoSum(q, n)) == Sub(Pow(q, n), 1)
  {
    hide Add, Mul, Sub, Neg;
    if n == 0 {
      MulOne(Sub(q, 1));
      AddZero(1);
    } else {
      GeoTelescope(q, n - 1);
      GeoStep(q, GeoSum(q, n - 1), Pow(q, n - 1));
    }
  }

  lemma GeoStep(q: Elt, g: Elt, p: Elt)
    requires Mul(Sub(q, 1), g) == Sub(p, 1)
    ensures Mul(Sub(q, 1), Add(1, Mul(q, g))) == Sub(Mul(q, p), 1)
  {
    hide Add, Mul, Sub, Neg;
    var d := Sub(q, 1);
    Distrib(d, 1, Mul(q, g));
    MulOne(d);
    Shuffle(d, q, g);
    GeoRing(q, p);
  }

  lemma GeoRing(q: Elt, p: Elt)
    ensures Add(Sub(q, 1), Mul(q, Sub(p, 1))) == Sub(Mul(q, p), 1)
  {
    hide *;
    Ring();
  }

  lemma {:induction false} GeoOne(n: nat)
    requires n < P
    ensures GeoSum(1, n) == n
  {
    if n > 0 {
      GeoOne(n - 1);
      MulOne(GeoSum(1, n - 1));
    }
  }

  lemma GeoVanishes(q: Elt, n: nat)
    requires q != 1 && Pow(q, n) == 1
    ensures GeoSum(q, n) == 0
  {
    hide Mul, Sub, GeoSum, Pow;
    GeoTelescope(q, n);
    AddZero(1);
    SubNonzero(q, 1);
    NoZeroDivisors(Sub(q, 1), GeoSum(q, n));
  }

  lemma {:induction false} EvalNodes(u: Elt, n: nat, y: Elt)
    ensures Eval(Nodes(u, n), y) == GeoSum(Mul(u, y), n)
  {
    hide Add, Mul, Sub, Neg;
    if n > 0 {
      EvalNodes(u, n - 1, y);
      var t := Nodes(u, n)[1..];
      forall i | 0 <= i < n - 1 ensures t[i] == VScale(u, Nodes(u, n - 1))[i] { PowSucc(u, i); }
      assert t == VScale(u, Nodes(u, n - 1));
      EvalScale(u, Nodes(u, n - 1), y);
      PowSucc(u, 0);
      MulAssoc(y, u, Eval(Nodes(u, n - 1), y));
      MulComm(y, u);
    }
  }

  // ---------- the transform ----------

  /** The values of the polynomial c at the powers of w. */
  function Transform(c: seq<Elt>, w: Elt, n: nat): (r: seq<Elt>)
    ensures |r| == n
    ensures forall i :: 0 <= i < n ==> r[i] == Eval(c, Pow(w, i))
  {
    seq(n, i requires 0 <= i => Eval(c, Pow(w, i)))
  }

  /** Orthogonality: the transform at w followed by evaluation at v^j, with v = 1/w, isolates n * c[j]. */
  lemma {:induction false} Orthogonality(c: seq<Elt>, w: Elt, v: Elt, n: nat, j: nat)
    requires IsRoot(w, n) && Mul(w, v) == 1 && |c| <= n && j < n
    ensures Eval(Transform(c, w, n), Pow(v, j)) == if j < |c| then Mul(n, c[j]) else 0
  {
    hide Add, Mul, Sub, Neg, Pow, Eval, Transform, VAdd, VScale;
    if |c| == 0 {
      TransformEmpty(c, w, n);
      EvalZeros(n, Pow(v, j));
    } else {
      var l := |c| - 1;
      var c', z := c[..l], c[l];
      Orthogonality(c', w, v, n, j);
      TransformAppend(c', z, w, n);
      assert c == c' + [z];
      var u := Pow(w, l);
      EvalAdd(Transform(c', w, n), VScale(z, Nodes(u, n)), Pow(v, j));
      EvalScale(z, Nodes(u, n), Pow(v, j));
      Character(w, v, n, l, j);
      if l == j {
        MulComm(z, n);
        AddZero(Mul(n, z));
      } else {
        MulOne(z);
        AddZero(if j < l then Mul(n, c[j]) else 0);
      }
    }
  }

  lemma Character(w: Elt, v: Elt, n: nat, l: nat, j: nat)
    requires IsRoot(w, n) && Mul(w, v) == 1 && l < n && j < n
    ensures Eval(Nodes(Pow(w, l), n), Pow(v, j)) == if l == j then n else 0
  {
    hide Mul, Pow, GeoSum, Eval;
    var u, y := Pow(w, l), Pow(v, j);
    EvalNodes(u, n, y);
    if l == j {
      PowMulBase(w, v, j);
      PowOne(j);
      GeoOne(n);
    } else {
      CrossRatio(w, v, n, l, j);
      GeoVanishes(Mul(u, y), n);
    }
  }

  lemma TransformEmpty(c: seq<Elt>, w: Elt, n: nat)
    requires |c| == 0
    ensures Transform(c, w, n) == Zeros(n)
  {}

  lemma TransformAppend(c: seq<Elt>, z: Elt, w: Elt, n: nat)
    ensures Transform(c + [z], w, n) == VAdd(Transform(c, w, n), VScale(z, Nodes(Pow(w, |c|), n)))
  {
    hide Add, Mul, Pow, Eval;
    forall i | 0 <= i < n
      ensures Transform(c + [z], w, n)[i] == VAdd(Transform(c, w, n), VScale(z, Nodes(Pow(w, |c|), n)))[i]
    {
      EvalAppend(c, z, Pow(w, i));
      PowPow(w, i, |c|);
      PowPow(w, |c|, i);
      assert i * |c| == |c| * i;
    }
  }

  lemma CrossRatio(w: Elt, v: Elt, n: nat, l: nat, j: nat)
    requires IsRoot(w, n) && Mul(w, v) == 1 && l < n && j < n && l != j
    ensures Mul(Pow(w, l), Pow(v, j)) != 1
    ensures Pow(Mul(Pow(w, l), Pow(v, j)), n) == 1
  {
    hide Mul, Pow;
    var a, b := Pow(w, l), Pow(v, j);
    PowMulBase(w, v, j);
    PowOne(j);
    if Mul(a, b) == 1 {
      Shuffle(a, b, Pow(w, j));
      MulOne(a);
      MulOne(Pow(w, j));
      if l < j { PowersInjective(w, n, l, j); } else { PowersInjective(w, n, j, l); }
      assert false;
    }
    InverseRoot(w, v, n);
    PowMulBase(a, b, n);
    RootPower(w, n, l);
    RootPower(v, n, j);
    MulOne(1);
  }

  lemma RootPower(w: Elt, n: nat, l: nat)
    requires Pow(w, n) == 1
    ensures Pow(Pow(w, l), n) == 1
  {
    hide Mul, Pow;
    PowPow(w, l, n);
    PowPow(w, n, l);
    assert l * n == n * l;
    PowOne(l);
  }

  lemma InverseRoot(w: Elt, v: Elt, n: nat)
    requires IsRoot(w, n) && Mul(w, v) == 1
    ensures IsRoot(v, n) && Mul(v, w) == 1
  {
    hide Mul, Pow;
    MulComm(w, v);
    forall m: nat ensures Pow(w, m) == 1 <==> Pow(v, m) == 1 {
      PowMulBase(w, v, m);
      PowOne(m);
      MulOne(Pow(w, m));
      MulOne(Pow(v, m));
    }
  }

  /** The inverse transform: coefficients from values at the powers of w. */
  function InvTransform(e: seq<Elt>, w: Elt): (r: seq<Elt>)
    requires 1 <= |e| < P
    ensures |r| == |e|
  {
    VScale(Inv(|e|), Transform(e, Inv(w), |e|))
  }

  lemma InverseFacts(w: Elt, n: nat)
    requires IsRoot(w, n)
    ensures Mul(w, Inv(w)) == 1 && Mul(n, Inv(n)) == 1
  {
    hide Mul, Pow;
    FermatInverse(w);
    FermatInverse(n);
    if w == 0 {
      PowSucc(0, n - 1);
      MulOne(Pow(0, n - 1));
      assert false;
    }
  }

  /** Interpolating the values of a polynomial of degree below n recovers its coefficients. */
  lemma InvAfterTransform(c: seq<Elt>, w: Elt)
    requires IsRoot(w, |c|)
    ensures InvTransform(Transform(c, w, |c|), w) == c
  {
    hide Mul, Pow, Eval;
    var n := |c|;
    InverseFacts(w, n);
    var r := InvTransform(Transform(c, w, n), w);
    forall j | 0 <= j < n ensures r[j] == c[j] {
      Orthogonality(c, w, Inv(w), n, j);
      MulAssoc(Inv(n), n, c[j]);
      MulComm(n, Inv(n));
      MulOne(c[j]);
    }
  }

  /** The interpolated polynomial takes the given values at the powers of w. */
  lemma TransformAfterInv(e: seq<Elt>, w: Elt)
    requires IsRoot(w, |e|)
    ensures Transform(InvTransform(e, w), w, |e|) == e
  {
    hide Mul, Pow, Eval;
    var n := |e|;
    InverseFacts(w, n);
    InverseRoot(w, Inv(w), n);
    var t := Transform(InvTransform(e, w), w, n);
    forall i | 0 <= i < n ensures t[i] == e[i] {
      EvalScale(Inv(n), Transform(e, Inv(w), n), Pow(w, i));
      Orthogonality(e, Inv(w), w, n, i);
      MulAssoc(Inv(n), n, e[i]);
      MulComm(n, Inv(n));
      MulOne(e[i]);
    }
  }
}
