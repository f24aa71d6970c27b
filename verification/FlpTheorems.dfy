/** Completeness, soundness and linearity of the Count proof system. */
module FlpTheorems {
  import opened Fp
  import opened Prime
  import opened Poly
  import opened Dft
  import opened Lagrange
  import opened LagrangeBasis
  import opened GadgetCheck
  import opened Flp
  import opened Word64
  import F = Field64

  lemma ZeroOrOne(x: Elt)
    ensures Sub(Mul(x, x), x) == 0 <==> x == 0 || x == 1
  {
    hide Mul, Sub;
    SubNonzero(Mul(x, x), x);
    MulOne(x);
    if Mul(x, x) == x && x != 0 { Cancel(x, x, 1); }
    MulOne(0);
    MulOne(1);
  }

  /** c takes the value s at 1 and x at -1: a wire seeded with s that recorded x. */
  ghost predicate IsWire(c: seq<Elt>, s: Elt, x: Elt) { |c| == 2 && Eval(c, 1) == s && Eval(c, P - 1) == x }

  /** c takes the proof's gadget values at the first three fourth roots of unity. */
  ghost predicate IsGadget(c: seq<Elt>, proof: seq<Elt>)
    requires |proof| == PROOF_LEN
  {
    CountSizes();
    |c| == 3 && forall i :: 0 <= i < 3 ==> Eval(c, Pow(Root(4), i)) == proof[2 + i]
  }

  lemma WireIsLine(c: seq<Elt>, s: Elt, x: Elt, t: Elt)
    requires IsWire(c, s, x)
    ensures WireEval(Wire(s, x), t) == Eval(c, t)
  {
    hide Mul, Pow, Root, Eval, InvTransform;
    RootOfTwo();
    RootIsRoot(2);
    assert Transform(c, Root(2), 2) == Wire(s, x);
    InvAfterTransform(c, Root(2));
  }

  lemma WireExists(s: Elt, x: Elt) returns (c: seq<Elt>)
    ensures IsWire(c, s, x)
  {
    hide Mul, Pow, Root, Eval, InvTransform;
    RootOfTwo();
    c := InvTransform(Wire(s, x), Root(2));
    WireAtNode(Wire(s, x), 0);
    WireAtNode(Wire(s, x), 1);
  }

  /** What the verifier vector says, for whatever polynomials fit the shares: the circuit's output read at -1,
      and the two wires and the gadget polynomial at the query point. */
  lemma VerifierReads(x: Elt, proof: seq<Elt>, t: Elt, a: seq<Elt>, b: seq<Elt>, c: seq<Elt>)
    requires |proof| == PROOF_LEN && IsWire(a, proof[0], x) && IsWire(b, proof[1], x) && IsGadget(c, proof)
    ensures Verifier(x, proof, t) == [Sub(Eval(c, P - 1), x), Eval(a, t), Eval(b, t), Eval(c, t)]
  {
    hide Mul, Sub, Pow, Root, Eval, InvTransform, Extended, WireEval;
    CountSizes();
    WireIsLine(a, proof[0], x, t);
    WireIsLine(b, proof[1], x, t);
    ExtendedRecovers(c, proof[2..], 4);
    GadgetValue(c, t);
    EvenRootPower(2, 1);
    RootOfTwo();
  }

  lemma GadgetValue(c: seq<Elt>, t: Elt)
    requires |c| == 3 && Size(4)
    ensures WireEval(Transform(c, Root(4), 4), t) == Eval(c, t)
  {
    hide Mul, Pow, Root, Eval, InvTransform;
    DoublingKeeps(c, 4);
  }

  /** What an honest proof says: the two seeds, and the product of the wires at the first three fourth roots. */
  lemma ProofReads(x: Elt, s0: Elt, s1: Elt, a: seq<Elt>, b: seq<Elt>)
    requires IsWire(a, s0, x) && IsWire(b, s1, x)
    ensures Size(4) && Proof(x, s0, s1)[..2] == [s0, s1]
    ensures forall i :: 0 <= i < 3 ==>
      Proof(x, s0, s1)[2 + i] == Mul(Eval(a, Pow(Root(4), i)), Eval(b, Pow(Root(4), i)))
  {
    hide Mul, Pow, Root, Eval, InvTransform, PMul;
    CountSizes();
    RootOfTwo();
    RootIsRoot(2);
    assert Transform(a, Root(2), 2) == Wire(s0, x) && Transform(b, Root(2), 2) == Wire(s1, x);
    InvAfterTransform(a, Root(2));
    InvAfterTransform(b, Root(2));
    forall i | 0 <= i < 3
      ensures Proof(x, s0, s1)[2 + i] == Mul(Eval(a, Pow(Root(4), i)), Eval(b, Pow(Root(4), i)))
    {
      EvalPMul(a, b, Pow(Root(4), i));
    }
  }

  /** Query refuses at most as many points as a wire has values. */
  lemma FewRefused(ts: seq<Elt>)
    requires Distinct(ts) && forall i :: 0 <= i < |ts| ==> Refused(ts[i])
    ensures |ts| <= WIRE_LEN
  {
    hide Refused;
    forall i | 0 <= i < |ts| ensures ts[i] == 1 || ts[i] == P - 1 { RefusedPoints(ts[i]); }
    FirstThree(ts);
  }

  lemma FirstThree(ts: seq<Elt>)
    requires Distinct(ts)
    ensures |ts| > 2 ==> ts[0] != ts[1] && ts[0] != ts[2] && ts[1] != ts[2]
  {}

  /** An honestly proved element is accepted exactly when it is 0 or 1. */
  lemma Exactness(x: Elt, s0: Elt, s1: Elt, t: Elt)
    ensures Decide(Verifier(x, Proof(x, s0, s1), t)) <==> x == 0 || x == 1
  {
    hide Mul, Sub, WireEval, CallOutput, HonestGadget, Recovered, F.Mul, IsPow2;
    CountSizes();
    var a, b := Wire(s0, x), Wire(s1, x);
    GadgetCompleteness(a, b, t);
    var proof := Proof(x, s0, s1);
    assert proof[2..] == HonestGadget(a, b);
    assert CallOutput(HonestGadget(a, b), 2, 1) == Mul(x, x);
    MulIsFp(WireEval(a, t), WireEval(b, t));
    ZeroOrOne(x);
  }

  /** No proof makes more than two query points accept an element outside {0, 1}. */
  lemma Soundness(x: Elt, proof: seq<Elt>, ts: seq<Elt>)
    requires x != 0 && x != 1 && |proof| == PROOF_LEN && Distinct(ts)
    requires forall i :: 0 <= i < |ts| ==> Decide(Verifier(x, proof, ts[i]))
    ensures |ts| <= 2 * (WIRE_LEN - 1)
  {
    hide Mul, Sub, WireEval, CallOutput, Recovered, F.Mul, IsPow2;
    CountSizes();
    var a, b, g := Wire(proof[0], x), Wire(proof[1], x), proof[2..];
    if |ts| > 0 {
      var _ := Verifier(x, proof, ts[0]);
      assert Sub(CallOutput(g, 2, 1), x) == 0;
      SubNonzero(CallOutput(g, 2, 1), x);
      ZeroOrOne(x);
      SubNonzero(Mul(x, x), x);
      forall i | 0 <= i < |ts| ensures Passes(a, b, g, ts[i]) { MulIsFp(WireEval(a, ts[i]), WireEval(b, ts[i])); }
      GadgetSoundness(a, b, g, 1, ts);
    }
  }

  // ---------- linearity ----------

  lemma TransformLinear(a: seq<Elt>, b: seq<Elt>, w: Elt, n: nat)
    requires |a| == |b|
    ensures Transform(VAdd(a, b), w, n) == VAdd(Transform(a, w, n), Transform(b, w, n))
  {
    hide Add, Mul, Eval, Pow;
    var l, r := Transform(VAdd(a, b), w, n), VAdd(Transform(a, w, n), Transform(b, w, n));
    forall i | 0 <= i < n ensures l[i] == r[i] { EvalAdd(a, b, Pow(w, i)); }
  }

  lemma ScaleLinear(s: Elt, a: seq<Elt>, b: seq<Elt>)
    requires |a| == |b|
    ensures VScale(s, VAdd(a, b)) == VAdd(VScale(s, a), VScale(s, b))
  {
    hide Add, Mul;
    var l, r := VScale(s, VAdd(a, b)), VAdd(VScale(s, a), VScale(s, b));
    forall i | 0 <= i < |a| ensures l[i] == r[i] { Distrib(s, a[i], b[i]); }
  }

  lemma WireLinear(a: seq<Elt>, b: seq<Elt>, t: Elt)
    requires |a| == |b| && Size(|a|)
    ensures WireEval(VAdd(a, b), t) == Add(WireEval(a, t), WireEval(b, t))
  {
    hide Add, Mul, Eval, Pow, Root, Transform, VScale;
    var w := Root(|a|);
    TransformLinear(a, b, Inv(w), |a|);
    ScaleLinear(Inv(|a|), Transform(a, Inv(w), |a|), Transform(b, Inv(w), |a|));
    EvalAdd(InvTransform(a, w), InvTransform(b, w), t);
  }

  lemma RecoveredLinear(g: seq<Elt>, h: seq<Elt>, p: nat)
    requires WireSize(p) && |g| == |h| == 2 * p - 1
    ensures Recovered(VAdd(g, h), p) == VAdd(Recovered(g, p), Recovered(h, p))
  {
    hide Add, Mul, Eval, Pow, Root, LagrangePoly;
    var cg, ch := GadgetCoeffs(g, p), GadgetCoeffs(h, p);
    var c := VAdd(cg, ch);
    forall i | 0 <= i < 2 * p - 1 ensures VAdd(g, h)[i] == Eval(c, Pow(Root(2 * p), i)) {
      CoeffsAtNode(g, p, i);
      CoeffsAtNode(h, p, i);
      EvalAdd(cg, ch, Pow(Root(2 * p), i));
    }
    ExtendedRecovers(c, VAdd(g, h), 2 * p);
    TransformLinear(cg, ch, Root(2 * p), 2 * p);
  }

  lemma SubAdd(a: Elt, b: Elt, c: Elt, d: Elt)
    ensures Sub(Add(a, b), Add(c, d)) == Add(Sub(a, c), Sub(b, d))
  {
    hide *;
    Ring();
  }

  /** The verifier is linear in the pair (measurement, proof). */
  lemma VerifierLinear(x: Elt, y: Elt, f: seq<Elt>, g: seq<Elt>, t: Elt)
    requires |f| == |g| == PROOF_LEN
    ensures Verifier(Add(x, y), VAdd(f, g), t) == VAdd(Verifier(x, f, t), Verifier(y, g, t))
  {
    hide Add, Sub, WireEval, Recovered, IsPow2;
    CountSizes();
    var s := VAdd(f, g);
    assert s[2..] == VAdd(f[2..], g[2..]);
    RecoveredLinear(f[2..], g[2..], 2);
    SubAdd(Recovered(f[2..], 2)[2], Recovered(g[2..], 2)[2], x, y);
    WireLinear(Recovered(f[2..], 2), Recovered(g[2..], 2), t);
    forall i | 0 <= i < 2
      ensures WireEval(Wire(s[i], Add(x, y)), t) == Add(WireEval(Wire(f[i], x), t), WireEval(Wire(g[i], y), t))
    {
      assert Wire(s[i], Add(x, y)) == VAdd(Wire(f[i], x), Wire(g[i], y));
      WireLinear(Wire(f[i], x), Wire(g[i], y), t);
    }
    var l, r := Verifier(Add(x, y), s, t), VAdd(Verifier(x, f, t), Verifier(y, g, t));
    assert l[0] == r[0] && l[1] == r[1] && l[2] == r[2] && l[3] == r[3];
  }

  lemma VerifierZero(t: Elt)
    ensures Verifier(0, Zeros(PROOF_LEN), t) == Zeros(VERIFIER_LEN)
  {
    hide Verifier, Add;
    AddZero(0);
    var z := Zeros(PROOF_LEN);
    assert VAdd(z, z) == z;
    VerifierLinear(0, 0, z, z, t);
    var v := Verifier(0, z, t);
    forall i | 0 <= i < VERIFIER_LEN ensures v[i] == 0 { assert v[i] == Add(v[i], v[i]); AddSelf(v[i]); }
  }

  lemma AddSelf(a: Elt)
    requires a == Add(a, a)
    ensures a == 0
  {}
}
