/** The multiplication gadget's polynomial identity, for wire polynomials of any power-of-two length. */
module GadgetCheck {
  import opened Fp
  import opened Prime
  import opened Word64
  import opened Poly
  import opened Dft
  import opened Lagrange
  import opened LagrangeBasis

  predicate WireSize(p: nat) { p >= 2 && Size(p) && Size(2 * p) }

  /** The polynomial through a wire's recorded values, evaluated at t. */
  function WireEval(wire: seq<Elt>, t: Elt): Elt
    requires Size(|wire|)
  {
    Eval(InvTransform(wire, Root(|wire|)), t)
  }

  /** The gadget polynomial a verifier recovers from 2p-1 proof elements, in the Lagrange basis. */
  function Recovered(g: seq<Elt>, p: nat): (r: seq<Elt>)
    requires WireSize(p) && |g| == 2 * p - 1
    ensures |r| == 2 * p
  {
    Extended(g, 2 * p)
  }

  /** The output of call number k, as the verifier reads it: the recovered polynomial at W_p^k. */
  function CallOutput(g: seq<Elt>, p: nat, k: nat): Elt
    requires WireSize(p) && |g| == 2 * p - 1 && k < p
  {
    Recovered(g, p)[2 * k]
  }

  predicate Passes(a: seq<Elt>, b: seq<Elt>, g: seq<Elt>, t: Elt)
    requires WireSize(|a|) && |b| == |a| && |g| == 2 * |a| - 1
  {
    Mul(WireEval(a, t), WireEval(b, t)) == WireEval(Recovered(g, |a|), t)
  }

  /** What an honest prover sends: the product of the wire polynomials at the first 2p-1 roots. */
  function HonestGadget(a: seq<Elt>, b: seq<Elt>): (g: seq<Elt>)
    requires WireSize(|a|) && |b| == |a|
    ensures |g| == 2 * |a| - 1
  {
    Transform(PMul(InvTransform(a, Root(|a|)), InvTransform(b, Root(|b|))), Root(2 * |a|), 2 * |a|)[..2 * |a| - 1]
  }

  /** The coefficients behind the 2p-1 proof elements. */
  ghost function GadgetCoeffs(g: seq<Elt>, p: nat): (c: seq<Elt>)
    requires WireSize(p) && |g| == 2 * p - 1
    ensures |c| == 2 * p - 1
  {
    LagrangePoly(Nodes(Root(2 * p), 2 * p)[..|g|], g, |g|)
  }

  lemma RecoveredEval(g: seq<Elt>, p: nat, t: Elt)
    requires WireSize(p) && |g| == 2 * p - 1
    ensures WireEval(Recovered(g, p), t) == Eval(GadgetCoeffs(g, p), t)
  {
    hide Mul, Pow, Root, Eval, LagrangePoly, InvTransform;
    var c := GadgetCoeffs(g, p);
    var c' := c + Zeros(1);
    var w := Root(2 * p);
    RootIsRoot(2 * p);
    forall i | 0 <= i < 2 * p ensures Transform(c', w, 2 * p)[i] == Recovered(g, p)[i] { EvalPad(c, 1, Pow(w, i)); }
    assert Transform(c', w, 2 * p) == Recovered(g, p);
    InvAfterTransform(c', w);
    EvalPad(c, 1, t);
  }

  lemma CallReads(g: seq<Elt>, p: nat, k: nat)
    requires WireSize(p) && |g| == 2 * p - 1 && k < p
    ensures CallOutput(g, p, k) == Eval(GadgetCoeffs(g, p), Pow(Root(p), k))
  {
    hide Mul, Pow, Root, Eval, LagrangePoly;
    EvenRootPower(p, k);
  }

  lemma WireAtNode(wire: seq<Elt>, k: nat)
    requires Size(|wire|) && k < |wire|
    ensures WireEval(wire, Pow(Root(|wire|), k)) == wire[k]
  {
    hide Mul, Pow, Root, Eval, InvTransform;
    var w := Root(|wire|);
    RootIsRoot(|wire|);
    TransformAfterInv(wire, w);
    assert Transform(InvTransform(wire, w), w, |wire|)[k] == wire[k];
  }

  /** The difference the check tests for, a polynomial of degree at most 2(p-1). */
  ghost function Defect(a: seq<Elt>, b: seq<Elt>, g: seq<Elt>): (d: seq<Elt>)
    requires WireSize(|a|) && |b| == |a| && |g| == 2 * |a| - 1
    ensures |d| == 2 * |a| - 1
  {
    VSub(GadgetCoeffs(g, |a|), PMul(InvTransform(a, Root(|a|)), InvTransform(b, Root(|b|))))
  }

  lemma DefectEval(a: seq<Elt>, b: seq<Elt>, g: seq<Elt>, t: Elt)
    requires WireSize(|a|) && |b| == |a| && |g| == 2 * |a| - 1
    ensures Eval(Defect(a, b, g), t) == Sub(WireEval(Recovered(g, |a|), t), Mul(WireEval(a, t), WireEval(b, t)))
    ensures Passes(a, b, g, t) <==> Eval(Defect(a, b, g), t) == 0
  {
    hide Mul, Sub, Pow, Root, Eval, LagrangePoly, InvTransform, GadgetCoeffs, PMul, VSub, Recovered;
    var ca, cb := InvTransform(a, Root(|a|)), InvTransform(b, Root(|b|));
    RecoveredEval(g, |a|, t);
    EvalPMul(ca, cb, t);
    EvalSub(GadgetCoeffs(g, |a|), PMul(ca, cb), t);
    SubNonzero(WireEval(Recovered(g, |a|), t), Mul(WireEval(a, t), WireEval(b, t)));
  }

  /** Call k is inconsistent with its inputs exactly when the defect is nonzero at W_p^k. */
  lemma DefectAtCall(a: seq<Elt>, b: seq<Elt>, g: seq<Elt>, k: nat)
    requires WireSize(|a|) && |b| == |a| && |g| == 2 * |a| - 1 && k < |a|
    ensures CallOutput(g, |a|, k) == Mul(a[k], b[k]) <==> Eval(Defect(a, b, g), Pow(Root(|a|), k)) == 0
  {
    hide Mul, Sub, Pow, Root, Eval, WireEval, Recovered, Defect, CallOutput, GadgetCoeffs;
    var t := Pow(Root(|a|), k);
    DefectEval(a, b, g, t);
    CallReads(g, |a|, k);
    RecoveredEval(g, |a|, t);
    WireAtNode(a, k);
    WireAtNode(b, k);
    SubNonzero(WireEval(Recovered(g, |a|), t), Mul(WireEval(a, t), WireEval(b, t)));
  }

  /** Passing the check at more than 2(p-1) distinct points forces the honest gadget polynomial. */
  lemma ManyPassesOnlyHonest(a: seq<Elt>, b: seq<Elt>, g: seq<Elt>, ts: seq<Elt>)
    requires WireSize(|a|) && |b| == |a| && |g| == 2 * |a| - 1
    requires Distinct(ts) && forall i :: 0 <= i < |ts| ==> Passes(a, b, g, ts[i])
    requires |ts| > 2 * (|a| - 1)
    ensures g == HonestGadget(a, b)
  {
    hide Mul, Sub, Pow, Root, Eval, Passes, Defect, InvTransform, PMul, LagrangePoly, LagrangeSum, Recovered,
      GadgetCoeffs;
    var p := |a|;
    var d := Defect(a, b, g);
    forall i | 0 <= i < |ts| ensures Eval(d, ts[i]) == 0 { DefectEval(a, b, g, ts[i]); }
    RootBound(d, ts);
    var prod := PMul(InvTransform(a, Root(p)), InvTransform(b, Root(p)));
    forall i | 0 <= i < 2 * p - 1 ensures g[i] == HonestGadget(a, b)[i] {
      var x := Pow(Root(2 * p), i);
      EvalZeros(2 * p - 1, x);
      DefectEval(a, b, g, x);
      RecoveredEval(g, p, x);
      EvalPMul(InvTransform(a, Root(p)), InvTransform(b, Root(p)), x);
      CoeffsAtNode(g, p, i);
      SubNonzero(WireEval(Recovered(g, p), x), Mul(WireEval(a, x), WireEval(b, x)));
    }
  }

  lemma CoeffsAtNode(g: seq<Elt>, p: nat, i: nat)
    requires WireSize(p) && |g| == 2 * p - 1 && i < |g|
    ensures Eval(GadgetCoeffs(g, p), Pow(Root(2 * p), i)) == g[i]
  {
    hide Mul, Pow, Root, Eval, LagrangePoly;
    RootIsRoot(2 * p);
    NodesDistinct(Root(2 * p), 2 * p);
    InterpolantValue(Nodes(Root(2 * p), 2 * p), g, i);
  }

  /** Soundness: one inconsistent call leaves at most 2(p-1) query points at which the check passes. */
  lemma GadgetSoundness(a: seq<Elt>, b: seq<Elt>, g: seq<Elt>, k: nat, ts: seq<Elt>)
    requires WireSize(|a|) && |b| == |a| && |g| == 2 * |a| - 1 && k < |a|
    requires CallOutput(g, |a|, k) != Mul(a[k], b[k])
    requires Distinct(ts) && forall i :: 0 <= i < |ts| ==> Passes(a, b, g, ts[i])
    ensures |ts| <= 2 * (|a| - 1)
  {
    hide Mul, Passes, CallOutput, HonestGadget;
    if |ts| > 2 * (|a| - 1) {
      ManyPassesOnlyHonest(a, b, g, ts);
      GadgetCompleteness(a, b, 0);
      assert false;
    }
  }

  /** Completeness: an honest gadget polynomial passes at every point and reports every call correctly. */
  lemma GadgetCompleteness(a: seq<Elt>, b: seq<Elt>, t: Elt)
    requires WireSize(|a|) && |b| == |a|
    ensures Passes(a, b, HonestGadget(a, b), t)
    ensures forall k :: 0 <= k < |a| ==> CallOutput(HonestGadget(a, b), |a|, k) == Mul(a[k], b[k])
  {
    hide Mul, Pow, Root, Eval, InvTransform, PMul, Defect, CallOutput, Passes;
    var p := |a|;
    var g := HonestGadget(a, b);
    HonestDefect(a, b);
    EvalZeros(2 * p - 1, t);
    DefectEval(a, b, g, t);
    forall k | 0 <= k < p ensures CallOutput(g, p, k) == Mul(a[k], b[k]) {
      EvalZeros(2 * p - 1, Pow(Root(p), k));
      DefectAtCall(a, b, g, k);
    }
  }

  /** Only the honest gadget polynomial has no defect. */
  lemma HonestDefect(a: seq<Elt>, b: seq<Elt>)
    requires WireSize(|a|) && |b| == |a|
    ensures Defect(a, b, HonestGadget(a, b)) == Zeros(2 * |a| - 1)
  {
    hide Mul, Sub, Pow, Root, Eval, InvTransform, PMul, LagrangePoly, LagrangeSum;
    var p := |a|;
    var g := HonestGadget(a, b);
    var prod := PMul(InvTransform(a, Root(p)), InvTransform(b, Root(p)));
    var xs := Nodes(Root(2 * p), 2 * p);
    RootIsRoot(2 * p);
    NodesDistinct(Root(2 * p), 2 * p);
    DistinctPrefix(xs, 2 * p - 1);
    LagrangeFormula(xs[..2 * p - 1], prod, g, 0);
    forall i | 0 <= i < 2 * p - 1 ensures Defect(a, b, g)[i] == 0 { SubNonzero(prod[i], prod[i]); }
  }
}

/** Gadget call recorders, the Count circuit, and the proof system over it. */
module Flp {
  import opened Fp
  import opened Prime
  import opened Word64
  import opened Poly
  import opened Dft
  import opened Lagrange
  import opened LagrangeBasis
  import opened GadgetCheck
  import Accumulators
  import F = Field64

  const ARITY: nat := 2
  const DEGREE: nat := 2

  function GadgetPolyLen(degree: nat, p: nat): nat
    requires p >= 1
  {
    degree * (p - 1) + 1
  }

  /** The values a recorder substitutes for call outputs: those of the recovered polynomial at the 2p-th roots. */
  ghost predicate ReadsBack(poly: seq<Elt>, step: nat, p: nat, g: seq<Elt>) {
    WireSize(p) && |g| == 2 * p - 1 && step == 2 && poly == Recovered(g, p)
  }

  /** Doubling the values of a short enough polynomial gives its values at the next roots. */
  lemma DoublingKeeps(c: seq<Elt>, m: nat)
    requires Size(m) && |c| <= m
    ensures forall x :: Eval(InvTransform(Transform(c, Root(m), m), Root(m)), x) == Eval(c, x)
  {
    hide Mul, Pow, Root, Eval, InvTransform;
    var c' := c + Zeros(m - |c|);
    RootIsRoot(m);
    forall x ensures Eval(c', x) == Eval(c, x) { EvalPad(c, m - |c|, x); }
    assert Transform(c', Root(m), m) == Transform(c, Root(m), m);
    InvAfterTransform(c', Root(m));
  }

  /** Doubles the values of the polynomial c up to size of them. */
  method DoubleUpTo(values: seq<Elt>, size: nat, ghost c: seq<Elt>) returns (poly: seq<Elt>)
    requires Size(|values|) && Size(size) && |c| <= |values| <= size
    requires values == Transform(c, Root(|values|), |values|)
    ensures |poly| == size && poly == Transform(c, Root(size), size)
  {
    hide Mul, Pow, Root, Eval, InvTransform;
    poly := values;
    while |poly| < size
      invariant Size(|poly|) && |c| <= |poly| <= size
      invariant poly == Transform(c, Root(|poly|), |poly|)
      decreases size - |poly|
    {
      Pow2Gap(|poly|, size);
      DoublingKeeps(c, |poly|);
      poly := DoubleEvaluations(poly);
    }
  }

  /** How far apart the call outputs lie among 2p values. */
  method Stride(size: nat, p: nat) returns (step: nat)
    requires IsPow2(size) && IsPow2(p) && size == 2 * p
    ensures step == 2
  {
    var ls := Log2(size);
    var lp := Log2(p);
    Pow2Injective(ls, lp + 1);
    assert Pow2(1) == 2;
    step := Pow2(ls - lp);
  }

  /** Extends the proof's evaluations to a power of two, then doubles up to the evaluation count. */
  method RecoverPoly(p: nat, gadgetPoly: seq<Elt>) returns (poly: seq<Elt>, step: nat)
    requires WireSize(p) && 1 <= |gadgetPoly| <= GadgetPolyLen(DEGREE, p)
    ensures step == 2 && |poly| == 2 * p
    ensures |gadgetPoly| == 2 * p - 1 ==> poly == Recovered(gadgetPoly, p)
  {
    hide Mul, Pow, Root, Eval, InvTransform, LagrangePoly, Transform, IsPow2;
    var first := NextPowerOf2(|gadgetPoly|);
    var size := NextPowerOf2(GadgetPolyLen(DEGREE, p));
    PowersAround(p, first, size, |gadgetPoly|);
    var ext := ExtendValuesToPowerOf2(gadgetPoly, first);
    poly := DoubleUpTo(ext, size, LagrangePoly(Nodes(Root(first), first)[..|gadgetPoly|], gadgetPoly, |gadgetPoly|));
    step := Stride(size, p);
  }

  lemma PowersAround(p: nat, first: nat, size: nat, l: nat)
    requires WireSize(p) && 1 <= l <= 2 * p - 1
    requires IsPow2(first) && first >= l && forall q: nat :: IsPow2(q) && q >= l ==> first <= q
    requires IsPow2(size) && size >= 2 * p - 1 && forall q: nat :: IsPow2(q) && q >= 2 * p - 1 ==> size <= q
    ensures size == 2 * p && first <= size && Size(first) && Size(size)
    ensures l == 2 * p - 1 ==> first == 2 * p
  {
    assert IsPow2(2 * p);
    if size < 2 * p { Pow2Gap(size, 2 * p); }
  }

  /** Records the wire inputs of each gadget call; in query mode answers from the recovered gadget polynomial. */
  class GadgetCall {
    var wires: seq<seq<Elt>>
    var k: nat
    const poly: seq<Elt>  // empty in prove mode
    const step: nat

    ghost predicate Valid(p: nat)
      reads this
    {
      && |wires| == 2 && |wires[0]| == p && |wires[1]| == p
      && k < p
      && (poly != [] ==> |poly| == p * step)
    }

    constructor NewProve(p: nat, wireSeeds: seq<Elt>)
      requires p >= 1 && |wireSeeds| == 2
      ensures Valid(p) && k == 0 && poly == []
      ensures wires == [[wireSeeds[0]] + Zeros(p - 1), [wireSeeds[1]] + Zeros(p - 1)]
    {
      wires := [[wireSeeds[0]] + Zeros(p - 1), [wireSeeds[1]] + Zeros(p - 1)];
      k := 0;
      poly := [];
      step := 0;
    }

    constructor NewQuery(p: nat, wireSeeds: seq<Elt>, gadgetPoly: seq<Elt>)
      requires WireSize(p) && |wireSeeds| == 2 && |gadgetPoly| == GadgetPolyLen(DEGREE, p)
      ensures Valid(p) && k == 0 && ReadsBack(poly, step, p, gadgetPoly)
      ensures wires == [[wireSeeds[0]] + Zeros(p - 1), [wireSeeds[1]] + Zeros(p - 1)]
    {
      var ext, st := RecoverPoly(p, gadgetPoly);
      wires := [[wireSeeds[0]] + Zeros(p - 1), [wireSeeds[1]] + Zeros(p - 1)];
      k := 0;
      poly := ext;
      step := st;
    }

    method Call(inp: seq<Elt>, ghost p: nat) returns (out: Elt)
      requires Valid(p) && |inp| == 2 && k + 1 < p
      modifies this
      ensures Valid(p) && k == old(k) + 1
      ensures wires == [old(wires)[0][k := inp[0]], old(wires)[1][k := inp[1]]]
      ensures poly == [] ==> out == Mul(inp[0], inp[1])
      ensures poly != [] ==> out == poly[k * step]
    {
      k := k + 1;
      wires := [wires[0][k := inp[0]], wires[1][k := inp[1]]];
      if poly != [] {
        assert k * step < p * step;
        return poly[k * step];
      }
      MulIsFp(inp[0], inp[1]);
      return F.Mul(inp[0], inp[1]);
    }
  }

  lemma {:induction false} Pow2Injective(i: nat, j: nat)
    requires Pow2(i) == Pow2(j)
    ensures i == j
  {
    if i > 0 && j > 0 { Pow2Injective(i - 1, j - 1); }
  }

  // ---------- the Count circuit and the proof system over it ----------

  const WIRE_LEN: nat := 2      // nextPowerOf2(1 + 1 gadget call)
  const PROOF_LEN: nat := 5     // two wire seeds and 2 * (WIRE_LEN - 1) + 1 gadget polynomial values
  const VERIFIER_LEN: nat := 4  // circuit output, two wire checks, gadget check
  const PROVE_RAND_LEN: nat := 2
  const QUERY_RAND_LEN: nat := 1

  /** A 0/1 measurement as one field element. */
  function Encode(measurement: int): (r: F.Result<seq<Elt>>)
    ensures r.Ok? <==> measurement == 0 || measurement == 1
    ensures r.Ok? ==> r.value == [measurement]
  {
    if measurement != 0 && measurement != 1 then F.Err("Count measurement must be 0 or 1")
    else F.Ok([F.New(measurement)])
  }

  function Truncate(meas: seq<Elt>): (r: seq<Elt>)
    ensures |r| == |meas| && forall i :: 0 <= i < |r| ==> r[i] == meas[i]
  {
    meas
  }

  /** The aggregate as a signed 64-bit integer, which a sum of 2^63 or more overflows. */
  function Decode(output: seq<Elt>): (r: int)
    requires |output| == 1
    ensures r == output[0] <==> output[0] < 0x8000_0000_0000_0000
    ensures (r - output[0]) % B64 == 0 && -0x8000_0000_0000_0000 <= r < 0x8000_0000_0000_0000
  {
    if output[0] < 0x8000_0000_0000_0000 then output[0] else output[0] - B64
  }

  /** C(x) = x * x - x, with the product taken from the gadget. */
  method EvalCircuit(call: GadgetCall, meas: seq<Elt>) returns (out: seq<Elt>)
    requires call.Valid(WIRE_LEN) && call.k == 0 && |meas| >= 1
    modifies call
    ensures call.Valid(WIRE_LEN) && call.k == 1
    ensures call.wires == [old(call.wires)[0][1 := meas[0]], old(call.wires)[1][1 := meas[0]]]
    ensures call.poly == [] ==> out == [Sub(Mul(meas[0], meas[0]), meas[0])]
    ensures call.poly != [] ==> out == [Sub(call.poly[call.step], meas[0])]
  {
    var squared := call.Call([meas[0], meas[0]], WIRE_LEN);
    out := [F.Sub(squared, meas[0])];
  }

  function Wire(seed: Elt, x: Elt): seq<Elt> { [seed, x] }

  lemma WireRecorded(seed: Elt, x: Elt)
    ensures ([seed] + Zeros(WIRE_LEN - 1))[1 := x] == Wire(seed, x)
  {}

  lemma CountSizes()
    ensures WireSize(2) && Size(1)
  {
    assert IsPow2(1);
    assert IsPow2(2);
    assert IsPow2(4);
  }

  /** The honest proof for measurement element x under prove randomness (s0, s1). */
  function Proof(x: Elt, s0: Elt, s1: Elt): (r: seq<Elt>)
    ensures |r| == PROOF_LEN
  {
    CountSizes();
    [s0, s1] + HonestGadget(Wire(s0, x), Wire(s1, x))
  }

  method Prove(meas: seq<Elt>, proveRand: seq<Elt>) returns (proof: seq<Elt>)
    requires |meas| == 1 && |proveRand| == PROVE_RAND_LEN
    ensures proof == Proof(meas[0], proveRand[0], proveRand[1])
  {
    hide Mul, F.Mul, Pow, Root, Eval, InvTransform, PMul, IsPow2;
    CountSizes();
    var gc := new GadgetCall.NewProve(WIRE_LEN, proveRand);
    var _ := EvalCircuit(gc, meas);
    WireRecorded(proveRand[0], meas[0]);
    WireRecorded(proveRand[1], meas[0]);
    assert gc.wires == [Wire(proveRand[0], meas[0]), Wire(proveRand[1], meas[0])];
    var gadgetPoly := PolyMul(gc.wires[0], gc.wires[1]);
    proof := [gc.wires[0][0], gc.wires[1][0]] + gadgetPoly[..GadgetPolyLen(DEGREE, WIRE_LEN)];
  }

  /** The verifier of a measurement share and a proof share at query point t. */
  function Verifier(x: Elt, proof: seq<Elt>, t: Elt): (v: seq<Elt>)
    requires |proof| == PROOF_LEN
    ensures |v| == VERIFIER_LEN
  {
    CountSizes();
    [Sub(CallOutput(proof[2..], 2, 1), x),
     WireEval(Wire(proof[0], x), t),
     WireEval(Wire(proof[1], x), t),
     WireEval(Recovered(proof[2..], 2), t)]
  }

  /** A query point is refused when it is one of the points the wire polynomials are recorded at. */
  ghost predicate Refused(t: Elt) {
    CountSizes();
    exists k :: 0 <= k < WIRE_LEN && t == Pow(Root(WIRE_LEN), k)
  }

  /** t^p - 1 as a polynomial in t. */
  ghost function UnityPoly(p: nat): (c: seq<Elt>)
    requires p > 0
    ensures |c| == p + 1
  {
    [P - 1] + Zeros(p - 1) + [1]
  }

  lemma UnityPolyEval(p: nat, t: Elt)
    requires p > 0
    ensures Eval(UnityPoly(p), t) == Sub(Pow(t, p), 1)
  {
    hide Mul, Add, Sub, Pow, Eval;
    EvalAppend([P - 1] + Zeros(p - 1), 1, t);
    EvalPad([P - 1], p - 1, t);
    EvalConstant(P - 1, t);
    MulOne(Pow(t, p));
    MinusOne(Pow(t, p));
  }

  lemma EvalConstant(a: Elt, t: Elt)
    ensures Eval([a], t) == a
  {
    hide Mul, Add;
    MulOne(t);
    AddZero(a);
    assert Eval([a][1..], t) == 0;
  }

  lemma MinusOne(a: Elt)
    ensures Add(P - 1, a) == Sub(a, 1)
  {}

  /** For every wire length p, the solutions of t^p = 1 are exactly the p powers of the principal root. */
  lemma UnityRoots(p: nat, t: Elt)
    requires Size(p)
    ensures Pow(t, p) == 1 <==> exists k :: 0 <= k < p && t == Pow(Root(p), k)
  {
    hide Mul, Pow, Root;
    RootIsRoot(p);
    if k :| 0 <= k < p && t == Pow(Root(p), k) {
      PowerOfRoot(Root(p), k, p);
    } else if Pow(t, p) == 1 {
      var k := RootIndex(p, t);
    }
  }

  /** A further solution would be one too many for the polynomial. */
  lemma RootIndex(p: nat, t: Elt) returns (k: nat)
    requires Size(p) && Pow(t, p) == 1
    ensures k < p && t == Pow(Root(p), k)
  {
    hide Mul, Pow, Eval, Root;
    var w := Root(p);
    RootIsRoot(p);
    if t !in Nodes(w, p) {
      NodesDistinct(w, p);
      var xs := Nodes(w, p) + [t];
      forall i | 0 <= i < |xs| ensures Eval(UnityPoly(p), xs[i]) == 0 {
        if i < p { PowerOfRoot(w, i, p); }
        UnitySolves(p, xs[i]);
      }
      RootBound(UnityPoly(p), xs);
      NotZeros(p);
    }
    k :| 0 <= k < p && t == Nodes(w, p)[k];
  }

  lemma UnitySolves(p: nat, x: Elt)
    requires p > 0 && Pow(x, p) == 1
    ensures Eval(UnityPoly(p), x) == 0
  {
    hide Mul, Pow, Eval;
    UnityPolyEval(p, x);
  }

  lemma NotZeros(p: nat)
    requires p > 0
    ensures UnityPoly(p) != Zeros(p + 1)
  {
    assert UnityPoly(p)[p] != Zeros(p + 1)[p];
  }

  lemma PowerOfRoot(w: Elt, k: nat, p: nat)
    requires Pow(w, p) == 1
    ensures Pow(Pow(w, k), p) == 1
  {
    hide Mul, Pow;
    PowPow(w, k, p);
    PowPow(w, p, k);
    PowOne(k);
    assert k * p == p * k;
  }

  /** For Count the refused points are 1 and -1. */
  lemma RefusedPoints(t: Elt)
    ensures Refused(t) <==> t == 1 || t == P - 1
    ensures Refused(t) <==> Pow(t, WIRE_LEN) == 1
  {
    hide Mul, Pow, Root;
    CountSizes();
    UnityRoots(WIRE_LEN, t);
    RootOfTwo();
    assert Refused(t) <==> t == Pow(Root(WIRE_LEN), 0) || t == Pow(Root(WIRE_LEN), 1);
  }

  lemma RootOfTwo()
    ensures Size(2) && Pow(Root(2), 0) == 1 && Pow(Root(2), 1) == P - 1
  {
    hide Mul, Pow, Pow2;
    CountSizes();
    GenChain();
    HalfOrder();
    PowSucc(P - 1, 0);
    MulOne(P - 1);
  }

  lemma HalfOrder()
    ensures Pow2(31) == 0x1_0000_0000 / 2
  {
    assert Pow2(1) == 2;
    hide Pow2;
    P32();
    Pow2Add(1, 31);
  }

  method Query(meas: seq<Elt>, proof: seq<Elt>, queryRand: seq<Elt>, numShares: nat)
    returns (r: F.Result<seq<Elt>>)
    requires |meas| >= 1 && |proof| == PROOF_LEN && |queryRand| == QUERY_RAND_LEN
    ensures r.Err? <==> queryRand[0] == 1 || queryRand[0] == P - 1
    ensures r.Err? <==> Refused(queryRand[0])
    ensures r.Ok? ==> r.value == Verifier(meas[0], proof, queryRand[0])
  {
    hide Mul, F.Mul, Pow, Root, Eval, InvTransform, LagrangePoly, IsPow2, Refused;
    CountSizes();
    var gc := new GadgetCall.NewQuery(WIRE_LEN, proof[..2], proof[2..]);
    var out := EvalCircuit(gc, meas);
    WireRecorded(proof[0], meas[0]);
    WireRecorded(proof[1], meas[0]);
    assert gc.wires == [Wire(proof[0], meas[0]), Wire(proof[1], meas[0])];
    var v := out[0];
    var t := queryRand[0];
    var tp := F.Pow(t, |gc.wires[0]|);
    RefusedPoints(t);
    if tp == 1 {
      return F.Err("query randomness is a root of unity");
    }
    var wireChecks := PolyEvalBatched(gc.wires, t);
    var gadgetCheck := PolyEval(gc.poly, t);
    FitSelf(gc.wires[0]);
    FitSelf(gc.wires[1]);
    r := F.Ok([v] + wireChecks + [gadgetCheck]);
  }

  lemma FitSelf(w: seq<Elt>)
    ensures Accumulators.Fit(w, |w|) == w
  {}

  function Decide(verifier: seq<Elt>): (r: bool)
    requires |verifier| == VERIFIER_LEN
    ensures r <==> verifier[0] == 0 && Mul(verifier[1], verifier[2]) == verifier[3]
  {
    verifier[0] == 0 && F.Mul(verifier[1], verifier[2]) == verifier[3]
  }
}
