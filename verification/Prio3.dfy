/** Prio3Count: sharding, preparation and unsharding over any number of aggregators. */
module Prio3 {
  import opened Fp
  import opened Bytes
  import opened Poly
  import opened Flp
  import opened FlpTheorems
  import opened XofFormat
  import FieldVec
  import F = Field64

  const ALGORITHM_ID: nat := 1
  const SEED_SIZE: nat := 32
  const NONCE_SIZE: nat := 16
  const PROOFS: byte := 1

  /** The XOF's one-shot vector expansion: (seed, dst, binder, length) to a vector of that length. */
  type Expander = (seq<byte>, seq<byte>, seq<byte>, nat) -> seq<Elt>

  datatype InputShare = InputShare(aggID: byte, measShare: seq<Elt>, proofsShare: seq<Elt>, seed: seq<byte>)

  datatype Prepared = Prepared(outShare: seq<Elt>, verifiers: seq<Elt>)

  datatype Count = Count(shares: nat, ctx: seq<byte>, expand: Expander) {
    ghost predicate Valid() {
      && 2 <= shares < 256
      && forall s, d, b, n :: |expand(s, d, b, n)| == n
    }

    function Dst(usage: nat): seq<byte> { DomainSeparationTag(usage, ALGORITHM_ID, ctx) }

    /** Whether the context leaves room for the two-byte tag length prefix. */
    predicate ContextFits() { |ctx| <= 65527 }

    function Expand(seed: seq<byte>, usage: nat, binder: seq<byte>, n: nat): (r: F.Result<seq<Elt>>)
      requires Valid()
      ensures r.Ok? <==> |seed| <= 255 && ContextFits()
      ensures r.Ok? ==> |r.value| == n && r.value == expand(seed, Dst(usage), binder, n)
    {
      if |seed| > 255 then F.Err("seed longer than 255 bytes")
      else if |Dst(usage)| > 65535 then F.Err("dst longer than 65535 bytes")
      else F.Ok(expand(seed, Dst(usage), binder, n))
    }

    function HelperMeas(aggID: byte, seed: seq<byte>): seq<Elt> { expand(seed, Dst(USAGE_MEAS_SHARE), [aggID], 1) }

    function HelperProofs(aggID: byte, seed: seq<byte>): seq<Elt> { expand(seed, Dst(USAGE_PROOF_SHARE), [PROOFS,
        aggID], PROOF_LEN) }

    function ProveRands(seed: seq<byte>): seq<Elt> { expand(seed, Dst(USAGE_PROVE_RANDOMNESS), [PROOFS],
        PROVE_RAND_LEN) }

    /** The query point every aggregator derives from the verify key and the nonce. */
    function QueryPoint(verifyKey: seq<byte>, nonce: seq<byte>): Elt
      requires Valid()
    {
      expand(verifyKey, Dst(USAGE_QUERY_RANDOMNESS), [PROOFS] + nonce, QUERY_RAND_LEN)[0]
    }

    /** A share an aggregator can expand: a leader carries vectors of the right lengths. */
    predicate WellFormed(share: InputShare) {
      share.aggID == 0 ==> |share.measShare| == 1 && |share.proofsShare| == PROOF_LEN
    }

    /** A share an aggregator can prepare at all: a Leader's vectors may also be longer than they should be. */
    predicate Usable(share: InputShare) {
      share.aggID == 0 ==> |share.measShare| >= 1 && |share.proofsShare| >= PROOF_LEN
    }

    /** What preparation takes for the measurement share: all of a Leader's vector. */
    function UsedMeas(share: InputShare): (r: seq<Elt>)
      requires Valid() && Usable(share)
      ensures |r| >= 1 && (WellFormed(share) ==> r == MeasShare(share))
    {
      if share.aggID == 0 then share.measShare else HelperMeas(share.aggID, share.seed)
    }

    /** What preparation takes for the proof share: the first elements of a Leader's vector. */
    function UsedProof(share: InputShare): (r: seq<Elt>)
      requires Valid() && Usable(share)
      ensures |r| == PROOF_LEN && (WellFormed(share) ==> r == ProofShare(share))
    {
      if share.aggID == 0 then share.proofsShare[..PROOF_LEN] else HelperProofs(share.aggID, share.seed)
    }

    function MeasShare(share: InputShare): (r: seq<Elt>)
      requires Valid() && WellFormed(share)
      ensures |r| == 1
    {
      if share.aggID == 0 then share.measShare else HelperMeas(share.aggID, share.seed)
    }

    function ProofShare(share: InputShare): (r: seq<Elt>)
      requires Valid() && WellFormed(share)
      ensures |r| == PROOF_LEN
    {
      if share.aggID == 0 then share.proofsShare else HelperProofs(share.aggID, share.seed)
    }

    ghost predicate AllWellFormed(shares: seq<InputShare>) {
      forall i :: 0 <= i < |shares| ==> WellFormed(shares[i])
    }

    /** The measurement element the shares add up to. */
    ghost function Measured(shares: seq<InputShare>): Elt
      requires Valid() && AllWellFormed(shares)
    {
      if |shares| == 0 then 0
      else Add(Measured(shares[..|shares| - 1]), MeasShare(shares[|shares| - 1])[0])
    }

    /** The proof the shares add up to. */
    ghost function Proved(shares: seq<InputShare>): (p: seq<Elt>)
      requires Valid() && AllWellFormed(shares)
      ensures |p| == PROOF_LEN
    {
      if |shares| == 0 then Zeros(PROOF_LEN)
      else VAdd(Proved(shares[..|shares| - 1]), ProofShare(shares[|shares| - 1]))
    }

    /** The sum of the verifier shares of all aggregators. */
    ghost function Combined(shares: seq<InputShare>, t: Elt): (v: seq<Elt>)
      requires Valid() && AllWellFormed(shares)
      ensures |v| == VERIFIER_LEN
    {
      if |shares| == 0 then Zeros(VERIFIER_LEN)
      else
        var last := shares[|shares| - 1];
        VAdd(Combined(shares[..|shares| - 1], t), Verifier(MeasShare(last)[0], ProofShare(last), t))
    }

    /** An honest sharing of measurement x with prove randomness from proveSeed. */
    ghost predicate Shares(x: Elt, proveSeed: seq<byte>, input: seq<InputShare>)
      requires Valid()
    {
      && |input| == shares && AllWellFormed(input)
      && (forall i :: 0 <= i < |input| ==> input[i].aggID as int == i && |input[i].seed| <= SEED_SIZE)
      && Measured(input) == x
      && Proved(input) == Proof(x, ProveRands(proveSeed)[0], ProveRands(proveSeed)[1])
    }

    /** Helper j + 1 holds the j-th seed of the sharding randomness. */
    function HelperAt(rand: seq<byte>, j: nat): (r: InputShare)
      requires j < 255 && SEED_SIZE * (j + 1) <= |rand|
      ensures r.aggID as int == j + 1 && |r.seed| == SEED_SIZE
    {
      InputShare((j + 1) as byte, [], [], rand[SEED_SIZE * j..SEED_SIZE * (j + 1)])
    }

    /** The first k helper shares cut from the sharding randomness. */
    function Helpers(rand: seq<byte>, k: nat): (r: seq<InputShare>)
      requires k < 256 && SEED_SIZE * k <= |rand|
      ensures |r| == k
      ensures forall i :: 0 <= i < k ==>
        r[i] == InputShare((i + 1) as byte, [], [], rand[SEED_SIZE * i..SEED_SIZE * (i + 1)])
    {
      if k == 0 then [] else Helpers(rand, k - 1) + [HelperAt(rand, k - 1)]
    }

    lemma {:induction false} LeaderFirst(leader: InputShare, rest: seq<InputShare>)
      requires Valid() && WellFormed(leader) && AllWellFormed(rest)
      ensures AllWellFormed([leader] + rest)
      ensures Measured([leader] + rest) == Add(MeasShare(leader)[0], Measured(rest))
      ensures Proved([leader] + rest) == VAdd(ProofShare(leader), Proved(rest))
    {
      hide Add, MeasShare, ProofShare, VAdd;
      var all := [leader] + rest;
      if |rest| == 0 {
        assert all[..0] == [];
        Neutral(MeasShare(leader)[0], ProofShare(leader));
      } else {
        var last := rest[|rest| - 1];
        LeaderFirst(leader, rest[..|rest| - 1]);
        assert all[..|all| - 1] == [leader] + rest[..|rest| - 1];
        AddAssoc(MeasShare(leader)[0], Measured(rest[..|rest| - 1]), MeasShare(last)[0]);
        VAddAssoc(ProofShare(leader), Proved(rest[..|rest| - 1]), ProofShare(last));
      }
    }

    lemma NextHelper(rand: seq<byte>, j: nat)
      requires Valid() && j < 255 && SEED_SIZE * (j + 1) <= |rand|
      ensures var h := HelperAt(rand, j);
        && Helpers(rand, j + 1) == Helpers(rand, j) + [h]
        && Measured(Helpers(rand, j + 1)) == Add(Measured(Helpers(rand, j)), HelperMeas(h.aggID, h.seed)[0])
        && Proved(Helpers(rand, j + 1)) == VAdd(Proved(Helpers(rand, j)), HelperProofs(h.aggID, h.seed))
    {
      hide Add, VAdd, HelperMeas, HelperProofs;
      assert Helpers(rand, j + 1)[..j] == Helpers(rand, j);
    }

    /** The measurement minus every helper's share of it. */
    method LeaderMeas(measurement: Elt, rand: seq<byte>) returns (r: F.Result<seq<Elt>>)
      requires Valid() && |rand| == SEED_SIZE * shares
      ensures r.Ok? <==> ContextFits()
      ensures r.Ok? ==> r.value == [Sub(measurement, Measured(Helpers(rand, shares - 1)))]
    {
      hide Add, Sub, DomainSeparationTag, VSub, Measured, Proved, Helpers;
      var leaderMeas := [measurement];
      NoHelpers(rand);
      Neutral(measurement, Zeros(PROOF_LEN));
      for j := 0 to shares - 1
        invariant j > 0 ==> ContextFits()
        invariant leaderMeas == [Sub(measurement, Measured(Helpers(rand, j)))]
      {
        var h := HelperAt(rand, j);
        var hms := Expand(h.seed, USAGE_MEAS_SHARE, [h.aggID], 1);
        if hms.Err? { return F.Err(hms.reason); }
        NextHelper(rand, j);
        SubSub(measurement, Measured(Helpers(rand, j)), hms.value[0]);
        var d := FieldVec.VecSub(leaderMeas, hms.value);
        leaderMeas := d.value;
      }
      r := F.Ok(leaderMeas);
    }

    /** The proof minus every helper's share of it. */
    method LeaderProofs(proof: seq<Elt>, rand: seq<byte>) returns (leaderProofs: seq<Elt>)
      requires Valid() && |rand| == SEED_SIZE * shares && |proof| == PROOF_LEN && ContextFits()
      ensures leaderProofs == VSub(proof, Proved(Helpers(rand, shares - 1)))
    {
      hide Add, Sub, DomainSeparationTag, VSub, Measured, Proved, Helpers;
      leaderProofs := proof;
      NoHelpers(rand);
      Neutral(0, proof);
      for j := 0 to shares - 1
        invariant leaderProofs == VSub(proof, Proved(Helpers(rand, j)))
      {
        var h := HelperAt(rand, j);
        var hps := Expand(h.seed, USAGE_PROOF_SHARE, [PROOFS, h.aggID], PROOF_LEN);
        NextHelper(rand, j);
        VSubSub(proof, Proved(Helpers(rand, j)), hps.value);
        var d := FieldVec.VecSub(leaderProofs, hps.value);
        leaderProofs := d.value;
      }
    }

    lemma NoHelpers(rand: seq<byte>)
      requires Valid()
      ensures Measured(Helpers(rand, 0)) == 0 && Proved(Helpers(rand, 0)) == Zeros(PROOF_LEN)
    {}

    method Shard(measurement: int, nonce: seq<byte>, rand: seq<byte>) returns (r: F.Result<seq<InputShare>>)
      requires Valid()
      ensures r.Ok? <==>
        && |nonce| == NONCE_SIZE && |rand| == SEED_SIZE * shares
        && (measurement == 0 || measurement == 1) && ContextFits()
      ensures r.Ok? ==> Shares(measurement, rand[SEED_SIZE * (shares - 1)..], r.value)
      ensures r.Ok? ==> |r.value| == shares && r.value[0].aggID == 0 && r.value[0].seed == []
      ensures r.Ok? ==> forall j :: 1 <= j < shares ==>
        r.value[j] == InputShare(j as byte, [], [], rand[SEED_SIZE * (j - 1)..SEED_SIZE * j])
    {
      hide Add, Sub, Mul, DomainSeparationTag, Proof, VAdd, VSub, Measured, Proved, Helpers;
      if |nonce| != NONCE_SIZE { return F.Err("incorrect nonce size"); }
      if |rand| != SEED_SIZE * shares { return F.Err("incorrect random bytes size"); }
      var enc := Encode(measurement);
      if enc.Err? { return F.Err(enc.reason); }
      var meas := enc.value;
      var proveSeed := rand[SEED_SIZE * (shares - 1)..];

      var leaderMeas := LeaderMeas(meas[0], rand);
      if leaderMeas.Err? { return F.Err(leaderMeas.reason); }

      var proveRands := Expand(proveSeed, USAGE_PROVE_RANDOMNESS, [PROOFS], PROVE_RAND_LEN).value;
      var proof := Prove(meas, proveRands);
      var leaderProofs := LeaderProofs(proof, rand);

      var leader := InputShare(0, leaderMeas.value, leaderProofs, []);
      var input := [leader];
      assert Helpers(rand, 0) == [];
      for j := 0 to shares - 1
        invariant input == [leader] + Helpers(rand, j)
      {
        NextHelper(rand, j);
        input := input + [HelperAt(rand, j)];
      }
      ghost var helpers := Helpers(rand, shares - 1);
      LeaderFirst(leader, helpers);
      SubAsAdd(measurement, Measured(helpers));
      VSubAdd(proof, Proved(helpers));
      r := F.Ok(input);
    }

    /** One aggregator's single preparation round; the public share of Count is empty and unused. */
    method VerifyInit(verifyKey: seq<byte>, aggID: byte, nonce: seq<byte>, share: InputShare)
      returns (r: F.Result<Prepared>)
      requires Valid() && Usable(share)
      ensures r.Ok? <==>
        && aggID as int < shares && share.aggID == aggID
        && (aggID != 0 ==> |share.seed| <= 255)
        && |verifyKey| <= 255 && ContextFits()
        && QueryPoint(verifyKey, nonce) != 1 && QueryPoint(verifyKey, nonce) != P - 1
      ensures r.Ok? ==>
        r.value == Prepared(
          UsedMeas(share), Verifier(UsedMeas(share)[0], UsedProof(share), QueryPoint(verifyKey, nonce)))
      ensures r.Ok? ==>
        var (meas, proof) := if aggID == 0 then (share.measShare, share.proofsShare[..5])
          else (HelperMeas(aggID, share.seed), HelperProofs(aggID, share.seed));
        r.value.outShare == meas && r.value.verifiers == Verifier(meas[0], proof, QueryPoint(verifyKey, nonce))
    {
      hide Add, Sub, Mul, Pow, DomainSeparationTag, Verifier;
      if aggID as int >= shares { return F.Err("invalid aggregator id"); }
      if share.aggID != aggID { return F.Err("invalid aggregator id"); }
      var measShare, proofsShare := share.measShare, share.proofsShare;
      if aggID != 0 {
        var m := Expand(share.seed, USAGE_MEAS_SHARE, [aggID], 1);
        var p := Expand(share.seed, USAGE_PROOF_SHARE, [PROOFS, aggID], PROOF_LEN);
        if m.Err? || p.Err? { return F.Err("cannot expand the helper share"); }
        measShare, proofsShare := m.value, p.value;
      }
      var outShare := Truncate(measShare);
      var queryRands := Expand(verifyKey, USAGE_QUERY_RANDOMNESS, [PROOFS] + nonce, QUERY_RAND_LEN);
      if queryRands.Err? { return F.Err(queryRands.reason); }
      var proofShare := proofsShare[..PROOF_LEN];
      assert proofShare == UsedProof(share);
      var v := Query(measShare, proofShare, queryRands.value, shares);
      if v.Err? { return F.Err(v.reason); }
      r := F.Ok(Prepared(outShare, v.value));
    }

    // ---------- what the expansions bind ----------

    /** The four expansions, argument by argument: each has its usage in the tag, and its binder. */
    lemma Expansions(aggID: byte, seed: seq<byte>, verifyKey: seq<byte>, nonce: seq<byte>)
      requires Valid()
      ensures HelperMeas(aggID, seed) == expand(seed, [18, 0, 0, 0, 0, 1, 0, 1] + ctx, [aggID], 1)
      ensures HelperProofs(aggID, seed) == expand(seed, [18, 0, 0, 0, 0, 1, 0, 2] + ctx, [1, aggID], 5)
      ensures ProveRands(seed) == expand(seed, [18, 0, 0, 0, 0, 1, 0, 4] + ctx, [1], 2)
      ensures [QueryPoint(verifyKey, nonce)] == expand(verifyKey, [18, 0, 0, 0, 0, 1, 0, 5] + ctx, [1] + nonce, 1)
    {
      hide DomainSeparationTag;
      TagBytes(1, 1, ctx);
      TagBytes(2, 1, ctx);
      TagBytes(4, 1, ctx);
      TagBytes(5, 1, ctx);
    }

    /** What the XOF absorbs for an expansion with this usage. */
    function Absorbs(seed: seq<byte>, usage: byte, binder: seq<byte>): seq<byte>
      requires |seed| <= 255
    {
      XofInput(seed, [18, 0, 0, 0, 0, 1, 0, usage] + ctx, binder)
    }

    /** Different usages, contexts, seeds or keys, aggregators or nonces: never the same absorbed string. */
    lemma ExpansionsApart(other: Count, s: seq<byte>, u: byte, b: seq<byte>, s': seq<byte>, u': byte, b': seq<byte>)
      requires ContextFits() && other.ContextFits() && |s| <= 255 && |s'| <= 255
      requires Absorbs(s, u, b) == other.Absorbs(s', u', b')
      ensures s == s' && u == u' && b == b' && ctx == other.ctx
    {
      hide XofInput;
      var d, d' := [18, 0, 0, 0, 0, 1, 0, u] + ctx, [18, 0, 0, 0, 0, 1, 0, u'] + other.ctx;
      InputInjective(s, d, b, s', d', b');
      assert d[7] == u && d'[7] == u' && d[8..] == ctx && d'[8..] == other.ctx;
    }

    /** The input shares show every seed: sharding with different helper seeds gives different shares. */
    lemma SharesShowSeeds(rand: seq<byte>, input: seq<InputShare>, rand': seq<byte>, input': seq<InputShare>)
      requires Valid() && |rand| == |rand'| == SEED_SIZE * shares && |input| == |input'| == shares
      requires forall j :: 1 <= j < shares ==>
        input[j] == InputShare(j as byte, [], [], rand[SEED_SIZE * (j - 1)..SEED_SIZE * j])
      requires forall j :: 1 <= j < shares ==>
        input'[j] == InputShare(j as byte, [], [], rand'[SEED_SIZE * (j - 1)..SEED_SIZE * j])
      requires input == input'
      ensures rand[..SEED_SIZE * (shares - 1)] == rand'[..SEED_SIZE * (shares - 1)]
    {
      var n := SEED_SIZE * (shares - 1);
      forall i | 0 <= i < n ensures rand[i] == rand'[i] {
        var j := i / SEED_SIZE + 1;
        assert input[j].seed[i % SEED_SIZE] == rand[i] && input'[j].seed[i % SEED_SIZE] == rand'[i];
      }
    }

    // ---------- correctness and soundness ----------

    /** The verifier shares add up to the verifier of what the input shares add up to. */
    lemma {:induction false} CombinedIsVerifier(input: seq<InputShare>, t: Elt)
      requires Valid() && AllWellFormed(input)
      ensures Combined(input, t) == Verifier(Measured(input), Proved(input), t)
    {
      hide Add, VAdd, Verifier, MeasShare, ProofShare;
      if |input| == 0 {
        VerifierZero(t);
      } else {
        var init, last := input[..|input| - 1], input[|input| - 1];
        CombinedIsVerifier(init, t);
        VerifierLinear(Measured(init), MeasShare(last)[0], Proved(init), ProofShare(last), t);
      }
    }

    /** Honest shares of any field element pass verification exactly when it is 0 or 1. */
    lemma HonestAccepted(x: Elt, proveSeed: seq<byte>, input: seq<InputShare>, t: Elt)
      requires Valid() && Shares(x, proveSeed, input)
      ensures Decide(Combined(input, t)) <==> x == 0 || x == 1
    {
      hide Verifier, Proof, Combined, Measured, Proved;
      CombinedIsVerifier(input, t);
      Exactness(x, ProveRands(proveSeed)[0], ProveRands(proveSeed)[1], t);
    }

    /** Whatever the shares, a measurement outside {0, 1} passes at no more than two query points. */
    lemma ForgedRejected(input: seq<InputShare>, ts: seq<Elt>)
      requires Valid() && AllWellFormed(input)
      requires Measured(input) != 0 && Measured(input) != 1
      requires Distinct(ts) && forall i :: 0 <= i < |ts| ==> Decide(Combined(input, ts[i]))
      ensures |ts| <= 2
    {
      hide Verifier, Combined, Measured, Proved;
      forall i | 0 <= i < |ts|
        ensures Decide(Verifier(Measured(input), Proved(input), ts[i]))
      {
        CombinedIsVerifier(input, ts[i]);
      }
      Soundness(Measured(input), Proved(input), ts);
    }
  }

  /** A scheme for at least two aggregators. */
  function NewCount(numShares: byte, ctx: seq<byte>, expand: Expander): (r: F.Result<Count>)
    requires forall s, d, b, n :: |expand(s, d, b, n)| == n
    ensures r.Ok? <==> numShares >= 2
    ensures r.Ok? ==> r.value.Valid() && r.value.shares == numShares as int && r.value.ctx == ctx
  {
    if numShares < 2 then F.Err("share count must be in [2, 256)") else F.Ok(Count(numShares, ctx, expand))
  }

  // ---------- combining ----------

  ghost predicate AllLength(vs: seq<seq<Elt>>, n: nat) { forall i :: 0 <= i < |vs| ==> |vs[i]| == n }

  ghost function SumVectors(vs: seq<seq<Elt>>, n: nat): (r: seq<Elt>)
    requires AllLength(vs, n)
    ensures |r| == n
  {
    if |vs| == 0 then Zeros(n) else VAdd(SumVectors(vs[..|vs| - 1], n), vs[|vs| - 1])
  }

  lemma NextVector(vs: seq<seq<Elt>>, n: nat)
    requires |vs| > 0 && AllLength(vs, n)
    ensures AllLength(vs[..|vs| - 1], n)
    ensures SumVectors(vs, n) == VAdd(SumVectors(vs[..|vs| - 1], n), vs[|vs| - 1])
  {
    hide Add, VAdd;
  }

  /** Element-wise sum of vectors, refusing a vector of the wrong length. */
  method AddAll(vs: seq<seq<Elt>>, n: nat) returns (r: F.Result<seq<Elt>>)
    ensures r.Ok? <==> AllLength(vs, n)
    ensures r.Ok? ==> r.value == SumVectors(vs, n)
  {
    hide Add, VAdd;
    var acc := Zeros(n);
    for i := 0 to |vs|
      invariant |acc| == n && AllLength(vs[..i], n) && acc == SumVectors(vs[..i], n)
    {
      var sum := FieldVec.VecAdd(acc, vs[i]);
      if sum.Err? { return F.Err(sum.reason); }
      assert vs[..i + 1][..i] == vs[..i];
      acc := sum.value;
    }
    assert vs[..|vs|] == vs;
    r := F.Ok(acc);
  }

  /** Sums the verifier shares and checks the proof; the verifier message of Count is empty. */
  method VerifierSharesToMessage(verifiers: seq<seq<Elt>>) returns (r: F.Result<seq<byte>>)
    ensures r.Ok? <==> AllLength(verifiers, VERIFIER_LEN) && Decide(SumVectors(verifiers, VERIFIER_LEN))
    ensures r.Ok? ==> r.value == []
  {
    hide Decide;
    var sum := AddAll(verifiers, VERIFIER_LEN);
    if sum.Err? { return F.Err(sum.reason); }
    if !Decide(sum.value) { return F.Err("proof verifier check failed"); }
    r := F.Ok([]);
  }

  function VerifyNext(state: Prepared, message: seq<byte>): F.Result<seq<Elt>> {
    if |message| != 0 then F.Err("unexpected non-empty verifier message") else F.Ok(state.outShare)
  }

  function AggregateInit(): seq<Elt> { Zeros(1) }

  method AggregateUpdate(aggShare: seq<Elt>, outShare: seq<Elt>) returns (r: F.Result<seq<Elt>>)
    ensures r.Ok? <==> |aggShare| == |outShare|
    ensures r.Ok? ==> r.value == VAdd(aggShare, outShare)
  {
    r := FieldVec.VecAdd(aggShare, outShare);
  }

  method Unshard(aggShares: seq<seq<Elt>>) returns (r: F.Result<int>)
    ensures r.Ok? <==> AllLength(aggShares, 1)
    ensures r.Ok? ==> (r.value == SumVectors(aggShares, 1)[0] <==> SumVectors(aggShares, 1)[0] < 0x8000_0000_0000_0000)
    ensures r.Ok? ==> r.value == Decode(SumVectors(aggShares, 1))
  {
    var sum := AddAll(aggShares, 1);
    if sum.Err? { return F.Err(sum.reason); }
    r := F.Ok(Decode(sum.value));
  }

  /** A whole honest run: shard, prepare at every aggregator, verify, finish, aggregate one report, unshard. */
  method HonestRun(c: Count, measurement: int, nonce: seq<byte>, rand: seq<byte>, verifyKey: seq<byte>)
    returns (r: F.Result<int>)
    requires c.Valid()
    ensures r.Ok? <==>
      && |nonce| == NONCE_SIZE && |rand| == SEED_SIZE * c.shares && (measurement == 0 || measurement == 1)
      && c.ContextFits() && |verifyKey| <= 255
      && c.QueryPoint(verifyKey, nonce) != 1 && c.QueryPoint(verifyKey, nonce) != P - 1
    ensures r.Ok? ==> r.value == measurement
  {
    hide Add, VAdd, Verifier, Proof, Decide, SumVectors, OutShares, RunSoFar, c.Combined, c.Measured,
      c.Proved, c.Shares, c.QueryPoint;
    var sharded := c.Shard(measurement, nonce, rand);
    if sharded.Err? { return F.Err(sharded.reason); }
    var input := sharded.value;
    ghost var t := c.QueryPoint(verifyKey, nonce);
    var verifiers: seq<seq<Elt>>, states: seq<Prepared> := [], [];
    HonestFacts(c, measurement, rand[SEED_SIZE * (c.shares - 1)..], input, t);
    for i := 0 to |input|
      invariant i > 0 ==> |verifyKey| <= 255 && t != 1 && t != P - 1
      invariant RunSoFar(c, input[..i], t, verifiers, states)
    {
      var p := c.VerifyInit(verifyKey, i as byte, nonce, input[i]);
      if p.Err? { return F.Err(p.reason); }
      RunExtends(c, input, i, t, verifiers, states, p.value);
      verifiers := verifiers + [p.value.verifiers];
      states := states + [p.value];
    }
    assert input[..|input|] == input;
    RunSums(c, measurement, rand[SEED_SIZE * (c.shares - 1)..], input, t, verifiers, states);
    var message := VerifierSharesToMessage(verifiers);
    var aggShares := AggregateEach(states, message.value);
    r := Unshard(aggShares);
  }

  /** Every aggregator finishes and adds its output share to an empty aggregate. */
  method AggregateEach(states: seq<Prepared>, message: seq<byte>) returns (aggShares: seq<seq<Elt>>)
    requires message == [] && forall i :: 0 <= i < |states| ==> |states[i].outShare| == 1
    ensures aggShares == OutShares(states)
  {
    hide Add, VAdd;
    aggShares := [];
    for i := 0 to |states|
      invariant aggShares == OutShares(states[..i])
    {
      var out := VerifyNext(states[i], message);
      var agg := AggregateUpdate(AggregateInit(), out.value);
      ZeroVector(out.value);
      assert states[..i + 1][..i] == states[..i];
      aggShares := aggShares + [agg.value];
    }
    assert states[..|states|] == states;
  }

  ghost function OutShares(states: seq<Prepared>): (r: seq<seq<Elt>>)
    ensures |r| == |states| && forall i :: 0 <= i < |r| ==> r[i] == states[i].outShare
  {
    if |states| == 0 then [] else OutShares(states[..|states| - 1]) + [states[|states| - 1].outShare]
  }

  lemma ZeroVector(v: seq<Elt>)
    requires |v| == 1
    ensures VAdd(Zeros(1), v) == v
  {}

  ghost predicate RunSoFar(c: Count, input: seq<InputShare>, t: Elt, verifiers: seq<seq<Elt>>, states: seq<Prepared>) {
    && c.Valid() && c.AllWellFormed(input)
    && |verifiers| == |states| == |input|
    && (forall i :: 0 <= i < |states| ==> |states[i].outShare| == 1)
    && AllLength(verifiers, VERIFIER_LEN) && AllLength(OutShares(states), 1)
    && SumVectors(verifiers, VERIFIER_LEN) == c.Combined(input, t)
    && SumVectors(OutShares(states), 1) == [c.Measured(input)]
  }

  lemma HonestFacts(c: Count, x: Elt, proveSeed: seq<byte>, input: seq<InputShare>, t: Elt)
    requires c.Valid() && c.Shares(x, proveSeed, input)
    ensures |input| == c.shares && 2 <= c.shares < 256
    ensures forall i :: 0 <= i < |input| ==>
      c.WellFormed(input[i]) && input[i].aggID as int == i && |input[i].seed| <= 255
    ensures RunSoFar(c, input[..0], t, [], []) && c.Measured(input) == x
  {
    assert input[..0] == [];
  }

  lemma RunExtends(c: Count, input: seq<InputShare>, i: nat, t: Elt, verifiers: seq<seq<Elt>>, states: seq<Prepared>,
      p: Prepared)
    requires i < |input| && RunSoFar(c, input[..i], t, verifiers, states) && c.WellFormed(input[i])
    requires p == Prepared(c.MeasShare(input[i]), Verifier(c.MeasShare(input[i])[0], c.ProofShare(input[i]), t))
    ensures RunSoFar(c, input[..i + 1], t, verifiers + [p.verifiers], states + [p])
  {
    hide Add, VAdd, Verifier, SumVectors, OutShares, c.Combined, c.Measured, c.Proved;
    var input', vs, ss := input[..i + 1], verifiers + [p.verifiers], states + [p];
    assert input'[..i] == input[..i] && vs[..i] == verifiers && ss[..i] == states;
    NextOutShare(states, p);
    var outs := OutShares(ss);
    assert outs[..i] == OutShares(states);
    NextVector(vs, VERIFIER_LEN);
    NextVector(outs, 1);
    NextMeasured(c, input', t);
    OneElement(c.Measured(input[..i]), p.outShare);
  }

  lemma NextOutShare(states: seq<Prepared>, p: Prepared)
    ensures OutShares(states + [p]) == OutShares(states) + [p.outShare]
  {
    assert (states + [p])[..|states|] == states;
  }

  lemma NextMeasured(c: Count, input: seq<InputShare>, t: Elt)
    requires c.Valid() && c.AllWellFormed(input) && |input| > 0
    ensures var init, last := input[..|input| - 1], input[|input| - 1];
      && c.Measured(input) == Add(c.Measured(init), c.MeasShare(last)[0])
      && c.Combined(input, t) == VAdd(c.Combined(init, t), Verifier(c.MeasShare(last)[0], c.ProofShare(last), t))
  {
    hide Add, VAdd, Verifier;
  }

  lemma OneElement(m: Elt, v: seq<Elt>)
    requires |v| == 1
    ensures VAdd([m], v) == [Add(m, v[0])]
  {}

  lemma RunSums(c: Count, x: Elt, s: seq<byte>, input: seq<InputShare>, t: Elt, verifiers: seq<seq<Elt>>,
      states: seq<Prepared>)
    requires RunSoFar(c, input, t, verifiers, states)
    requires (x == 0 || x == 1) && c.Shares(x, s, input)
    ensures AllLength(verifiers, VERIFIER_LEN) && Decide(SumVectors(verifiers, VERIFIER_LEN))
    ensures AllLength(OutShares(states), 1) && SumVectors(OutShares(states), 1) == [x]
    ensures forall i :: 0 <= i < |states| ==> |states[i].outShare| == 1
  {
    hide Decide, SumVectors, c.Combined;
    c.HonestAccepted(x, s, input, t);
  }

  lemma Neutral(x: Elt, p: seq<Elt>)
    requires |p| == PROOF_LEN
    ensures Sub(x, 0) == x && VSub(p, Zeros(PROOF_LEN)) == p
    ensures Add(0, x) == Add(x, 0) == x && VAdd(Zeros(PROOF_LEN), p) == VAdd(p, Zeros(PROOF_LEN)) == p
  {
    hide Add, Sub;
    AddZero(x);
    forall y: Elt ensures Sub(y, 0) == y == Add(0, y) == Add(y, 0) { AddZero(y); }
    var z := Zeros(PROOF_LEN);
    assert VSub(p, z) == p && VAdd(z, p) == p && VAdd(p, z) == p;
  }

  lemma SubSub(x: Elt, a: Elt, b: Elt)
    ensures Sub(Sub(x, a), b) == Sub(x, Add(a, b))
  {}

  lemma VSubSub(p: seq<Elt>, a: seq<Elt>, b: seq<Elt>)
    requires |p| == |a| == |b|
    ensures VSub(VSub(p, a), b) == VSub(p, VAdd(a, b))
  {
    hide Add, Sub;
    var l, r := VSub(VSub(p, a), b), VSub(p, VAdd(a, b));
    forall i | 0 <= i < |p| ensures l[i] == r[i] { SubSub(p[i], a[i], b[i]); }
  }

  lemma VSubAdd(p: seq<Elt>, a: seq<Elt>)
    requires |p| == |a|
    ensures VAdd(VSub(p, a), a) == p
  {
    hide Add, Sub;
    forall i | 0 <= i < |p| ensures VAdd(VSub(p, a), a)[i] == p[i] { SubAsAdd(p[i], a[i]); }
  }

  lemma VAddAssoc(a: seq<Elt>, b: seq<Elt>, c: seq<Elt>)
    requires |a| == |b| == |c|
    ensures VAdd(VAdd(a, b), c) == VAdd(a, VAdd(b, c))
  {
    hide Add;
    var l, r := VAdd(VAdd(a, b), c), VAdd(a, VAdd(b, c));
    forall i | 0 <= i < |a| ensures l[i] == r[i] { AddAssoc(a[i], b[i], c[i]); }
  }
}
