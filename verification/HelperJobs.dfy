/** What the Helper computes for one report and for one aggregation job. */
module HelperJobs {
  import opened Bytes
  import opened Wire
  import opened Messages
  import opened Flp
  import opened Prio3
  import Codec
  import opened Poly
  import Prio3Encode
  import FieldVec
  import Fp

  type Elt = Fp.Elt
  type JobID = s: seq<byte> | |s| == 16 witness seq(16, _ => 0)
  type Hash = s: seq<byte> | |s| == 32 witness seq(32, _ => 0)

  const HELPER_ID: byte := 1
  const ROLE_CLIENT: byte := 1
  const ROLE_HELPER: byte := 3

  datatype Task = Task(
    taskID: TaskID, variant: Variant, config: TaskConfig, vdafContext: seq<byte>,
    verifyKeys: map<nat, Hash>, hpkeConfigID: nat, privateKey: seq<byte>)

  /** Deterministic primitives outside the model: HPKE open, SHA-256, and the XOF's vector expansion.
      open takes the private key, the info string, the encapsulated key, the associated data and the ciphertext. */
  datatype Env = Env(
    open: (seq<byte>, seq<byte>, seq<byte>, seq<byte>, seq<byte>) -> Option<seq<byte>>,
    sha: seq<byte> -> Hash,
    expand: Expander)
  {
    ghost predicate Valid() { Vdaf([]).Valid() }

    function Vdaf(ctx: seq<byte>): Count { Count(2, ctx, expand) }
  }

  predicate AfterDraft18(v: Variant) { v.Draft19? || v.Draft20? }

  /** "dap-18", "dap-19" or "dap-20" in ASCII. */
  function VersionString(v: Variant): seq<byte> {
    [100, 97, 112, 45] + match v case Draft19 => [49, 57] case Draft20 => [50, 48] case _ => [49, 56]
  }

  /** The version string, " input share", and the sender and recipient roles. */
  function InputShareInfo(v: Variant): seq<byte> {
    VersionString(v) + [32, 105, 110, 112, 117, 116, 32, 115, 104, 97, 114, 101] + [ROLE_CLIENT, ROLE_HELPER]
  }

  // ---------- one report ----------

  datatype Outcome = Rejected(error: ReportError) | Finished(outShare: seq<Elt>)

  function Aad(task: Task, vi: VerifyInit): InputShareAad {
    InputShareAad(task.taskID, task.config, vi.share.metadata, vi.share.publicShare)
  }

  /** The dialects tried for the associated data: the request's own, then the other shape. */
  function Candidates(v: Variant): seq<Variant> { if v.Janus? then [Janus, Draft18] else [v, Janus] }

  function TryOpen(env: Env, task: Task, variant: Variant, vi: VerifyInit, v: Variant): Option<seq<byte>> {
    if Aad(task, vi).Marshals(v) then
      env.open(task.privateKey, InputShareInfo(variant), vi.share.encrypted.enc, Aad(task, vi).Bytes(v),
        vi.share.encrypted.payload)
    else None
  }

  function Opened(env: Env, task: Task, variant: Variant, vi: VerifyInit): Option<seq<byte>> {
    var first := TryOpen(env, task, variant, vi, Candidates(variant)[0]);
    if first.Some? then first else TryOpen(env, task, variant, vi, Candidates(variant)[1])
  }

  /** A verifier share read off the wire: the only vector with this encoding. */
  ghost function VerifierFrom(b: seq<byte>): (r: Option<seq<Elt>>)
    ensures r.Some? ==> |r.value| == VERIFIER_LEN
  {
    if v: seq<Elt> :| |v| == VERIFIER_LEN && FieldVec.Encoding(v) == b then Some(v) else None
  }

  /** The Helper's own share of a report whose seed was decrypted. */
  function HelperShare(seed: seq<byte>): InputShare { InputShare(HELPER_ID, [], [], seed) }

  /** Preparing the Helper's share and combining it with the Leader's verifier share. */
  ghost function Combine(c: Count, key: Hash, id: ReportID, seed: seq<byte>, leader: seq<Elt>): Outcome
    requires c.Valid() && |leader| == VERIFIER_LEN
  {
    var t := c.QueryPoint(key, id);
    var own := HelperShare(seed);
    if !c.ContextFits() || t == 1 || t == Fp.P - 1 then Rejected(VdafVerifyError)
    else if Decide(VAdd(leader, Verifier(c.MeasShare(own)[0], c.ProofShare(own), t))) then Finished(c.MeasShare(own))
    else Rejected(VdafVerifyError)
  }

  /** The outcome for a report whose input share opened to plaintext. */
  ghost function OpenedOutcome(c: Count, key: Hash, vi: VerifyInit, plaintext: seq<byte>): Outcome
    requires c.Valid()
  {
    var pis := PlaintextInputShare.Parse(plaintext);
    var m := PingPong.Parse(vi.payload);
    if pis.None? || vi.share.metadata.publicExtensions != [] || pis.value.privateExtensions != []
       || |pis.value.payload| != SEED_SIZE || m.None? || m.value.kind != PING_PONG_INITIALIZE
    then Rejected(InvalidMessage)
    else
      var leader := VerifierFrom(m.value.share);
      if leader.None? then Rejected(InvalidMessage)
      else Combine(c, key, vi.share.metadata.reportID, pis.value.payload, leader.value)
  }

  /** What the Helper concludes about one report. */
  ghost function ReportOutcome(env: Env, task: Task, key: Hash, variant: Variant, vi: VerifyInit): Outcome
    requires env.Valid()
  {
    if vi.share.encrypted.configID != task.hpkeConfigID then Rejected(HpkeUnknownConfigID)
    else
      var plaintext := Opened(env, task, variant, vi);
      if plaintext.None? then Rejected(HpkeDecryptError)
      else OpenedOutcome(env.Vdaf(task.vdafContext), key, vi, plaintext.value)
  }

  /** Tries each dialect's associated data in turn; one that does not marshal is skipped. */
  method OpenShare(env: Env, task: Task, variant: Variant, vi: VerifyInit) returns (ok: bool, plaintext: seq<byte>)
    ensures Opened(env, task, variant, vi) == if ok then Some(plaintext) else None
  {
    hide InputShareInfo, InputShareAad.Marshals, InputShareAad.Bytes, Aad;
    var candidates := [variant, Janus];
    if variant.Janus? { candidates := candidates[1 := Draft18]; }
    ok, plaintext := false, [];
    assert candidates == Candidates(variant);
    for i := 0 to |candidates|
      invariant !ok && i <= 2
      invariant i > 0 ==> TryOpen(env, task, variant, vi, candidates[0]).None?
      invariant i > 1 ==> TryOpen(env, task, variant, vi, candidates[1]).None?
    {
      var aad := Codec.MarshalAad(candidates[i], Aad(task, vi));
      if aad.None? { continue; }
      var ct := vi.share.encrypted;
      var p := env.open(task.privateKey, InputShareInfo(variant), ct.enc, aad.value, ct.payload);
      if p.Some? {
        ok, plaintext := true, p.value;
        break;
      }
    }
  }

  lemma VerifierUnique(b: seq<byte>, v: seq<Elt>)
    requires |v| == VERIFIER_LEN && FieldVec.Encoding(v) == b
    ensures VerifierFrom(b) == Some(v)
  {
    hide FieldVec.Encoding;
    FieldVec.EncodingInjective(VerifierFrom(b).value, v);
  }

  lemma SumOfTwo(a: seq<Elt>, b: seq<Elt>)
    requires |a| == |b| == VERIFIER_LEN
    ensures AllLength([a, b], VERIFIER_LEN) && SumVectors([a, b], VERIFIER_LEN) == VAdd(a, b)
  {
    hide Fp.Add, VAdd, SumVectors;
    assert [a, b][..1] == [a] && [a][..0] == [];
    NextVector([a, b], VERIFIER_LEN);
    NextVector([a], VERIFIER_LEN);
    ZeroSum(a);
  }

  lemma ZeroSum(a: seq<Elt>)
    requires |a| == VERIFIER_LEN
    ensures AllLength([], VERIFIER_LEN) && VAdd(SumVectors([], VERIFIER_LEN), a) == a
  {
    hide Fp.Add;
    forall i | 0 <= i < |a| ensures VAdd(Poly.Zeros(VERIFIER_LEN), a)[i] == a[i] { Fp.AddZero(a[i]); }
  }

  /** The VDAF's part of the transition: own preparation, both verifier shares combined, output share. */
  method Transition(c: Count, key: Hash, id: ReportID, seed: seq<byte>, leader: seq<Elt>) returns (o: Outcome)
    requires c.Valid() && c.shares == 2 && |leader| == VERIFIER_LEN && |seed| == SEED_SIZE
    ensures o == Combine(c, key, id, seed, leader)
  {
    hide Verifier, Decide, VAdd, c.QueryPoint, SumVectors;
    var prepared := c.VerifyInit(key, HELPER_ID, id, HelperShare(seed));
    if prepared.Err? { return Rejected(VdafVerifyError); }
    SumOfTwo(leader, prepared.value.verifiers);
    var message := VerifierSharesToMessage([leader, prepared.value.verifiers]);
    if message.Err? { return Rejected(VdafVerifyError); }
    var out := VerifyNext(prepared.value, message.value);
    if out.Err? { return Rejected(VdafVerifyError); }
    o := Finished(out.value);
  }

  /** The Helper's initialization step for a single report. */
  method AggregateInit(env: Env, task: Task, key: Hash, variant: Variant, vi: VerifyInit) returns (o: Outcome)
    requires env.Valid()
    ensures o == ReportOutcome(env, task, key, variant, vi)
  {
    hide Combine, Opened, PlaintextInputShare.Parse, PingPong.Parse, FieldVec.Encoding, VerifierFrom;
    if vi.share.encrypted.configID != task.hpkeConfigID { return Rejected(HpkeUnknownConfigID); }
    var ok, plaintext := OpenShare(env, task, variant, vi);
    if !ok { return Rejected(HpkeDecryptError); }
    var pis := Codec.UnmarshalPlaintext(plaintext);
    if pis.None? { return Rejected(InvalidMessage); }
    if vi.share.metadata.publicExtensions != [] || pis.value.privateExtensions != [] {
      return Rejected(InvalidMessage);
    }
    var c := env.Vdaf(task.vdafContext);
    var share := Prio3Encode.DecodeInputShare(c, HELPER_ID, pis.value.payload);
    if share.Err? {
      if |pis.value.payload| == SEED_SIZE { HelperShareEncodes(c, pis.value.payload); }
      return Rejected(InvalidMessage);
    }
    var m := Codec.UnmarshalPingPong(vi.payload);
    if m.None? { return Rejected(InvalidMessage); }
    if m.value.kind != PING_PONG_INITIALIZE { return Rejected(InvalidMessage); }
    var leader := Prio3Encode.DecodeVerifierShare(m.value.share);
    if leader.Err? {
      NoVerifier(m.value.share);
      return Rejected(InvalidMessage);
    }
    VerifierUnique(m.value.share, leader.value);
    o := Transition(c, key, vi.share.metadata.reportID, share.value.seed, leader.value);
  }

  lemma HelperShareEncodes(c: Count, seed: seq<byte>)
    requires c.shares == 2 && |seed| == SEED_SIZE
    ensures Prio3Encode.Holds(c, HELPER_ID, HelperShare(seed)) && Prio3Encode.InputShareBytes(HelperShare(seed)) == seed
  {}

  lemma NoVerifier(b: seq<byte>)
    requires forall v :: |v| == VERIFIER_LEN ==> FieldVec.Encoding(v) != b
    ensures VerifierFrom(b).None?
  {}

  // ---------- the outcome, case by case ----------

  function Ascii(s: string): seq<byte>
    requires forall i :: 0 <= i < |s| ==> s[i] < 128 as char
  {
    seq(|s|, i requires 0 <= i < |s| => s[i] as int)
  }

  /** The info strings spelled out; Janus speaks draft-18's. */
  lemma InfoText()
    ensures InputShareInfo(Draft18) == InputShareInfo(Janus) == Ascii("dap-18") + Ascii(" input share") + [1, 3]
    ensures InputShareInfo(Draft19) == Ascii("dap-19") + Ascii(" input share") + [1, 3]
    ensures InputShareInfo(Draft20) == Ascii("dap-20") + Ascii(" input share") + [1, 3]
  {
    VersionText();
    assert Ascii(" input share") == [32, 105, 110, 112, 117, 116, 32, 115, 104, 97, 114, 101];
  }

  lemma VersionText()
    ensures VersionString(Draft18) == VersionString(Janus) == Ascii("dap-18")
    ensures VersionString(Draft19) == Ascii("dap-19") && VersionString(Draft20) == Ascii("dap-20")
  {}

  /** What opening under one dialect's associated data gives: every bound field, the task's key, the request's info. */
  function OpenedUnder(env: Env, task: Task, variant: Variant, vi: VerifyInit, dialect: Variant): Option<seq<byte>> {
    var aad := InputShareAad(task.taskID, task.config, vi.share.metadata, vi.share.publicShare);
    if aad.Marshals(dialect) then
      var ct := vi.share.encrypted;
      env.open(task.privateKey, InputShareInfo(variant), ct.enc, aad.Bytes(dialect), ct.payload)
    else None
  }

  /** An input share opens exactly when it opens under the request's own dialect or the other shape's, tried in
      order. */
  lemma OpenedEither(env: Env, task: Task, v: Variant, vi: VerifyInit)
    ensures var own := OpenedUnder(env, task, v, vi, v);
      var other := OpenedUnder(env, task, v, vi, if v.Janus? then Draft18 else Janus);
      && (Opened(env, task, v, vi).Some? <==> own.Some? || other.Some?)
      && (own.Some? ==> Opened(env, task, v, vi) == own)
      && (own.None? ==> Opened(env, task, v, vi) == other)
  {
    hide InputShareInfo, InputShareAad.Marshals, InputShareAad.Bytes;
  }

  /** The report can be prepared: its plaintext is a seed without extensions, and the Leader sent a verifier share. */
  ghost predicate Readable(vi: VerifyInit, plaintext: seq<byte>, seed: seq<byte>, leader: seq<Elt>) {
    && |seed| == 32 && |leader| == 4 && vi.share.metadata.publicExtensions == []
    && plaintext == PlaintextInputShare([], seed).Bytes()
    && vi.payload == PingPong(0, [], FieldVec.Encoding(leader)).Bytes()
  }

  lemma ReadableParses(vi: VerifyInit, plaintext: seq<byte>, seed: seq<byte>, leader: seq<Elt>)
    requires Readable(vi, plaintext, seed, leader)
    ensures PlaintextInputShare.Parse(plaintext) == Some(PlaintextInputShare([], seed))
    ensures PingPong.Parse(vi.payload) == Some(PingPong(0, [], FieldVec.Encoding(leader)))
    ensures VerifierFrom(FieldVec.Encoding(leader)) == Some(leader)
  {
    hide FieldVec.Encoding, VerifierFrom, PingPong.Parse, PingPong.Bytes, PlaintextInputShare.Parse;
    Limits();
    NoExtensionBytes();
    PlaintextInputShare([], seed).Trip();
    PingPong(0, [], FieldVec.Encoding(leader)).Trip();
    VerifierUnique(FieldVec.Encoding(leader), leader);
  }

  lemma NoExtensionBytes()
    ensures PutExtensions([]) == []
  {}

  lemma ParsesReadable(vi: VerifyInit, plaintext: seq<byte>, seed: seq<byte>, leader: seq<Elt>)
    requires PlaintextInputShare.Parse(plaintext) == Some(PlaintextInputShare([], seed)) && |seed| == SEED_SIZE
    requires vi.share.metadata.publicExtensions == []
    requires PingPong.Parse(vi.payload).Some? && PingPong.Parse(vi.payload).value.kind == PING_PONG_INITIALIZE
    requires VerifierFrom(PingPong.Parse(vi.payload).value.share) == Some(leader)
    ensures Readable(vi, plaintext, seed, leader)
  {
    hide FieldVec.Encoding, PingPong.Parse, PingPong.Bytes, PlaintextInputShare.Parse, PlaintextInputShare.Bytes;
    PlaintextInputShare.Canon(plaintext);
    PingPong.Canon(vi.payload);
  }

  /** Nothing opened, or the wrong HPKE configuration: the report is rejected for that. */
  lemma RejectedUnopened(env: Env, task: Task, key: Hash, v: Variant, vi: VerifyInit)
    requires env.Valid()
    ensures vi.share.encrypted.configID != task.hpkeConfigID ==>
      ReportOutcome(env, task, key, v, vi) == Rejected(HpkeUnknownConfigID)
    ensures vi.share.encrypted.configID == task.hpkeConfigID && Opened(env, task, v, vi).None? ==>
      ReportOutcome(env, task, key, v, vi) == Rejected(HpkeDecryptError)
  {
    hide Opened, OpenedOutcome;
  }

  /** What opened but cannot be read is an invalid message. */
  lemma RejectedUnread(env: Env, task: Task, key: Hash, v: Variant, vi: VerifyInit, plaintext: seq<byte>)
    requires env.Valid() && vi.share.encrypted.configID == task.hpkeConfigID
    requires Opened(env, task, v, vi) == Some(plaintext)
    requires forall seed, leader :: !Readable(vi, plaintext, seed, leader)
    ensures ReportOutcome(env, task, key, v, vi) == Rejected(InvalidMessage)
  {
    hide Opened, PlaintextInputShare.Parse, PingPong.Parse, VerifierFrom, Combine, Readable;
    var pis, m := PlaintextInputShare.Parse(plaintext), PingPong.Parse(vi.payload);
    if pis.Some? && m.Some? && vi.share.metadata.publicExtensions == [] && pis.value.privateExtensions == []
      && |pis.value.payload| == SEED_SIZE && m.value.kind == PING_PONG_INITIALIZE && VerifierFrom(m.value.share).Some?
    {
      ParsesReadable(vi, plaintext, pis.value.payload, VerifierFrom(m.value.share).value);
    }
  }

  /** The query point the verify key and the report ID expand to. */
  function PointOf(env: Env, ctx: seq<byte>, key: Hash, id: ReportID): (t: Elt)
    requires |env.expand(key, [18, 0, 0, 0, 0, 1, 0, 5] + ctx, [1] + id, 1)| == 1
  {
    env.expand(key, [18, 0, 0, 0, 0, 1, 0, 5] + ctx, [1] + id, 1)[0]
  }

  function SeedMeas(env: Env, ctx: seq<byte>, seed: seq<byte>): seq<Elt> {
    env.expand(seed, [18, 0, 0, 0, 0, 1, 0, 1] + ctx, [1], 1)
  }

  function SeedProof(env: Env, ctx: seq<byte>, seed: seq<byte>): seq<Elt> {
    env.expand(seed, [18, 0, 0, 0, 0, 1, 0, 2] + ctx, [1, 1], 5)
  }

  /** The output at 0 and the gadget check: the product of the wire checks. */
  predicate Passes(v: seq<Elt>) { |v| == 4 && v[0] == 0 && Fp.Mul(v[1], v[2]) == v[3] }

  /** Finished exactly when the query point is admissible and the Leader's verifier share plus the Helper's own passes;
      the output share is the expanded one. */
  ghost function Concluded(env: Env, ctx: seq<byte>, key: Hash, id: ReportID, seed: seq<byte>,
      leader: seq<Elt>): Outcome
    requires env.Valid() && |leader| == 4
  {
    var (t, meas, proof) := (PointOf(env, ctx, key, id), SeedMeas(env, ctx, seed), SeedProof(env, ctx, seed));
    var accepted := t != 1 && t != Fp.P - 1 && Passes(VAdd(leader, Verifier(meas[0], proof, t)));
    if |ctx| <= 65527 && accepted then Finished(meas) else Rejected(VdafVerifyError)
  }

  lemma CombineConcludes(c: Count, env: Env, key: Hash, id: ReportID, seed: seq<byte>, leader: seq<Elt>)
    requires env.Valid() && |leader| == 4 && c == env.Vdaf(c.ctx)
    ensures Combine(c, key, id, seed, leader) == Concluded(env, c.ctx, key, id, seed, leader)
  {
    hide Verifier, VAdd, Fp.Mul, c.HelperMeas, c.HelperProofs, c.QueryPoint;
    c.Expansions(HELPER_ID, seed, key, id);
  }

  /** What can be read is concluded on the verifiers, whatever its encoding. */
  lemma DecidedOnVerifiers(env: Env, task: Task, key: Hash, v: Variant, vi: VerifyInit, plaintext: seq<byte>,
      seed: seq<byte>, leader: seq<Elt>)
    requires env.Valid() && vi.share.encrypted.configID == task.hpkeConfigID
    requires Opened(env, task, v, vi) == Some(plaintext) && Readable(vi, plaintext, seed, leader)
    ensures |leader| == 4
    ensures ReportOutcome(env, task, key, v, vi) ==
      Concluded(env, task.vdafContext, key, vi.share.metadata.reportID, seed, leader)
  {
    hide Opened, PlaintextInputShare.Parse, PingPong.Parse, VerifierFrom, Readable, Combine, Concluded,
      FieldVec.Encoding;
    ReadableParses(vi, plaintext, seed, leader);
    ReadableShape(vi, plaintext, seed, leader);
    CombineConcludes(env.Vdaf(task.vdafContext), env, key, vi.share.metadata.reportID, seed, leader);
  }

  lemma ReadableShape(vi: VerifyInit, plaintext: seq<byte>, seed: seq<byte>, leader: seq<Elt>)
    requires Readable(vi, plaintext, seed, leader)
    ensures |seed| == SEED_SIZE && |leader| == VERIFIER_LEN && vi.share.metadata.publicExtensions == []
  {}
}
