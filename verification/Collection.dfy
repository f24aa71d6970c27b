/** The Helper's aggregate share is the right number: distinct committed reports, each counted once. */
module Collection {
  import opened Bytes
  import opened Wire
  import opened Messages
  import opened HelperJobs
  import opened Jobs
  import opened Store
  import opened Aggregates
  import opened Sums
  import opened Handlers
  import opened Interleavings
  import opened Creation
  import opened Vetting
  import opened Flp
  import opened FlpTheorems
  import Prio3
  import Poly
  import Fp
  import FieldVec

  // ---------- one honestly sharded report ----------

  /** What a client did for one report. */
  datatype Client = Client(measurement: Elt, proveSeed: seq<byte>, input: seq<Prio3.InputShare>)

  ghost predicate Sharded(c: Prio3.Count, client: Client)
    requires c.Valid()
  {
    c.shares == 2 && c.Shares(client.measurement, client.proveSeed, client.input)
      && |client.input[1].seed| == Prio3.SEED_SIZE
  }

  function Plaintext(client: Client): seq<byte>
    requires |client.input| == 2
  {
    PlaintextInputShare([], client.input[1].seed).Bytes()
  }

  /** The Helper's part of the measurement. */
  ghost function HelperPart(c: Prio3.Count, client: Client): Elt
    requires c.Valid() && Sharded(c, client)
  {
    c.HelperMeas(HELPER_ID, client.input[1].seed)[0]
  }

  ghost function LeaderPart(c: Prio3.Count, client: Client): Elt
    requires c.Valid() && Sharded(c, client)
  {
    c.MeasShare(client.input[0])[0]
  }

  lemma PartsAddUp(c: Prio3.Count, client: Client)
    requires c.Valid() && Sharded(c, client)
    ensures Fp.Add(LeaderPart(c, client), HelperPart(c, client)) == client.measurement
    ensures var own := HelperShare(client.input[1].seed);
      c.MeasShare(own) == c.MeasShare(client.input[1]) && c.ProofShare(own) == c.ProofShare(client.input[1])
  {
    hide Fp.Add, Proof, c.ProveRands, Poly.VAdd, c.Proved;
    var input := client.input;
    assert input[..1][..0] == [];
    assert input[..2] == input && input[..1] == [input[0]];
    Fp.AddZero(c.MeasShare(input[0])[0]);
    assert c.Measured(input[..0]) == 0;
    assert c.Measured(input[..1]) == Fp.Add(0, c.MeasShare(input[0])[0]);
    assert c.Measured(input) == Fp.Add(c.Measured(input[..1]), c.MeasShare(input[1])[0]);
  }

  /** The combined verifier of the two shares, as the Helper adds it up. */
  lemma TwoVerifiers(c: Prio3.Count, i: seq<Prio3.InputShare>, t: Elt)
    requires c.Valid() && |i| == 2 && c.AllWellFormed(i)
    ensures c.Combined(i, t) == Poly.VAdd(Verifier(c.MeasShare(i[0])[0], c.ProofShare(i[0]), t),
      Verifier(c.MeasShare(i[1])[0], c.ProofShare(i[1]), t))
  {
    hide Fp.Add, Proof, Verifier, c.ProveRands, c.MeasShare, c.ProofShare;
    var first := Verifier(c.MeasShare(i[0])[0], c.ProofShare(i[0]), t);
    assert i[..1][..0] == [];
    assert i[..2] == i && i[..1] == [i[0]];
    assert c.Combined(i[..0], t) == Poly.Zeros(VERIFIER_LEN);
    assert c.Combined(i[..1], t) == Poly.VAdd(Poly.Zeros(VERIFIER_LEN), first);
    forall k | 0 <= k < VERIFIER_LEN
      ensures Poly.VAdd(Poly.Zeros(VERIFIER_LEN), first)[k] == first[k]
    {
      Fp.AddZero(first[k]);
    }
    assert Poly.VAdd(Poly.Zeros(VERIFIER_LEN), first) == first;
  }

  /** What the Helper concludes when a Leader holding the given share prepares it honestly. */
  ghost function Against(c: Prio3.Count, key: Hash, id: ReportID, leader: Prio3.InputShare, seed: seq<byte>): Outcome
    requires c.Valid() && c.WellFormed(leader)
  {
    Combine(c, key, id, seed, Verifier(c.MeasShare(leader)[0], c.ProofShare(leader), c.QueryPoint(key, id)))
  }

  /** A client whose shares add up to anything but 0 or 1 gets its report committed under at most two query
      points, whatever Leader share and whatever seed it made up; the point is derived from the verify key. */
  lemma ForgedReport(c: Prio3.Count, keys: seq<Hash>, id: ReportID, leader: Prio3.InputShare, seed: seq<byte>)
    requires c.Valid() && c.WellFormed(leader) && c.AllWellFormed([leader, HelperShare(seed)])
    requires c.Measured([leader, HelperShare(seed)]) != 0 && c.Measured([leader, HelperShare(seed)]) != 1
    requires forall i, j :: 0 <= i < j < |keys| ==> c.QueryPoint(keys[i], id) != c.QueryPoint(keys[j], id)
    requires forall i :: 0 <= i < |keys| ==> Against(c, keys[i], id, leader, seed).Finished?
    ensures |keys| <= 2
  {
    hide Decide, Verifier, Poly.VAdd, Fp.Add, c.QueryPoint, c.Combined, c.Measured, c.MeasShare, c.ProofShare;
    var input := [leader, HelperShare(seed)];
    var ts := seq(|keys|, i requires 0 <= i < |keys| => c.QueryPoint(keys[i], id));
    forall i | 0 <= i < |ts| ensures Decide(c.Combined(input, ts[i])) {
      assert Against(c, keys[i], id, leader, seed).Finished?;
      TwoVerifiers(c, input, ts[i]);
    }
    c.ForgedRejected(input, ts);
  }

  /** The report arrived as the client and an honest Leader sent it. */
  ghost predicate Delivered(env: Env, task: Task, key: Hash, v: Variant, vi: VerifyInit, client: Client)
    requires env.Valid() && Sharded(env.Vdaf(task.vdafContext), client)
  {
    var c, t := env.Vdaf(task.vdafContext), env.Vdaf(task.vdafContext).QueryPoint(key, vi.share.metadata.reportID);
    && vi.share.encrypted.configID == task.hpkeConfigID && vi.share.metadata.publicExtensions == []
    && Opened(env, task, v, vi) == Some(Plaintext(client))
    && vi.payload == PingPong(PING_PONG_INITIALIZE, [],
         FieldVec.Encoding(Verifier(c.MeasShare(client.input[0])[0], c.ProofShare(client.input[0]), t))).Bytes()
    && c.ContextFits() && t != 1 && t != Fp.P - 1
  }

  lemma PlaintextParses(client: Client)
    requires |client.input| == 2 && |client.input[1].seed| == Prio3.SEED_SIZE
    ensures PlaintextInputShare.Parse(Plaintext(client)) == Some(PlaintextInputShare([], client.input[1].seed))
  {
    Limits();
    PlaintextInputShare([], client.input[1].seed).Trip();
  }

  lemma LeaderParses(leader: seq<Elt>)
    requires |leader| == VERIFIER_LEN
    ensures var m := PingPong(PING_PONG_INITIALIZE, [], FieldVec.Encoding(leader));
      PingPong.Parse(m.Bytes()) == Some(m) && VerifierFrom(m.share) == Some(leader)
  {
    hide FieldVec.Encoding, VerifierFrom, PingPong.Parse, PingPong.Bytes;
    Limits();
    PingPong(PING_PONG_INITIALIZE, [], FieldVec.Encoding(leader)).Trip();
    VerifierUnique(FieldVec.Encoding(leader), leader);
  }

  /** A faithfully delivered report finishes exactly when it measures 0 or 1, with the Helper's part as output. */
  lemma HonestReport(env: Env, task: Task, key: Hash, v: Variant, vi: VerifyInit, client: Client)
    requires env.Valid() && Sharded(env.Vdaf(task.vdafContext), client) && Delivered(env, task, key, v, vi, client)
    ensures ReportOutcome(env, task, key, v, vi) ==
      if client.measurement == 0 || client.measurement == 1 then
        Finished([HelperPart(env.Vdaf(task.vdafContext), client)])
      else Rejected(VdafVerifyError)
  {
    var c := env.Vdaf(task.vdafContext);
    hide Opened, Combine, FieldVec.Encoding, VerifierFrom, PingPong.Parse, PingPong.Bytes, PlaintextInputShare.Parse,
      PlaintextInputShare.Bytes, Verifier, c.Shares, c.MeasShare, c.ProofShare, c.QueryPoint, HelperPart;
    ShardedShape(c, client);
    var t := c.QueryPoint(key, vi.share.metadata.reportID);
    var leader := Verifier(c.MeasShare(client.input[0])[0], c.ProofShare(client.input[0]), t);
    PlaintextParses(client);
    LeaderParses(leader);
    CombineHonest(c, key, vi.share.metadata.reportID, client);
  }

  lemma ShardedShape(c: Prio3.Count, client: Client)
    requires c.Valid() && Sharded(c, client)
    ensures |client.input| == 2 && c.WellFormed(client.input[0]) && c.WellFormed(client.input[1])
  {}

  lemma CombineHonest(c: Prio3.Count, key: Hash, id: ReportID, client: Client)
    requires c.Valid() && Sharded(c, client) && c.ContextFits()
    requires c.QueryPoint(key, id) != 1 && c.QueryPoint(key, id) != Fp.P - 1
    ensures
      var share := client.input[0];
      var leader := Verifier(c.MeasShare(share)[0], c.ProofShare(share), c.QueryPoint(key, id));
      Combine(c, key, id, client.input[1].seed, leader) ==
        if client.measurement == 0 || client.measurement == 1 then Finished([HelperPart(c, client)])
        else Rejected(VdafVerifyError)
  {
    hide Decide, Verifier, Poly.VAdd, Fp.Add, c.QueryPoint, c.Combined, c.Shares, c.ProofShare;
    var t := c.QueryPoint(key, id);
    ShardedShape(c, client);
    PartsAddUp(c, client);
    TwoVerifiers(c, client.input, t);
    c.HonestAccepted(client.measurement, client.proveSeed, client.input, t);
    assert c.MeasShare(HelperShare(client.input[1].seed)) == [HelperPart(c, client)];
  }

  /** Report i of a request that was served is committed as row i of the new job, with the Helper's part, and answered
      continue, if it measures 0 or 1; otherwise it is answered reject with a verification failure. */
  ghost predicate Settled(s: State, k: JobKey, a: Answer, i: nat, vi: VerifyInit, c: Prio3.Count, client: Client)
    requires c.Valid() && Sharded(c, client)
  {
    && k in s.jobs && i < |s.jobs[k].rows| && AnswersWith(a, s.jobs[k]) && i < |s.jobs[k].resps|
    && var (e, resp) := (Entry(k, i), s.jobs[k].resps[i]);
      && resp.reportID == vi.share.metadata.reportID
      && if client.measurement == 0 || client.measurement == 1 then
           && IsEntry(s, k.taskID, e) && IDOf(s, e) == vi.share.metadata.reportID
           && ShareOf(s, e) == [HelperPart(c, client)] && resp.kind == RESP_CONTINUE
         else
           && !IsEntry(s, k.taskID, e) && resp.kind == RESP_REJECT && resp.error == VdafVerifyError
  }

  /** A faithfully delivered report in a new request that passed every check is settled in one uninterrupted run,
      unless another job of the task already held it. */
  lemma HonestServed(env: Env, plan: Plan, s: State, p: Phase, s': State, i: nat, client: Client)
    requires env.Valid() && i < |plan.req.inits| && JobKey(plan.task.taskID, plan.jobID) !in s.jobs
    requires Served(env, plan, s, p, s')
    requires var rk := ReportKey(plan.task.taskID, plan.req.inits[i].share.metadata.reportID);
      rk in s.claims ==> s.claims[rk] == plan.jobID
    requires Sharded(env.Vdaf(plan.task.vdafContext), client)
    requires Delivered(env, plan.task, plan.key, plan.variant, plan.req.inits[i], client)
    ensures p.Done? && Settled(s', JobKey(plan.task.taskID, plan.jobID), p.answer, i, plan.req.inits[i],
      env.Vdaf(plan.task.vdafContext), client)
  {
    hide Sharded, Delivered, ReportOutcome, HelperPart, ClaimsTaken, AnswersWith, PingPong.Parse, Prio3.Count.Valid;
    var (t, vi) := (plan.task.taskID, plan.req.inits[i]);
    HonestReport(env, plan.task, plan.key, plan.variant, vi, client);
    var held, job := HeldElsewhere(s.claims, t, plan.jobID, plan.req), s'.jobs[JobKey(t, plan.jobID)];
    assert vi.share.metadata.reportID !in held;
    assert InitRow(env, plan.task, plan.key, plan.variant, vi, held, job.rows[i]);
    assert PairedRow(job.rows[i], i, job.resps[i]);
  }

  /** The first honest delivery of a report counts: posted in a request that passes every check, to a Helper that holds
      neither the job nor the report, it is committed if it measures 0 or 1 and rejected otherwise. */
  lemma HonestPost(env: Env, s: State, t: TaskID, raw: seq<byte>, req: InitReq, i: nat, client: Client)
    requires env.Valid() && StoreOK(s) && t in s.tasks
    requires InitReq.Parse(s.tasks[t].variant, Read(raw)) == Some(req) && req.keyID in s.tasks[t].verifyKeys
    requires GoodExtensions(s.tasks[t], req.extensions) && req.aggParam == [] && DistinctReports(req)
    requires JobKey(t, env.sha(Read(raw))[..16]) !in s.jobs && i < |req.inits|
    requires ReportKey(t, req.inits[i].share.metadata.reportID) !in s.claims
    requires Sharded(env.Vdaf(s.tasks[t].vdafContext), client)
    requires Delivered(env, s.tasks[t], s.tasks[t].verifyKeys[req.keyID], s.tasks[t].variant, req.inits[i], client)
    ensures var (p, s') := Alone(env, Post(t, raw), s);
      p.Done? && Settled(s', JobKey(t, env.sha(Read(raw))[..16]), p.answer, i, req.inits[i],
        env.Vdaf(s.tasks[t].vdafContext), client)
  {
    hide Alone, Sharded, Delivered, Served, Settled, Read, GoodExtensions, DistinctReports, InitReq.Parse, JobOK,
      Prio3.Count.Valid;
    PostAccepted(env, s, t, raw, req);
    var (p, s') := Alone(env, Post(t, raw), s);
    HonestServed(env, PostPlan(env, s.tasks[t], Read(raw), req), s, p, s', i, client);
  }

  // ---------- committed reports ----------

  /** The reports of task t some stored job has committed. */
  ghost function Committed(s: State, t: TaskID): set<ReportID> { set e | e in Entries(s, t) :: IDOf(s, e) }

  /** Every row of the aggregate belongs to a different report: counting rows is counting reports. */
  lemma EntriesAreReports(env: Env, w: World, actions: seq<Action>, t: TaskID, out: ReportID -> Elt)
    requires env.Valid() && Initial(w)
    requires var s := Run(env, w, actions).store; forall e :: IsEntry(s, t, e) ==> OutOf(s, e) == out(IDOf(s, e))
    ensures var s := Run(env, w, actions).store;
      && Total(s, Entries(s, t)) == SumOver(Committed(s, t), out)
      && |Entries(s, t)| == |Committed(s, t)|
      && UnitShares(s, t)
  {
    hide Run, JobResp.WellFormed, SumOver;
    var s := Run(env, w, actions).store;
    var es := Entries(s, t);
    var id := (e: Entry) => IDOf(s, e);
    RunKeeps(env, w, actions);
    forall d, e | d in es && e in es && id(d) == id(e) ensures d == e { CommittedOnce(env, w, actions, t, d, e); }
    forall e | IsEntry(s, t, e) ensures |s.jobs[e.key].rows[e.index].outShare| == 1 {
      assert RowOK(s.claims, t, e.key.jobID, s.jobs[e.key].rows[e.index]);
    }
    SumImage(es, Committed(s, t), id, e => ElementOf(s, e, 0), out);
  }

  // ---------- the aggregate over honest reports ----------

  /** A task ID, the registrations it may ever have, and what the clients did for each of its reports. */
  datatype Batch = Batch(env: Env, taskID: TaskID, ctx: seq<byte>, tasks: set<Task>, clients: map<ReportID, Client>) {
    function Vdaf(): Prio3.Count { env.Vdaf(ctx) }

    ghost predicate Valid() {
      && env.Valid()
      && (forall task :: task in tasks ==> task.taskID == taskID && task.vdafContext == ctx)
      && forall id :: id in clients ==>
           Sharded(Vdaf(), clients[id]) && (clients[id].measurement == 0 || clients[id].measurement == 1)
    }

    ghost function HelperOf(id: ReportID): Elt {
      if Valid() && id in clients then HelperPart(Vdaf(), clients[id]) else 0
    }

    ghost function LeaderOf(id: ReportID): Elt {
      if Valid() && id in clients then LeaderPart(Vdaf(), clients[id]) else 0
    }

    function Measured(id: ReportID): Elt { if id in clients then clients[id].measurement else 0 }

    /** If the ciphertext opens under the task's key, it opens to what the report's client sealed. */
    ghost predicate Honest(task: Task, v: Variant, vi: VerifyInit)
      requires Valid()
    {
      var id, plaintext := vi.share.metadata.reportID, Opened(env, task, v, vi);
      plaintext.Some? ==> id in clients && plaintext == Some(Plaintext(clients[id]))
    }

    ghost predicate AllHonest(task: Task, reading: Reading)
      requires Valid()
    {
      forall vi :: vi in reading.inits ==> Honest(task, reading.variant, vi)
    }

    /** However the task stands registered when the request is served, the request carries only honest reports. */
    ghost predicate HonestRequest(r: Request)
      requires Valid()
    {
      r.taskID == taskID ==> forall task :: task in tasks && ReadAgainst(task, r).Some? ==>
        AllHonest(task, ReadAgainst(task, r).value)
    }

    ghost predicate Allows(a: Action)
      requires Valid()
    {
      match a
      case Arrive(r) => HonestRequest(r)
      case Register(task) => task.taskID == taskID ==> task in tasks
      case Advance(_) => true
    }

    /** A good output share is the Helper's part of the report's sharing. */
    ghost function Watcher(): Watch {
      Watch(env, taskID, tasks, (id, out) => id in clients && out == [HelperOf(id)])
    }

    lemma HonestOutcome(task: Task, key: Hash, v: Variant, vi: VerifyInit)
      requires Valid() && Honest(task, v, vi) && task.vdafContext == ctx
      ensures var o, id := ReportOutcome(env, task, key, v, vi), vi.share.metadata.reportID;
        o.Finished? ==> id in clients && o.outShare == [HelperOf(id)]
    {
      hide Opened, PlaintextInputShare.Parse, PingPong.Parse, VerifierFrom, Combine, Plaintext, Prio3.Count.Shares;
      var id := vi.share.metadata.reportID;
      if Opened(env, task, v, vi).Some? {
        var client := clients[id];
        ShardedShape(Vdaf(), client);
        PlaintextParses(client);
        var m := PingPong.Parse(vi.payload);
        if m.Some? && VerifierFrom(m.value.share).Some? {
          CombineUnit(Vdaf(), key, id, client.input[1].seed, VerifierFrom(m.value.share).value);
        }
      }
    }

    lemma AllowsVouched(a: Action)
      requires Valid() && Allows(a)
      ensures Watcher().Valid() && Watcher().Allows(a)
    {
      hide ReportOutcome, ReadAgainst, HelperOf, Honest, Sharded;
      if a.Arrive? && a.req.taskID == taskID {
        forall task | task in tasks && ReadAgainst(task, a.req).Some?
          ensures Watcher().VouchesAll(task, ReadAgainst(task, a.req).value)
        {
          var reading := ReadAgainst(task, a.req).value;
          assert AllHonest(task, reading);
          forall vi | vi in reading.inits ensures Watcher().Vouches(task, reading, vi) {
            HonestOutcome(task, reading.key, reading.variant, vi);
          }
        }
      }
    }

    lemma CommittedHonest(w: World, actions: seq<Action>, e: Entry)
      requires Valid() && Initial(w) && (taskID in w.store.tasks ==> w.store.tasks[taskID] in tasks)
      requires forall i :: 0 <= i < |actions| ==> Allows(actions[i])
      requires IsEntry(Run(env, w, actions).store, taskID, e)
      ensures var s := Run(env, w, actions).store; IDOf(s, e) in clients && OutOf(s, e) == HelperOf(IDOf(s, e))
    {
      hide Run, Allows, HelperOf, IsEntry, IDOf, ShareOf, Sharded, Watch.Allows, Watch.Valid;
      WatcherValid();
      forall i | 0 <= i < |actions| ensures Watcher().Allows(actions[i]) { AllowsVouched(actions[i]); }
      Watcher().CommittedGood(w, actions, e);
    }

    lemma WatcherValid()
      requires Valid()
      ensures Watcher().Valid()
    {}

    lemma PartsCount(done: set<ReportID>)
      requires Valid() && done <= clients.Keys && |done| < Fp.P
      ensures Fp.Add(SumOver(done, LeaderOf), SumOver(done, HelperOf)) == Ones(done, Measured)
    {
      hide Fp.Add, SumOver, Sharded, HelperPart, LeaderPart;
      forall id | id in done
        ensures Measured(id) == Fp.Add(LeaderOf(id), HelperOf(id))
      {
        PartsAddUp(Vdaf(), clients[id]);
      }
      SumPairs(done, LeaderOf, HelperOf, Measured);
      SumCounts(done, Measured);
    }

    /** In every reachable state the Helper's aggregate share sums the helper parts of the distinct committed
        reports; with the Leader's parts of the same reports it makes exactly the number that measured 1. */
    lemma ShareIsCount(w: World, actions: seq<Action>)
      requires Valid() && Initial(w) && (taskID in w.store.tasks ==> w.store.tasks[taskID] in tasks)
      requires forall i :: 0 <= i < |actions| ==> Allows(actions[i])
      requires |Committed(Run(env, w, actions).store, taskID)| < Fp.P
      ensures var s := Run(env, w, actions).store; var done := Committed(s, taskID);
        && done <= clients.Keys && UnitShares(s, taskID) && |Entries(s, taskID)| == |done|
        && Total(s, Entries(s, taskID)) == SumOver(done, HelperOf)
        && Fp.Add(SumOver(done, LeaderOf), Total(s, Entries(s, taskID))) == Ones(done, Measured)
    {
      hide Run, Allows, SumOver, Total, Fp.Add, Sharded, HelperOf, LeaderOf, IsEntry, OutOf, IDOf, UnitShares;
      var s := Run(env, w, actions).store;
      forall e | IsEntry(s, taskID, e) ensures IDOf(s, e) in clients && OutOf(s, e) == HelperOf(IDOf(s, e)) {
        CommittedHonest(w, actions, e);
      }
      EntriesAreReports(env, w, actions, taskID, HelperOf);
      PartsCount(Committed(s, taskID));
    }
  }

  // ---------- soundness over whole runs ----------

  /** What an arbitrary client made up for one report: a Leader share, and a plaintext for the Helper. */
  datatype Forgery = Forgery(leader: Prio3.InputShare, plaintext: seq<byte>) {
    function Seed(): seq<byte> {
      var pis := PlaintextInputShare.Parse(plaintext);
      if pis.Some? then pis.value.payload else []
    }

    /** The two input shares in play. */
    function Input(): seq<Prio3.InputShare> { [leader, HelperShare(Seed())] }
  }

  /** A task ID, its possible registrations, arbitrary clients, and a Leader that prepares its shares honestly. */
  datatype Trial = Trial(env: Env, taskID: TaskID, ctx: seq<byte>, tasks: set<Task>, reports: map<ReportID, Forgery>) {
    function Vdaf(): Prio3.Count { env.Vdaf(ctx) }

    ghost predicate Valid() {
      && env.Valid()
      && (forall task :: task in tasks ==> task.taskID == taskID && task.vdafContext == ctx)
      && forall id :: id in reports ==> Vdaf().AllWellFormed(reports[id].Input())
    }

    /** The verify keys the task may be used with. */
    function Keys(): set<Hash> { set task, k | task in tasks && k in task.verifyKeys :: task.verifyKeys[k] }

    /** The shares add up to neither 0 nor 1, and yet the summed verifier is accepted at t. */
    ghost predicate Fooled(id: ReportID, t: Elt) {
      Valid() && id in reports
      && Vdaf().Measured(reports[id].Input()) != 0 && Vdaf().Measured(reports[id].Input()) != 1
      && Decide(Vdaf().Combined(reports[id].Input(), t))
    }

    /** The report's shares add up to 0 or 1. */
    ghost predicate Genuine(id: ReportID) {
      Valid() && id in reports
      && (Vdaf().Measured(reports[id].Input()) == 0 || Vdaf().Measured(reports[id].Input()) == 1)
    }

    /** What an honest Leader holding the report's share sends when it nominates the key. */
    ghost function LeaderMessage(id: ReportID, key: Hash): seq<byte>
      requires Valid() && id in reports
    {
      var c, leader := Vdaf(), reports[id].leader;
      assert c.WellFormed(reports[id].Input()[0]);
      PingPong(PING_PONG_INITIALIZE, [],
        FieldVec.Encoding(Verifier(c.MeasShare(leader)[0], c.ProofShare(leader), c.QueryPoint(key, id)))).Bytes()
    }

    /** If the ciphertext opens, it opens to what the client sealed, and the Leader's message is honest. */
    ghost predicate Faithful(task: Task, reading: Reading, vi: VerifyInit)
      requires Valid()
    {
      var id, plaintext := vi.share.metadata.reportID, Opened(env, task, reading.variant, vi);
      plaintext.Some? ==>
        id in reports && plaintext == Some(reports[id].plaintext) && vi.payload == LeaderMessage(id, reading.key)
    }

    ghost predicate AllFaithful(task: Task, reading: Reading)
      requires Valid()
    {
      forall vi :: vi in reading.inits ==> Faithful(task, reading, vi)
    }

    ghost predicate Allows(a: Action)
      requires Valid()
    {
      match a
      case Arrive(r) =>
        r.taskID == taskID ==> forall task :: task in tasks && ReadAgainst(task, r).Some? ==>
          AllFaithful(task, ReadAgainst(task, r).value)
      case Register(task) => task.taskID == taskID ==> task in tasks
      case Advance(_) => true
    }

    /** A report is good to commit when it is genuine, or one of the keys puts its query point where it fools the
        check. */
    ghost predicate Excused(id: ReportID) {
      Genuine(id) || (Valid() && exists key :: key in Keys() && Fooled(id, Vdaf().QueryPoint(key, id)))
    }

    ghost function Watcher(): Watch { Watch(env, taskID, tasks, (id: ReportID, out: seq<Elt>) => Excused(id)) }

    /** The Helper finishes a faithful report only if the summed verifier is accepted at its query point. */
    lemma FinishedAccepted(key: Hash, vi: VerifyInit)
      requires Valid()
      requires var id := vi.share.metadata.reportID; id in reports && vi.payload == LeaderMessage(id, key)
      ensures var id := vi.share.metadata.reportID;
        OpenedOutcome(Vdaf(), key, vi, reports[id].plaintext).Finished? ==>
          Decide(Vdaf().Combined(reports[id].Input(), Vdaf().QueryPoint(key, id)))
    {
      var c, id, f := Vdaf(), vi.share.metadata.reportID, reports[vi.share.metadata.reportID];
      hide Decide, Verifier, Poly.VAdd, Fp.Add, PlaintextInputShare.Parse, PingPong.Parse, PingPong.Bytes,
        FieldVec.Encoding,
        VerifierFrom, c.QueryPoint, c.Combined, c.MeasShare, c.ProofShare;
      var t := c.QueryPoint(key, id);
      assert c.WellFormed(f.Input()[0]);
      LeaderParses(Verifier(c.MeasShare(f.leader)[0], c.ProofShare(f.leader), t));
      TwoVerifiers(c, f.Input(), t);
    }

    lemma FaithfulExcused(task: Task, reading: Reading, vi: VerifyInit)
      requires Valid() && task in tasks && reading.key in Keys() && Faithful(task, reading, vi)
      ensures ReportOutcome(env, task, reading.key, reading.variant, vi).Finished? ==>
        Excused(vi.share.metadata.reportID)
    {
      hide Opened, OpenedOutcome, LeaderMessage, Prio3.Count.QueryPoint, Prio3.Count.Combined, Prio3.Count.Measured,
        Decide, Keys;
      if Opened(env, task, reading.variant, vi).Some? { FinishedAccepted(reading.key, vi); }
    }

    lemma AllowsVouched(a: Action)
      requires Valid() && Allows(a)
      ensures Watcher().Valid() && Watcher().Allows(a)
    {
      hide ReportOutcome, ReadAgainst, Excused, Faithful, Keys, Prio3.Count.AllWellFormed;
      if a.Arrive? && a.req.taskID == taskID {
        forall task | task in tasks && ReadAgainst(task, a.req).Some?
          ensures Watcher().VouchesAll(task, ReadAgainst(task, a.req).value)
        {
          var reading := ReadAgainst(task, a.req).value;
          ReadKey(task, a.req);
          assert AllFaithful(task, reading);
          forall vi | vi in reading.inits
            ensures Watcher().Vouches(task, reading, vi)
          {
            FaithfulExcused(task, reading, vi);
          }
        }
      }
    }

    lemma ReadKey(task: Task, r: Request)
      requires task in tasks && ReadAgainst(task, r).Some?
      ensures ReadAgainst(task, r).value.key in Keys()
    {
      hide InitReq.Parse;
    }

    lemma WatcherValid()
      requires Valid()
      ensures Watcher().Valid()
    {}

    /** With an honest Leader, in every reachable state, whatever the clients did: each committed report's shares
        add up to 0 or 1, unless the verify key puts the report's query point where the check is fooled. */
    lemma CommittedGenuine(w: World, actions: seq<Action>, e: Entry)
      requires Valid() && Initial(w) && (taskID in w.store.tasks ==> w.store.tasks[taskID] in tasks)
      requires forall i :: 0 <= i < |actions| ==> Allows(actions[i])
      requires IsEntry(Run(env, w, actions).store, taskID, e)
      ensures var id := IDOf(Run(env, w, actions).store, e);
        Genuine(id) || exists key :: key in Keys() && Fooled(id, Vdaf().QueryPoint(key, id))
    {
      hide Run, Allows, IsEntry, IDOf, ShareOf, Watch.Allows, Watch.Valid, Valid;
      WatcherValid();
      forall i | 0 <= i < |actions| ensures Watcher().Allows(actions[i]) { AllowsVouched(actions[i]); }
      Watcher().CommittedGood(w, actions, e);
    }

    /** There are at most two such points for a report. */
    lemma FewFooled(id: ReportID, ts: seq<Elt>)
      requires Poly.Distinct(ts) && forall i :: 0 <= i < |ts| ==> Fooled(id, ts[i])
      ensures |ts| <= 2
    {
      hide Prio3.Count.Combined, Prio3.Count.Measured, Decide;
      if |ts| > 0 {
        assert Fooled(id, ts[0]);
        Vdaf().ForgedRejected(reports[id].Input(), ts);
      }
    }
  }
}
