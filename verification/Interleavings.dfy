/** Every interleaving of the Helper's requests, store operation by store operation, and what holds in all of them. */
module Interleavings {
  import opened Bytes
  import opened Wire
  import opened Messages
  import opened HelperJobs
  import opened Jobs
  import opened Store
  import opened Aggregates
  import opened Handlers
  import Flp
  import Poly
  import Prio3

  datatype Call = Call(req: Request, phase: Phase)

  datatype World = World(store: State, calls: seq<Call>)

  /** A request arrives, request number i performs its next store operation, or a task is registered or replaced. */
  datatype Action = Arrive(req: Request) | Advance(i: nat) | Register(task: Task)

  ghost function Next(env: Env, w: World, a: Action): World
    requires env.Valid()
  {
    match a
    case Arrive(r) => w.(calls := w.calls + [Call(r, Arrived)])
    case Register(task) => w.(store := w.store.AddTask(task))
    case Advance(i) =>
      if i >= |w.calls| then w
      else
        var (p, s) := Step(env, w.calls[i].req, w.calls[i].phase, w.store);
        World(s, w.calls[i := Call(w.calls[i].req, p)])
  }

  ghost function Run(env: Env, w: World, actions: seq<Action>): World
    requires env.Valid()
  {
    if actions == [] then w else Next(env, Run(env, w, actions[..|actions| - 1]), actions[|actions| - 1])
  }

  lemma RunLast(env: Env, w: World, first: seq<Action>, more: seq<Action>, n: nat)
    requires env.Valid() && n < |more|
    ensures Run(env, w, first + more[..n + 1]) == Next(env, Run(env, w, first + more[..n]), more[n])
  {
    hide Next;
    var all := first + more[..n + 1];
    assert all[..|all| - 1] == first + more[..n];
  }

  /** A fresh Helper: some tasks, nothing else. */
  ghost predicate Initial(w: World) {
    w.store.jobs == map[] && w.store.claims == map[] && w.calls == []
    && forall t :: t in w.store.tasks ==> w.store.tasks[t].taskID == t
  }

  /** Arrival and then five store operations of request number n with nothing in between. */
  function Serve(r: Request, n: nat): seq<Action> {
    [Arrive(r), Advance(n), Advance(n), Advance(n), Advance(n), Advance(n)]
  }

  /** A handler that runs uninterrupted is one of the interleavings. */
  lemma ServedAlone(env: Env, w: World, actions: seq<Action>, r: Request)
    requires env.Valid()
    ensures var w' := Run(env, w, actions);
      var (p, s) := Alone(env, r, w'.store);
      Run(env, w, actions + Serve(r, |w'.calls|)) == World(s, w'.calls + [Call(r, p)])
  {
    hide Step, Run, From;
    var w' := Run(env, w, actions);
    var (p1, s1) := Step(env, r, Arrived, w'.store);
    ServedFirst(env, w, actions, r);
    ServedFrom(env, w, actions, Serve(r, |w'.calls|), w'.calls, r, p1, s1);
    assert Serve(r, |w'.calls|)[..6] == Serve(r, |w'.calls|);
  }

  lemma ServedFirst(env: Env, w: World, actions: seq<Action>, r: Request)
    requires env.Valid()
    ensures var w' := Run(env, w, actions);
      var (p1, s1) := Step(env, r, Arrived, w'.store);
      Run(env, w, actions + Serve(r, |w'.calls|)[..2]) == World(s1, w'.calls + [Call(r, p1)])
  {
    hide Step, Run;
    var w' := Run(env, w, actions);
    var more := Serve(r, |w'.calls|);
    assert actions + more[..0] == actions;
    RunLast(env, w, actions, more, 0);
    Advanced(env, w, actions, more, w'.calls, r, 1, Arrived, w'.store);
  }

  lemma ServedFrom(env: Env, w: World, actions: seq<Action>, more: seq<Action>, calls: seq<Call>, r: Request,
      p1: Phase, s1: State)
    requires env.Valid() && more == Serve(r, |calls|)
    requires Run(env, w, actions + more[..2]) == World(s1, calls + [Call(r, p1)])
    ensures var (p, s) := From(env, r, p1, s1); Run(env, w, actions + more[..6]) == World(s, calls + [Call(r, p)])
  {
    hide Step, Run;
    var (p2, s2) := Step(env, r, p1, s1);
    Advanced(env, w, actions, more, calls, r, 2, p1, s1);
    var (p3, s3) := Step(env, r, p2, s2);
    Advanced(env, w, actions, more, calls, r, 3, p2, s2);
    var (p4, s4) := Step(env, r, p3, s3);
    Advanced(env, w, actions, more, calls, r, 4, p3, s3);
    Advanced(env, w, actions, more, calls, r, 5, p4, s4);
  }

  lemma Advanced(env: Env, w: World, actions: seq<Action>, more: seq<Action>, calls: seq<Call>, r: Request, k: nat,
      p: Phase, s: State)
    requires env.Valid() && k < |more| && more[k] == Advance(|calls|)
    requires Run(env, w, actions + more[..k]) == World(s, calls + [Call(r, p)])
    ensures var (p', s') := Step(env, r, p, s);
      Run(env, w, actions + more[..k + 1]) == World(s', calls + [Call(r, p')])
  {
    hide Step, Run;
    RunLast(env, w, actions, more, k);
    var (p', s') := Step(env, r, p, s);
    assert (calls + [Call(r, p)])[|calls| := Call(r, p')] == calls + [Call(r, p')];
  }

  // ---------- the invariant ----------

  /** A row of job j: its report is claimed, replayed means claimed by another job, and finished means one field
      element. */
  ghost predicate RowOK(claims: Claims, t: TaskID, j: JobID, row: Row) {
    var k := ReportKey(t, row.reportID);
    && (row.finished ==> row.error == Reserved && |row.outShare| == 1)
    && (row.error != UnknownVerificationKeyID ==> k in claims && (row.error == ReportReplayed <==> claims[k] != j))
  }

  ghost predicate DistinctFinished(rows: seq<Row>) {
    forall a, b :: 0 <= a < b < |rows| && rows[a].finished && rows[b].finished ==> rows[a].reportID != rows[b].reportID
  }

  ghost predicate JobOK(claims: Claims, job: Job) {
    && (forall i :: 0 <= i < |job.rows| ==> RowOK(claims, job.taskID, job.jobID, job.rows[i]))
    && DistinctFinished(job.rows)
    && Paired(job)
    && JobResp(job.resps).WellFormed(job.variant)
  }

  ghost predicate PlanOK(plan: Plan, r: Request) {
    plan.task.taskID == r.taskID && NoDuplicates(IDs(plan.req.inits)) && plan.req.WellFormed(plan.variant)
  }

  ghost predicate PhaseOK(claims: Claims, r: Request, p: Phase) {
    match p
    case Arrived => true
    case Ready(plan) => PlanOK(plan, r)
    case Absent(plan) => PlanOK(plan, r)
    case Built(job) => job.taskID == r.taskID && JobOK(claims, job)
    case Conflicted(job) => job.taskID == r.taskID && JobOK(claims, job)
    case Done(a) => !(a.Problem? && a.status == 500)
  }

  ghost predicate StoreOK(s: State) {
    && (forall t :: t in s.tasks ==> s.tasks[t].taskID == t)
    && forall k :: k in s.jobs ==> k == JobKey(s.jobs[k].taskID, s.jobs[k].jobID) && JobOK(s.claims, s.jobs[k])
  }

  ghost predicate Inv(w: World) {
    StoreOK(w.store) && forall i :: 0 <= i < |w.calls| ==> PhaseOK(w.store.claims, w.calls[i].req, w.calls[i].phase)
  }

  lemma JobStaysOK(before: Claims, after: Claims, job: Job)
    requires JobOK(before, job) && Extends(before, after)
    ensures JobOK(after, job)
  {
    hide JobResp.WellFormed, DistinctFinished, Paired;
    forall i | 0 <= i < |job.rows| ensures RowOK(after, job.taskID, job.jobID, job.rows[i]) {
      assert RowOK(before, job.taskID, job.jobID, job.rows[i]);
    }
  }

  lemma PhaseStaysOK(before: Claims, after: Claims, r: Request, p: Phase)
    requires PhaseOK(before, r, p) && Extends(before, after)
    ensures PhaseOK(after, r, p)
  {
    hide JobOK;
    match p
    case Built(job) => JobStaysOK(before, after, job);
    case Conflicted(job) => JobStaysOK(before, after, job);
    case _ =>
  }

  lemma FinishedIsUnit(env: Env, task: Task, key: Hash, v: Variant, vi: VerifyInit)
    requires env.Valid()
    ensures var o := ReportOutcome(env, task, key, v, vi); o.Finished? ==> |o.outShare| == 1
  {
    hide Opened, PlaintextInputShare.Parse, PingPong.Parse, VerifierFrom, Combine;
    var c := env.Vdaf(task.vdafContext);
    if Opened(env, task, v, vi).Some? {
      var plaintext := Opened(env, task, v, vi).value;
      var pis, m := PlaintextInputShare.Parse(plaintext), PingPong.Parse(vi.payload);
      if pis.Some? && m.Some? && VerifierFrom(m.value.share).Some? {
        CombineUnit(c, key, vi.share.metadata.reportID, pis.value.payload, VerifierFrom(m.value.share).value);
      }
    }
  }

  lemma CombineUnit(c: Prio3.Count, key: Hash, id: ReportID, seed: seq<byte>, leader: seq<Elt>)
    requires c.Valid() && |leader| == Flp.VERIFIER_LEN
    ensures var o := Combine(c, key, id, seed, leader); o.Finished? ==> o.outShare == c.HelperMeas(HELPER_ID, seed)
  {
    hide Flp.Decide, Flp.Verifier, Poly.VAdd;
  }

  /** A job built right after its claims went through satisfies the job invariant. */
  lemma PlannedJobOK(env: Env, r: Request, plan: Plan, s: State)
    requires env.Valid() && PlanOK(plan, r)
    ensures var s' := s.ClaimAll(plan.task.taskID, plan.jobID, IDs(plan.req.inits));
      Extends(s.claims, s'.claims) && JobOK(s'.claims, PlannedJob(env, plan, s.claims))
  {
    hide Claimed, ReportOutcome, JobResp.WellFormed, InitReq.WellFormed, FinishMessage, Paired, InitRow;
    var t, j, ids := plan.task.taskID, plan.jobID, IDs(plan.req.inits);
    var after := Claimed(s.claims, t, j, ids);
    ClaimingIsStable(s.claims, t, j, ids, after);
    var replayed := Store.Replayed(s.claims, t, j, ids);
    var job := PlannedJob(env, plan, s.claims);
    InitJobEncodes(env, plan.task, plan.key, plan.variant, j, plan.req, plan.hash, replayed);
    InitJobRows(env, plan.task, plan.key, plan.variant, j, plan.req, plan.hash, replayed);
    forall i | 0 <= i < |job.rows| ensures RowOK(after, t, j, job.rows[i]) && job.rows[i].reportID == ids[i] {
      RowOfJob(env, plan, replayed, i);
      assert ids[i] in ids;
      assert ids[i] in Store.Replayed(after, t, j, ids) <==> ids[i] in replayed;
    }
  }

  lemma RowOfJob(env: Env, plan: Plan, replayed: set<ReportID>, i: nat)
    requires env.Valid() && i < |plan.req.inits|
    ensures var job := InitJob(env, plan.task, plan.key, plan.variant, plan.jobID, plan.req, plan.hash, replayed);
      && |job.rows| == |plan.req.inits|
      && var row := job.rows[i];
        && row.reportID == IDs(plan.req.inits)[i] && row.error != UnknownVerificationKeyID
        && (row.error == ReportReplayed <==> row.reportID in replayed)
        && (row.finished ==> row.error == Reserved && |row.outShare| == 1)
  {
    hide ReportOutcome, FinishMessage;
    OutcomeUsable(env, plan.task, plan.key, plan.variant, plan.req.inits[i], replayed);
    FinishedIsUnit(env, plan.task, plan.key, plan.variant, plan.req.inits[i]);
    NotUnknownKey(env, plan.task, plan.key, plan.variant, plan.req.inits[i]);
  }

  lemma NotUnknownKey(env: Env, task: Task, key: Hash, v: Variant, vi: VerifyInit)
    requires env.Valid()
    ensures var o := ReportOutcome(env, task, key, v, vi); o.Rejected? ==> o.error != UnknownVerificationKeyID
  {
    hide OpenedOutcome, Opened;
    if Opened(env, task, v, vi).Some? {
      OpenedUsable(env.Vdaf(task.vdafContext), key, vi, Opened(env, task, v, vi).value);
    }
  }

  lemma RejectAllJobOK(claims: Claims, task: Task, req: InitReq, hash: Hash)
    requires AfterDraft18(task.variant) && req.WellFormed(task.variant)
    ensures JobOK(claims, RejectAllJob(task, hash[..16], req, hash, UnknownVerificationKeyID))
  {
    hide JobResp.WellFormed, InitReq.WellFormed, FinishMessage, Paired;
    RejectAllJobEncodes(task, hash[..16], req, hash);
    RejectAllRows(task, hash[..16], req, hash, UnknownVerificationKeyID);
  }

  lemma RespondsProperly(claims: Claims, job: Job)
    requires JobOK(claims, job)
    ensures Respond(job) == Resp(job.jobID, JobResp(job.resps).Bytes(job.variant))
    ensures JobResp.Parse(job.variant, JobResp(job.resps).Bytes(job.variant)) == Some(JobResp(job.resps))
  {
    hide PutResps, GetResps, Limit, ErrorToWire, RowOK, DistinctFinished, Paired, GetOpaque, PutOpaque;
    JobResp(job.resps).Trip(job.variant);
  }

  lemma PostPhaseOK(env: Env, claims: Claims, r: Request, task: Task, body: seq<byte>)
    requires env.Valid() && task.taskID == r.taskID
    ensures PhaseOK(claims, r, PostPhase(env, task, body))
  {
    hide JobOK, InitReq.WellFormed, InitReq.Parse, RejectAllJob, ExtensionProblem, NoDuplicates, InitReq.Bytes, IDs;
    var parsed := InitReq.Parse(task.variant, body);
    if parsed.Some? {
      ParsesWellFormed(task.variant, body);
      RejectAllHeader(task, parsed.value, env.sha(body));
      if AfterDraft18(task.variant) { RejectAllJobOK(claims, task, parsed.value, env.sha(body)); }
    }
  }

  lemma ParsesWellFormed(v: Variant, body: seq<byte>)
    requires InitReq.Parse(v, body).Some?
    ensures InitReq.Parse(v, body).value.WellFormed(v)
  {
    hide InitReq.Parse, InitReq.WellFormed, InitReq.Bytes;
    InitReq.Canon(v, body);
  }

  lemma RejectAllHeader(task: Task, req: InitReq, hash: Hash)
    ensures RejectAllJob(task, hash[..16], req, hash, UnknownVerificationKeyID).taskID == task.taskID
  {}

  lemma PutPhaseOK(env: Env, claims: Claims, r: Request, task: Task, jobID: JobID, body: seq<byte>)
    requires env.Valid() && task.taskID == r.taskID
    ensures PhaseOK(claims, r, PutPhase(env, task, jobID, body))
  {
    hide JobOK, InitReq.WellFormed, InitReq.Parse, NoDuplicates;
    if InitReq.Parse(Janus, body).Some? { ParsesWellFormed(Janus, body); }
  }

  lemma ReplayOK(s: State, k: JobKey, hash: Hash)
    requires StoreOK(s)
    ensures !(Replay(s, k, hash).Problem? && Replay(s, k, hash).status == 500)
  {
    hide JobOK, Respond;
    if k in s.jobs { RespondsProperly(s.claims, s.jobs[k]); }
  }

  lemma ArrivedKeeps(env: Env, r: Request, s: State)
    requires env.Valid() && StoreOK(s)
    ensures var (p', s') := Step(env, r, Arrived, s); StoreOK(s') && PhaseOK(s'.claims, r, p') && s'.claims == s.claims
  {
    hide JobOK, Respond, Replay, PlannedJob, Claimed, PostPhase, PutPhase, InitReq.WellFormed;
    match r
    case Post(t, body) => if t in s.tasks { PostPhaseOK(env, s.claims, r, s.tasks[t], Read(body)); }
    case Put(t, j, body) => if t in s.tasks { PutPhaseOK(env, s.claims, r, s.tasks[t], j, Read(body)); }
    case Get(t, j) => if JobKey(t, j) in s.jobs { RespondsProperly(s.claims, s.jobs[JobKey(t, j)]); }
    case Delete(_, _) =>
  }

  lemma ClaimKeeps(env: Env, r: Request, plan: Plan, s: State)
    requires env.Valid() && StoreOK(s) && PlanOK(plan, r)
    ensures var s' := s.ClaimAll(plan.task.taskID, plan.jobID, IDs(plan.req.inits));
      StoreOK(s') && PhaseOK(s'.claims, r, Built(PlannedJob(env, plan, s.claims))) && Extends(s.claims, s'.claims)
  {
    hide JobOK, PlannedJob, Claimed;
    PlannedJobOK(env, r, plan, s);
    var s' := s.ClaimAll(plan.task.taskID, plan.jobID, IDs(plan.req.inits));
    forall k | k in s.jobs ensures JobOK(s'.claims, s.jobs[k]) { JobStaysOK(s.claims, s'.claims, s.jobs[k]); }
  }

  lemma PutKeeps(s: State, job: Job)
    requires StoreOK(s) && JobOK(s.claims, job)
    ensures StoreOK(s.PutJob(job)) && s.PutJob(job).claims == s.claims
  {
    hide JobOK;
  }

  /** Any store operation of any request in any state keeps the invariant, and never drops or moves a claim. */
  lemma StepKeeps(env: Env, r: Request, p: Phase, s: State)
    requires env.Valid() && StoreOK(s) && PhaseOK(s.claims, r, p)
    ensures var (p', s') := Step(env, r, p, s); StoreOK(s') && PhaseOK(s'.claims, r, p') && Extends(s.claims, s'.claims)
  {
    hide Step, StoreOK, JobOK, Respond, Replay, PlannedJob, Claimed;
    match p
    case Arrived => ArrivedKeeps(env, r, s);
    case Ready(plan) =>
      StepReady(env, r, plan, s);
      ReplayOK(s, JobKey(plan.task.taskID, plan.jobID), plan.hash);
    case Absent(plan) =>
      StepReady(env, r, plan, s);
      ClaimKeeps(env, r, plan, s);
    case Built(job) =>
      StepBuilt(env, r, job, s);
      RespondsProperly(s.claims, job);
      PutKeeps(s, job);
    case Conflicted(job) =>
      StepBuilt(env, r, job, s);
      ReplayOK(s, JobKey(job.taskID, job.jobID), job.hash);
    case Done(a) => StepDone(env, r, a, s);
  }

  lemma NextKeeps(env: Env, w: World, a: Action)
    requires env.Valid() && Inv(w)
    ensures Inv(Next(env, w, a)) && Extends(w.store.claims, Next(env, w, a).store.claims)
  {
    hide Step, JobOK, PhaseOK;
    match a
    case Arrive(r) => ArrivedOK(w.store.claims, r);
    case Register(_) =>
    case Advance(i) =>
      if i < |w.calls| {
        StepKeeps(env, w.calls[i].req, w.calls[i].phase, w.store);
        var (p, s) := Step(env, w.calls[i].req, w.calls[i].phase, w.store);
        forall j | 0 <= j < |w.calls|
          ensures PhaseOK(s.claims, w.calls[j].req, if j == i then p else w.calls[j].phase)
        {
          if j != i { PhaseStaysOK(w.store.claims, s.claims, w.calls[j].req, w.calls[j].phase); }
        }
      }
  }

  lemma ArrivedOK(claims: Claims, r: Request)
    ensures PhaseOK(claims, r, Arrived)
  {}

  /** Every reachable state satisfies the invariant. */
  lemma {:induction false} RunKeeps(env: Env, w: World, actions: seq<Action>)
    requires env.Valid() && Initial(w)
    ensures Inv(Run(env, w, actions))
  {
    hide Next, StoreOK, PhaseOK;
    if actions == [] {
      InitialOK(w);
    } else {
      RunKeeps(env, w, actions[..|actions| - 1]);
      NextKeeps(env, Run(env, w, actions[..|actions| - 1]), actions[|actions| - 1]);
    }
  }

  lemma InitialOK(w: World)
    requires Initial(w)
    ensures Inv(w)
  {
    hide JobOK;
  }

  // ---------- what holds in every interleaving ----------

  /** Where a report is committed, its job holds the claim; so one report is committed in one row of one job only. */
  lemma CommittedOnce(env: Env, w: World, actions: seq<Action>, t: TaskID, d: Entry, e: Entry)
    requires env.Valid() && Initial(w)
    requires var s := Run(env, w, actions).store; IsEntry(s, t, d) && IsEntry(s, t, e)
    ensures var s := Run(env, w, actions).store; var id := s.jobs[e.key].rows[e.index].reportID;
      && ReportKey(t, id) in s.claims && s.claims[ReportKey(t, id)] == e.key.jobID
      && (s.jobs[d.key].rows[d.index].reportID == id ==> d == e)
  {
    hide Run, JobResp.WellFormed, Paired;
    RunKeeps(env, w, actions);
    var s := Run(env, w, actions).store;
    assert RowOK(s.claims, t, d.key.jobID, s.jobs[d.key].rows[d.index]);
    assert RowOK(s.claims, t, e.key.jobID, s.jobs[e.key].rows[e.index]);
  }

  /** Claims survive everything, deletion and task replacement included. */
  lemma {:induction false} ClaimsSurvive(env: Env, w: World, first: seq<Action>, more: seq<Action>)
    requires env.Valid() && Initial(w)
    ensures Extends(Run(env, w, first).store.claims, Run(env, w, first + more).store.claims)
  {
    hide Next;
    if more == [] {
      assert first + more == first;
    } else {
      var all, init := first + more, more[..|more| - 1];
      ClaimsSurvive(env, w, first, init);
      assert all[..|all| - 1] == first + init;
      RunKeeps(env, w, first + init);
      NextKeeps(env, Run(env, w, first + init), all[|all| - 1]);
    }
  }

  /** Over a whole history, deletions included, a report is only ever committed under one job ID. */
  lemma CommittedUnderOneJob(env: Env, w: World, first: seq<Action>, more: seq<Action>, t: TaskID, d: Entry, e: Entry)
    requires env.Valid() && Initial(w)
    requires var s := Run(env, w, first).store; var s' := Run(env, w, first + more).store;
      IsEntry(s, t, d) && IsEntry(s', t, e)
        && s.jobs[d.key].rows[d.index].reportID == s'.jobs[e.key].rows[e.index].reportID
    ensures d.key == e.key
  {
    hide Run;
    ClaimsSurvive(env, w, first, more);
    CommittedOnce(env, w, first, t, d, d);
    CommittedOnce(env, w, first + more, t, e, e);
  }

  /** The action serves a deletion of job k. */
  ghost predicate Deletes(w: World, a: Action, k: JobKey) {
    a.Advance? && a.i < |w.calls| && w.calls[a.i] == Call(Delete(k.taskID, k.jobID), Arrived)
  }

  /** Some action after the first ones serves a deletion of job k. */
  ghost predicate DeletedDuring(env: Env, w: World, first: seq<Action>, more: seq<Action>, k: JobKey)
    requires env.Valid()
  {
    exists n :: 0 <= n < |more| && Deletes(Run(env, w, first + more[..n]), more[n], k)
  }

  /** A store operation removes a stored job exactly when it serves the job's deletion, and changes it never. */
  lemma StepStores(env: Env, r: Request, p: Phase, s: State, k: JobKey)
    requires env.Valid() && k in s.jobs
    ensures var s' := Step(env, r, p, s).1;
      && (k in s'.jobs <==> Call(r, p) != Call(Delete(k.taskID, k.jobID), Arrived))
      && (k in s'.jobs ==> s'.jobs[k] == s.jobs[k])
  {
    hide PostPhase, PutPhase, Respond, Replay, PlannedJob, Claimed;
  }

  lemma NextStores(env: Env, w: World, a: Action, k: JobKey)
    requires env.Valid() && k in w.store.jobs
    ensures var s' := Next(env, w, a).store;
      (k in s'.jobs <==> !Deletes(w, a, k)) && (k in s'.jobs ==> s'.jobs[k] == w.store.jobs[k])
  {
    hide Step;
    if a.Advance? && a.i < |w.calls| { StepStores(env, w.calls[a.i].req, w.calls[a.i].phase, w.store, k); }
  }

  /** As long as no deletion of it is served, a stored job stays stored, unchanged. */
  lemma {:induction false} JobStays(env: Env, w: World, first: seq<Action>, more: seq<Action>, n: nat, k: JobKey)
    requires env.Valid() && k in Run(env, w, first).store.jobs && n <= |more|
    requires !DeletedDuring(env, w, first, more, k)
    ensures var jobs := Run(env, w, first + more[..n]).store.jobs;
      k in jobs && jobs[k] == Run(env, w, first).store.jobs[k]
    decreases n
  {
    hide Run, Next, Deletes;
    if n == 0 {
      assert first + more[..0] == first;
    } else {
      JobStays(env, w, first, more, n - 1, k);
      RunLast(env, w, first, more, n - 1);
      NextStores(env, Run(env, w, first + more[..n - 1]), more[n - 1], k);
    }
  }

  /** A stored job stays stored through a stretch of a run exactly when no deletion of it is served there. */
  lemma StoredUntilDeleted(env: Env, w: World, first: seq<Action>, more: seq<Action>, k: JobKey)
    requires env.Valid() && k in Run(env, w, first).store.jobs
    ensures !DeletedDuring(env, w, first, more, k) <==>
      forall n :: 0 <= n <= |more| ==> k in Run(env, w, first + more[..n]).store.jobs
  {
    hide Run, Next, Deletes;
    if !DeletedDuring(env, w, first, more, k) {
      forall n | 0 <= n <= |more|
        ensures k in Run(env, w, first + more[..n]).store.jobs
      {
        JobStays(env, w, first, more, n, k);
      }
    } else {
      var n :| 0 <= n < |more| && Deletes(Run(env, w, first + more[..n]), more[n], k);
      RunLast(env, w, first, more, n);
      if k in Run(env, w, first + more[..n]).store.jobs {
        NextStores(env, Run(env, w, first + more[..n]), more[n], k);
      }
    }
  }

  /** A deletion is served only for a request to delete: without one among the calls, none is. */
  lemma DeletedByRequest(env: Env, w: World, first: seq<Action>, more: seq<Action>, k: JobKey)
    requires env.Valid() && DeletedDuring(env, w, first, more, k)
    ensures var calls := Run(env, w, first + more).calls;
      exists i :: 0 <= i < |calls| && calls[i].req == Delete(k.taskID, k.jobID)
  {
    hide Run, Next;
    var n :| 0 <= n < |more| && Deletes(Run(env, w, first + more[..n]), more[n], k);
    var i := more[n].i;
    CallsStay(env, w, first, more, n, |more|, i);
    assert more[..|more|] == more;
  }

  lemma {:induction false} CallsStay(env: Env, w: World, first: seq<Action>, more: seq<Action>, m: nat, n: nat, i: nat)
    requires env.Valid() && m <= n <= |more| && i < |Run(env, w, first + more[..m]).calls|
    ensures var calls := Run(env, w, first + more[..n]).calls;
      i < |calls| && calls[i].req == Run(env, w, first + more[..m]).calls[i].req
    decreases n
  {
    hide Run, Step;
    if m < n {
      CallsStay(env, w, first, more, m, n - 1, i);
      RunLast(env, w, first, more, n - 1);
    }
  }

  /** A committed report keeps its row, and no other row ever commits it, while its job is not deleted. */
  lemma CommitmentStays(env: Env, w: World, first: seq<Action>, more: seq<Action>, t: TaskID, d: Entry, e: Entry)
    requires env.Valid() && Initial(w) && !DeletedDuring(env, w, first, more, d.key)
    requires var s := Run(env, w, first).store; var s' := Run(env, w, first + more).store;
      IsEntry(s, t, d) && IsEntry(s', t, e)
        && s.jobs[d.key].rows[d.index].reportID == s'.jobs[e.key].rows[e.index].reportID
    ensures d == e && Run(env, w, first + more).store.jobs[e.key] == Run(env, w, first).store.jobs[d.key]
  {
    hide Run, DeletedDuring;
    JobStays(env, w, first, more, |more|, d.key);
    assert more[..|more|] == more;
    CommittedOnce(env, w, first + more, t, d, e);
  }

  /** Deletion is what ends it. The claim follows the job ID, so once a job that committed a report is deleted,
      another request under the same ID commits the same report again. */
  lemma DeleteReopens(env: Env, r: Request, first: Plan, second: Plan, s: State, i1: nat, i2: nat)
    requires env.Valid() && first.task.taskID == second.task.taskID && first.jobID == second.jobID
    requires JobKey(first.task.taskID, first.jobID) !in s.jobs && i1 < |first.req.inits| && i2 < |second.req.inits|
    requires var id := first.req.inits[i1].share.metadata.reportID;
      id == second.req.inits[i2].share.metadata.reportID && !Foreign(s.claims, first.task.taskID, first.jobID, id)
    requires ReportOutcome(env, first.task, first.key, first.variant, first.req.inits[i1]).Finished?
    requires ReportOutcome(env, second.task, second.key, second.variant, second.req.inits[i2]).Finished?
    ensures var (t, k) := (first.task.taskID, JobKey(first.task.taskID, first.jobID));
      var created := From(env, r, Ready(first), s).1;
      var recreated := From(env, r, Ready(second), created.DeleteJob(k)).1;
      var id := first.req.inits[i1].share.metadata.reportID;
      && IsEntry(created, t, Entry(k, i1)) && created.jobs[k].rows[i1].reportID == id
        && created.jobs[k].hash == first.hash
      && IsEntry(recreated, t, Entry(k, i2)) && recreated.jobs[k].rows[i2].reportID == id
        && recreated.jobs[k].hash == second.hash
  {
    hide From, ReportOutcome, Claimed, FinishMessage, Respond, Replay;
    var (t, j, k) := (first.task.taskID, first.jobID, JobKey(first.task.taskID, first.jobID));
    FromReady(env, r, first, s);
    FinishedIsUnit(env, first.task, first.key, first.variant, first.req.inits[i1]);
    var created := From(env, r, Ready(first), s).1;
    FromReady(env, r, second, created.DeleteJob(k));
    FinishedIsUnit(env, second.task, second.key, second.variant, second.req.inits[i2]);
    ClaimingIsStable(s.claims, t, j, IDs(first.req.inits), created.claims);
    var id := first.req.inits[i1].share.metadata.reportID;
    assert IDs(first.req.inits)[i1] == id;
    ClaimedAt(s.claims, t, j, IDs(first.req.inits), ReportKey(t, id));
    assert id !in Store.Replayed(s.claims, t, j, IDs(first.req.inits));
    assert id !in Store.Replayed(created.claims, t, j, IDs(second.req.inits));
  }

  /** In every reachable state, what a stored job records of a report is what its response tells the Leader; and the
      aggregate takes in exactly the reports answered continue. */
  lemma StoredAsAnswered(env: Env, w: World, actions: seq<Action>, k: JobKey)
    requires env.Valid() && Initial(w) && k in Run(env, w, actions).store.jobs
    ensures var s := Run(env, w, actions).store; var job := s.jobs[k];
      && Paired(job)
      && forall i :: 0 <= i < |job.rows| ==> (IsEntry(s, k.taskID, Entry(k, i)) <==> job.resps[i].kind == RESP_CONTINUE)
  {
    hide Run, JobResp.WellFormed, DistinctFinished;
    RunKeeps(env, w, actions);
    var s := Run(env, w, actions).store;
    forall i | 0 <= i < |s.jobs[k].rows|
      ensures IsEntry(s, k.taskID, Entry(k, i)) <==> s.jobs[k].resps[i].kind == RESP_CONTINUE
    {
      assert RowOK(s.claims, k.taskID, k.jobID, s.jobs[k].rows[i]);
      assert PairedRow(s.jobs[k].rows[i], i, s.jobs[k].resps[i]);
    }
  }

  /** report_replayed answers exactly the reports another job of the task holds. */
  lemma ReplayedExactly(env: Env, w: World, actions: seq<Action>, k: JobKey, i: nat)
    requires env.Valid() && Initial(w)
    requires var s := Run(env, w, actions).store;
      k in s.jobs && i < |s.jobs[k].rows| && s.jobs[k].rows[i].error != UnknownVerificationKeyID
    ensures var s := Run(env, w, actions).store; var row := s.jobs[k].rows[i];
      row.error == ReportReplayed <==> Foreign(s.claims, k.taskID, k.jobID, row.reportID)
  {
    hide Run, JobResp.WellFormed, DistinctFinished, Paired;
    RunKeeps(env, w, actions);
    var s := Run(env, w, actions).store;
    assert RowOK(s.claims, k.taskID, k.jobID, s.jobs[k].rows[i]);
  }

  /** No request is ever answered with an internal error, and every stored response decodes to itself. */
  lemma AlwaysAnswers(env: Env, w: World, actions: seq<Action>)
    requires env.Valid() && Initial(w)
    ensures var w' := Run(env, w, actions);
      && (forall i :: 0 <= i < |w'.calls| && w'.calls[i].phase.Done? ==>
           w'.calls[i].phase.answer.Problem? ==> w'.calls[i].phase.answer.status != 500)
      && forall k :: k in w'.store.jobs ==> var job := w'.store.jobs[k];
           Respond(job).Resp? && JobResp.Parse(job.variant, Respond(job).body) == Some(JobResp(job.resps))
  {
    hide Run, JobOK, Respond, JobResp.Parse;
    RunKeeps(env, w, actions);
    var w' := Run(env, w, actions);
    forall k | k in w'.store.jobs ensures var job := w'.store.jobs[k];
      Respond(job).Resp? && JobResp.Parse(job.variant, Respond(job).body) == Some(JobResp(job.resps))
    {
      RespondsProperly(w'.store.claims, w'.store.jobs[k]);
    }
  }
}
