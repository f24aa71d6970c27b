/** Retrying is not replaying: the same request under the same job ID always gets the same response. */
module Retries {
  import opened Bytes
  import opened Wire
  import opened Messages
  import opened HelperJobs
  import opened Jobs
  import opened Store
  import opened Handlers
  import opened Interleavings

  /** One task, never replaced, with one creation route, and the creation bodies it will ever see. */
  datatype Setting = Setting(env: Env, task: Task, viaPut: bool, bodies: set<seq<byte>>) {
    /** The hash tells these bodies apart. */
    ghost predicate Valid() {
      env.Valid() && forall a, b :: a in bodies && b in bodies && env.sha(a) == env.sha(b) ==> a == b
    }

    predicate Creates(r: Request) { r.taskID == task.taskID && (r.Post? || r.Put?) }

    /** The job ID a creation request works under. */
    function JobIDOf(r: Request): JobID
      requires Creates(r)
    {
      if r.Put? then r.jobID else env.sha(Read(r.body))[..16]
    }

    ghost predicate Allows(a: Action) {
      match a
      case Arrive(r) => Creates(r) ==> r.Put? == viaPut && Read(r.body) in bodies
      case Register(other) => other.taskID != task.taskID
      case Advance(_) => true
    }

    /** Where the checks on a body lead. */
    ghost function Checked(body: seq<byte>, j: JobID): Phase {
      if viaPut then PutPhase(env, task, j, body) else PostPhase(env, task, body)
    }

    /** The claims settle what job the body makes: nothing to claim, or everything claimed already. */
    ghost predicate Settled(body: seq<byte>, j: JobID, claims: Claims) {
      var p := Checked(body, j);
      p.Built? || (p.Ready? && forall id :: id in IDs(p.plan.req.inits) ==> ReportKey(p.plan.task.taskID, id) in claims)
    }

    ghost function JobFor(body: seq<byte>, j: JobID, claims: Claims): Job
      requires env.Valid() && Settled(body, j, claims)
    {
      var p := Checked(body, j);
      if p.Built? then p.job else PlannedJob(env, p.plan, claims)
    }

    ghost predicate IsJobFor(body: seq<byte>, j: JobID, claims: Claims, job: Job)
      requires env.Valid()
    {
      Settled(body, j, claims) && job == JobFor(body, j, claims)
    }

    ghost predicate CallOK(claims: Claims, r: Request, p: Phase)
      requires env.Valid()
    {
      && (r.Get? || r.Delete? ==> p.Arrived? || p.Done?)
      && (Creates(r) ==>
        && r.Put? == viaPut && Read(r.body) in bodies
        && var body, j := Read(r.body), JobIDOf(r);
          match p
          case Arrived => true
          case Ready(plan) => Checked(body, j) == Ready(plan)
          case Absent(plan) => Checked(body, j) == Ready(plan)
          case Built(job) => IsJobFor(body, j, claims, job)
          case Conflicted(job) => IsJobFor(body, j, claims, job)
          case Done(a) => a.Resp? ==> Settled(body, j, claims) && a == Respond(JobFor(body, j, claims)))
    }

    ghost predicate StoredOK(claims: Claims, k: JobKey, job: Job)
      requires env.Valid()
    {
      exists body :: body in bodies && env.sha(body) == job.hash && IsJobFor(body, k.jobID, claims, job)
    }

    ghost predicate StoreInv(s: State)
      requires env.Valid()
    {
      && task.taskID in s.tasks && s.tasks[task.taskID] == task
      && forall k :: k in s.jobs && k.taskID == task.taskID ==> StoredOK(s.claims, k, s.jobs[k])
    }

    ghost predicate Inv(w: World)
      requires env.Valid()
    {
      StoreInv(w.store) && forall i :: 0 <= i < |w.calls| ==> CallOK(w.store.claims, w.calls[i].req, w.calls[i].phase)
    }

    // ---------- settled jobs stay settled ----------

    lemma CheckedHeader(body: seq<byte>, j: JobID)
      requires env.Valid()
      ensures var p := Checked(body, j); var id := if viaPut then j else env.sha(body)[..16];
        && !p.Arrived? && !p.Absent? && !p.Conflicted? && !(p.Done? && p.answer.Resp?)
        && (p.Built? ==> p.job.taskID == task.taskID && p.job.jobID == id && p.job.hash == env.sha(body))
        && (p.Ready? ==> p.plan.task == task && p.plan.jobID == id && p.plan.hash == env.sha(body))
    {
      hide InitReq.Parse, ExtensionProblem, NoDuplicates, IDs, RowFor;
    }

    lemma JobForHeader(body: seq<byte>, j: JobID, claims: Claims)
      requires env.Valid() && Settled(body, j, claims)
      ensures var job := JobFor(body, j, claims);
        job.taskID == task.taskID && job.jobID == (if viaPut then j else env.sha(body)[..16])
          && job.hash == env.sha(body)
    {
      hide Checked, IDs, RowFor;
      CheckedHeader(body, j);
    }

    lemma StaysSettled(body: seq<byte>, j: JobID, before: Claims, after: Claims)
      requires env.Valid() && Settled(body, j, before) && Extends(before, after)
      ensures Settled(body, j, after) && JobFor(body, j, after) == JobFor(body, j, before)
    {
      hide Checked, InitJob;
      var p := Checked(body, j);
      if p.Ready? {
        var t, ids := p.plan.task.taskID, IDs(p.plan.req.inits);
        forall id | id in ids ensures Foreign(after, t, p.plan.jobID, id) <==> Foreign(before, t, p.plan.jobID, id) {
          assert ReportKey(t, id) in before;
        }
        assert Replayed(after, t, p.plan.jobID, ids) == Replayed(before, t, p.plan.jobID, ids);
      }
    }

    lemma CallStays(before: Claims, after: Claims, r: Request, p: Phase)
      requires env.Valid() && CallOK(before, r, p) && Extends(before, after)
      ensures CallOK(after, r, p)
    {
      hide Settled, JobFor, Checked, Respond;
      if Creates(r) && Settled(Read(r.body), JobIDOf(r), before) {
        StaysSettled(Read(r.body), JobIDOf(r), before, after);
      }
    }

    lemma StoredStays(before: Claims, after: Claims, k: JobKey, job: Job)
      requires env.Valid() && StoredOK(before, k, job) && Extends(before, after)
      ensures StoredOK(after, k, job)
    {
      hide Settled, JobFor;
      var body :| body in bodies && env.sha(body) == job.hash && IsJobFor(body, k.jobID, before, job);
      StaysSettled(body, k.jobID, before, after);
      assert IsJobFor(body, k.jobID, after, job);
    }

    // ---------- the steps ----------

    /** A stored job with the request's hash is the job the request makes. */
    lemma ReplayMatches(s: State, body: seq<byte>, j: JobID)
      requires Valid() && StoreInv(s) && body in bodies
      ensures var a := Replay(s, JobKey(task.taskID, j), env.sha(body));
        a.Resp? ==> Settled(body, j, s.claims) && a == Respond(JobFor(body, j, s.claims))
    {
      hide Settled, JobFor, Respond;
      var k := JobKey(task.taskID, j);
      if k in s.jobs && s.jobs[k].hash == env.sha(body) {
        assert StoredOK(s.claims, k, s.jobs[k]);
      }
    }

    lemma ArrivedKeeps(r: Request, s: State)
      requires Valid() && StoreInv(s) && CallOK(s.claims, r, Arrived)
      ensures var (p', s') := Step(env, r, Arrived, s); StoreInv(s') && CallOK(s'.claims, r, p')
    {
      hide PostPhase, PutPhase, Respond, StoredOK;
      if Creates(r) { CheckedHeader(Read(r.body), JobIDOf(r)); }
    }

    lemma ClaimKeeps(r: Request, plan: Plan, s: State)
      requires Valid() && StoreInv(s) && CallOK(s.claims, r, Absent(plan)) && Creates(r)
      ensures var s' := s.ClaimAll(plan.task.taskID, plan.jobID, IDs(plan.req.inits));
        StoreInv(s') && CallOK(s'.claims, r, Built(PlannedJob(env, plan, s.claims)))
    {
      hide Checked, Claimed, InitJob, StoredOK;
      ClaimsExtend(plan, s);
      var s' := s.ClaimAll(plan.task.taskID, plan.jobID, IDs(plan.req.inits));
      StoreInvStays(s, s');
    }

    lemma ClaimsExtend(plan: Plan, s: State)
      ensures var t, ids := plan.task.taskID, IDs(plan.req.inits); var after := s.ClaimAll(t, plan.jobID, ids).claims;
        && Extends(s.claims, after) && (forall id :: id in ids ==> ReportKey(t, id) in after)
        && Replayed(after, t, plan.jobID, ids) == Replayed(s.claims, t, plan.jobID, ids)
    {
      hide Claimed;
      var t, ids := plan.task.taskID, IDs(plan.req.inits);
      ClaimingIsStable(s.claims, t, plan.jobID, ids, Claimed(s.claims, t, plan.jobID, ids));
    }

    lemma StoreInvStays(s: State, s': State)
      requires env.Valid() && StoreInv(s) && Extends(s.claims, s'.claims) && s'.jobs == s.jobs && s'.tasks == s.tasks
      ensures StoreInv(s')
    {
      hide StoredOK;
      forall k | k in s.jobs && k.taskID == task.taskID ensures StoredOK(s'.claims, k, s.jobs[k]) {
        StoredStays(s.claims, s'.claims, k, s.jobs[k]);
      }
    }

    lemma PutKeeps(r: Request, job: Job, s: State)
      requires Valid() && StoreInv(s) && CallOK(s.claims, r, Built(job)) && (!Creates(r) ==> job.taskID != task.taskID)
      ensures StoreInv(s.PutJob(job))
    {
      hide Settled, JobFor;
      if Creates(r) {
        var body, j := Read(r.body), JobIDOf(r);
        JobForHeader(body, j, s.claims);
        assert StoredOK(s.claims, JobKey(job.taskID, job.jobID), job);
      }
    }

    /** Requests for other tasks, polls and deletions leave this task's stored jobs as they should be. */
    lemma OthersKeep(r: Request, p: Phase, s: State)
      requires Valid() && StoreInv(s) && StoreOK(s) && PhaseOK(s.claims, r, p) && !Creates(r) && CallOK(s.claims, r, p)
      ensures var (p', s') := Step(env, r, p, s); StoreInv(s') && CallOK(s'.claims, r, p')
    {
      hide PostPhase, PutPhase, Respond, StoredOK, JobOK, Claimed, PlannedJob;
      if p.Absent? {
        ClaimsExtend(p.plan, s);
        StoreInvStays(s, s.ClaimAll(p.plan.task.taskID, p.plan.jobID, IDs(p.plan.req.inits)));
      }
    }

    lemma StepKeeps(r: Request, p: Phase, s: State)
      requires Valid() && StoreInv(s) && CallOK(s.claims, r, p) && Creates(r)
      ensures var (p', s') := Step(env, r, p, s); StoreInv(s') && CallOK(s'.claims, r, p')
    {
      hide Step, StoreInv, Settled, JobFor, Checked, Respond, Replay, PlannedJob, Claimed;
      var body, j := Read(r.body), JobIDOf(r);
      match p
      case Arrived => ArrivedKeeps(r, s);
      case Ready(plan) =>
        CheckedHeader(body, j);
        StepReady(env, r, plan, s);
        ReplayMatches(s, body, j);
      case Absent(plan) =>
        StepReady(env, r, plan, s);
        ClaimKeeps(r, plan, s);
      case Built(job) =>
        StepBuilt(env, r, job, s);
        PutKeeps(r, job, s);
      case Conflicted(job) =>
        JobForHeader(body, j, s.claims);
        StepBuilt(env, r, job, s);
        ReplayMatches(s, body, j);
      case Done(a) => StepDone(env, r, a, s);
    }
  
    lemma NextKeeps(w: World, a: Action)
      requires Valid() && Interleavings.Inv(w) && Inv(w) && Allows(a)
      ensures Inv(Next(env, w, a))
    {
      hide Step, StoreOK, PhaseOK, CallOK, StoredOK;
      match a
      case Arrive(r) => ArrivedOK(w.store.claims, r);
      case Register(_) =>
      case Advance(i) =>
        if i < |w.calls| {
          var r, p := w.calls[i].req, w.calls[i].phase;
          if Creates(r) { StepKeeps(r, p, w.store); } else { OthersKeep(r, p, w.store); }
          Interleavings.StepKeeps(env, r, p, w.store);
          var (p', s) := Step(env, r, p, w.store);
          forall j | 0 <= j < |w.calls|
            ensures CallOK(s.claims, w.calls[j].req, if j == i then p' else w.calls[j].phase)
          {
            if j != i { CallStays(w.store.claims, s.claims, w.calls[j].req, w.calls[j].phase); }
          }
        }
    }

    lemma ArrivedOK(claims: Claims, r: Request)
      requires env.Valid() && (Creates(r) ==> r.Put? == viaPut && Read(r.body) in bodies)
      ensures CallOK(claims, r, Arrived)
    {}

    lemma {:induction false} RunKeeps(w: World, actions: seq<Action>)
      requires Valid() && Initial(w) && task.taskID in w.store.tasks && w.store.tasks[task.taskID] == task
      requires forall i :: 0 <= i < |actions| ==> Allows(actions[i])
      ensures Inv(Run(env, w, actions))
    {
      hide Next, Allows;
      if actions != [] {
        RunKeeps(w, actions[..|actions| - 1]);
        Interleavings.RunKeeps(env, w, actions[..|actions| - 1]);
        NextKeeps(Run(env, w, actions[..|actions| - 1]), actions[|actions| - 1]);
      }
    }

    /** Two successful answers to the same body under the same job ID are equal, however the two requests
        interleave with each other, with deletions and with everything else. */
    lemma SameAnswer(w: World, actions: seq<Action>, a: nat, b: nat)
      requires Valid() && Initial(w) && task.taskID in w.store.tasks && w.store.tasks[task.taskID] == task
      requires forall i :: 0 <= i < |actions| ==> Allows(actions[i])
      requires var calls := Run(env, w, actions).calls;
        && a < |calls| && b < |calls| && Creates(calls[a].req) && Creates(calls[b].req)
        && Read(calls[a].req.body) == Read(calls[b].req.body) && JobIDOf(calls[a].req) == JobIDOf(calls[b].req)
        && calls[a].phase.Done? && calls[a].phase.answer.Resp? && calls[b].phase.Done? && calls[b].phase.answer.Resp?
      ensures var calls := Run(env, w, actions).calls; calls[a].phase.answer == calls[b].phase.answer
    {
      hide Run, Allows, Settled, JobFor, Respond;
      RunKeeps(w, actions);
      var w' := Run(env, w, actions);
      assert CallOK(w'.store.claims, w'.calls[a].req, w'.calls[a].phase);
      assert CallOK(w'.store.claims, w'.calls[b].req, w'.calls[b].phase);
    }
  }
}
