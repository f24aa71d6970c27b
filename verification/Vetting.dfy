/** From one report to whole runs: a property of every report's outcome is a property of every committed row. */
module Vetting {
  import opened Bytes
  import opened Wire
  import opened Messages
  import opened HelperJobs
  import opened Jobs
  import opened Store
  import opened Aggregates
  import opened Handlers
  import opened Interleavings

  /** The verify key, dialect and reports of a creation request. */
  datatype Reading = Reading(key: Hash, variant: Variant, inits: seq<VerifyInit>)

  /** How the Helper reads a creation request against a registered task: POST in the task's variant under the key
      the request nominates, PUT in the Janus dialect under key 0. */
  function ReadAgainst(task: Task, r: Request): Option<Reading> {
    match r
    case Post(_, body) =>
      var req := InitReq.Parse(task.variant, Read(body));
      if req.Some? && req.value.keyID in task.verifyKeys then
        Some(Reading(task.verifyKeys[req.value.keyID], task.variant, req.value.inits))
      else None
    case Put(_, _, body) =>
      var req := InitReq.Parse(Janus, Read(body));
      if req.Some? && 0 in task.verifyKeys then Some(Reading(task.verifyKeys[0], Janus, req.value.inits)) else None
    case _ => None
  }

  ghost function IDOf(s: State, e: Entry): ReportID {
    if e.key in s.jobs && e.index < |s.jobs[e.key].rows| then s.jobs[e.key].rows[e.index].reportID else seq(16, _ => 0)
  }

  /** A task ID, the tasks that may be registered under it, and what each committed output share must satisfy. */
  datatype Watch = Watch(env: Env, taskID: TaskID, tasks: set<Task>, good: (ReportID, seq<Elt>) -> bool) {
    ghost predicate Valid() { env.Valid() && forall task :: task in tasks ==> task.taskID == taskID }

    ghost predicate Vouches(task: Task, reading: Reading, vi: VerifyInit)
      requires Valid()
    {
      var o := ReportOutcome(env, task, reading.key, reading.variant, vi);
      o.Finished? ==> good(vi.share.metadata.reportID, o.outShare)
    }

    ghost predicate VouchesAll(task: Task, reading: Reading)
      requires Valid()
    {
      forall vi :: vi in reading.inits ==> Vouches(task, reading, vi)
    }

    ghost predicate Allows(a: Action)
      requires Valid()
    {
      match a
      case Arrive(r) => GoodRequest(r)
      case Register(task) => task.taskID == taskID ==> task in tasks
      case Advance(_) => true
    }

    /** Read against any of the tasks, the request carries only reports with good outcomes. */
    ghost predicate GoodRequest(r: Request)
      requires Valid()
    {
      r.taskID == taskID ==> forall task :: task in tasks && ReadAgainst(task, r).Some? ==>
        VouchesAll(task, ReadAgainst(task, r).value)
    }

    ghost predicate GoodJob(job: Job)
      requires Valid()
    {
      job.taskID == taskID ==>
        forall i :: 0 <= i < |job.rows| && job.rows[i].finished ==> good(job.rows[i].reportID, job.rows[i].outShare)
    }

    ghost predicate GoodPlan(plan: Plan)
      requires Valid()
    {
      plan.task.taskID == taskID ==> VouchesAll(plan.task, Reading(plan.key, plan.variant, plan.req.inits))
    }

    ghost predicate GoodPhase(p: Phase)
      requires Valid()
    {
      match p
      case Ready(plan) => GoodPlan(plan)
      case Absent(plan) => GoodPlan(plan)
      case Built(job) => GoodJob(job)
      case Conflicted(job) => GoodJob(job)
      case _ => true
    }

    ghost predicate GoodCall(call: Call)
      requires Valid()
    {
      GoodRequest(call.req) && GoodPhase(call.phase)
    }

    ghost predicate GoodTasks(s: State) { taskID in s.tasks ==> s.tasks[taskID] in tasks }

    ghost predicate GoodStore(s: State)
      requires Valid()
    {
      GoodTasks(s) && forall k :: k in s.jobs ==> GoodJob(s.jobs[k])
    }

    ghost predicate Good(w: World)
      requires Valid()
    {
      GoodStore(w.store) && forall i :: 0 <= i < |w.calls| ==> GoodCall(w.calls[i])
    }

    lemma BuiltGood(plan: Plan, claims: Claims)
      requires Valid() && GoodPlan(plan)
      ensures GoodJob(PlannedJob(env, plan, claims))
    {
      hide ReportOutcome, FinishMessage;
      var job := PlannedJob(env, plan, claims);
      if plan.task.taskID == taskID {
        forall i | 0 <= i < |job.rows| && job.rows[i].finished
          ensures good(job.rows[i].reportID, job.rows[i].outShare)
        {
          var vi := plan.req.inits[i];
          assert vi in plan.req.inits;
          assert Vouches(plan.task, Reading(plan.key, plan.variant, plan.req.inits), vi);
        }
      }
    }

    /** Checking a creation request against a watched task leads to a good phase. */
    lemma PostGood(r: Request, task: Task)
      requires Valid() && r.Post? && r.taskID == taskID && GoodRequest(r) && task in tasks
      ensures GoodPhase(PostPhase(env, task, Read(r.body)))
    {
      hide InitReq.Parse, ExtensionProblem, NoDuplicates, IDs, VouchesAll, RejectAllJob, GoodJob, Read;
      var body := Read(r.body);
      var parsed := InitReq.Parse(task.variant, body);
      if parsed.Some? {
        RejectAllGood(task, parsed.value, env.sha(body));
        if ReadAgainst(task, r).Some? { assert VouchesAll(task, ReadAgainst(task, r).value); }
      }
    }

    lemma PutGood(r: Request, task: Task)
      requires Valid() && r.Put? && r.taskID == taskID && GoodRequest(r) && task in tasks
      ensures GoodPhase(PutPhase(env, task, r.jobID, Read(r.body)))
    {
      hide InitReq.Parse, NoDuplicates, IDs, VouchesAll, Read;
      if ReadAgainst(task, r).Some? { assert VouchesAll(task, ReadAgainst(task, r).value); }
    }

    /** A request for another task has nothing to vouch for. */
    lemma OtherGood(r: Request, task: Task)
      requires Valid() && task.taskID != taskID
      ensures r.Post? ==> GoodPhase(PostPhase(env, task, Read(r.body)))
      ensures r.Put? ==> GoodPhase(PutPhase(env, task, r.jobID, Read(r.body)))
    {
      hide InitReq.Parse, ExtensionProblem, NoDuplicates, IDs, VouchesAll, RowFor, Read;
    }

    lemma RejectAllGood(task: Task, req: InitReq, hash: Hash)
      requires Valid()
      ensures GoodJob(RejectAllJob(task, hash[..16], req, hash, UnknownVerificationKeyID))
    {}

    lemma ArrivedGood(r: Request, s: State)
      requires Valid() && StoreOK(s) && GoodStore(s) && GoodRequest(r)
      ensures var (p', s') := Step(env, r, Arrived, s); GoodStore(s') && GoodPhase(p')
    {
      hide PostPhase, PutPhase, Respond, Replay, PlannedJob, Claimed, GoodRequest, GoodJob, GoodPlan, JobOK, Read;
      if r.Post? || r.Put? {
        if r.taskID in s.tasks {
          var task := s.tasks[r.taskID];
          if r.taskID != taskID {
            OtherGood(r, task);
          } else if r.Post? {
            PostGood(r, task);
          } else {
            PutGood(r, task);
          }
        }
      }
    }

    lemma StepGood(r: Request, p: Phase, s: State)
      requires Valid() && StoreOK(s) && GoodStore(s) && GoodCall(Call(r, p))
      ensures var (p', s') := Step(env, r, p, s); GoodStore(s') && GoodCall(Call(r, p'))
    {
      hide Step, StoreOK, GoodRequest, GoodJob, GoodPlan, Respond, Replay, PlannedJob, Claimed;
      match p
      case Arrived => ArrivedGood(r, s);
      case Ready(plan) => StepReady(env, r, plan, s);
      case Absent(plan) =>
        StepReady(env, r, plan, s);
        BuiltGood(plan, s.claims);
      case Built(job) => StepBuilt(env, r, job, s);
      case Conflicted(job) => StepBuilt(env, r, job, s);
      case Done(a) => StepDone(env, r, a, s);
    }

    lemma NextGood(w: World, a: Action)
      requires Valid() && Inv(w) && Good(w) && Allows(a)
      ensures Good(Next(env, w, a))
    {
      hide Step, StoreOK, PhaseOK, GoodRequest, GoodJob, GoodPlan;
      if a.Advance? && a.i < |w.calls| { StepGood(w.calls[a.i].req, w.calls[a.i].phase, w.store); }
    }

    lemma InitialGood(w: World)
      requires Valid() && Initial(w) && GoodTasks(w.store)
      ensures Good(w)
    {
      hide GoodJob, GoodTasks;
    }

    lemma {:induction false} RunGood(w: World, actions: seq<Action>)
      requires Valid() && Initial(w) && GoodTasks(w.store)
      requires forall i :: 0 <= i < |actions| ==> Allows(actions[i])
      ensures Good(Run(env, w, actions))
    {
      hide Next, Allows, Good, GoodTasks;
      if actions == [] {
        InitialGood(w);
      } else {
        RunGood(w, actions[..|actions| - 1]);
        RunKeeps(env, w, actions[..|actions| - 1]);
        NextGood(Run(env, w, actions[..|actions| - 1]), actions[|actions| - 1]);
      }
    }

    lemma GoodEntry(s: State, e: Entry)
      requires Valid() && StoreOK(s) && GoodStore(s) && IsEntry(s, taskID, e)
      ensures good(IDOf(s, e), ShareOf(s, e))
    {
      hide JobOK, GoodRequest;
      assert GoodJob(s.jobs[e.key]);
    }

    /** In every reachable state, every committed row is good. */
    lemma CommittedGood(w: World, actions: seq<Action>, e: Entry)
      requires Valid() && Initial(w) && GoodTasks(w.store)
      requires forall i :: 0 <= i < |actions| ==> Allows(actions[i])
      requires IsEntry(Run(env, w, actions).store, taskID, e)
      ensures var s := Run(env, w, actions).store; good(IDOf(s, e), ShareOf(s, e))
    {
      hide Run, Allows, StoreOK, GoodStore, GoodTasks, IsEntry, ShareOf, IDOf;
      RunGood(w, actions);
      RunKeeps(env, w, actions);
      GoodEntry(Run(env, w, actions).store, e);
    }
  }
}
