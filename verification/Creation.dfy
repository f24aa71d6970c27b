/** What a request served without interruption does, case by case. */
module Creation {
  import opened Bytes
  import opened Wire
  import opened Messages
  import opened HelperJobs
  import opened Jobs
  import opened Store
  import opened Handlers
  import opened Interleavings

  /** No extension, or one leader-selected batch ID; a leader-selected task needs one of 32 bytes. */
  predicate GoodExtensions(task: Task, es: seq<Extension>) {
    || (es == [] && task.config.batchMode != 2)
    || (|es| == 1 && es[0].kind == 1 && (task.config.batchMode == 2 ==> |es[0].data| == 32))
  }

  predicate DistinctReports(req: InitReq) {
    forall i, j :: 0 <= i < j < |req.inits| ==>
      req.inits[i].share.metadata.reportID != req.inits[j].share.metadata.reportID
  }

  /** The reports of the request that another job of the task already holds. */
  function HeldElsewhere(claims: Claims, t: TaskID, j: JobID, req: InitReq): set<ReportID> {
    set vi | vi in req.inits && ReportKey(t, vi.share.metadata.reportID) in claims
      && claims[ReportKey(t, vi.share.metadata.reportID)] != j :: vi.share.metadata.reportID
  }

  predicate Names(req: InitReq, id: ReportID) {
    exists i :: 0 <= i < |req.inits| && req.inits[i].share.metadata.reportID == id
  }

  /** Every report of the request is claimed afterwards, by this job unless another held it; nothing else moves. */
  ghost predicate ClaimsTaken(before: Claims, after: Claims, t: TaskID, j: JobID, req: InitReq) {
    && (forall k :: k in after <==> k in before || (k.taskID == t && Names(req, k.reportID)))
    && forall k :: k in after ==> after[k] == if k in before then before[k] else j
  }

  /** The job the request makes: the header, and one row per report. */
  ghost predicate Made(env: Env, plan: Plan, held: set<ReportID>, job: Job)
    requires env.Valid()
  {
    && job.taskID == plan.task.taskID && job.jobID == plan.jobID && job.hash == plan.hash
    && job.variant == plan.variant && Paired(job) && |job.rows| == |plan.req.inits|
    && forall i :: 0 <= i < |plan.req.inits| ==>
         InitRow(env, plan.task, plan.key, plan.variant, plan.req.inits[i], held, job.rows[i])
  }

  /** The answer carries the job's response: it decodes to it. */
  ghost predicate AnswersWith(a: Answer, job: Job) {
    a.Resp? && a.jobID == job.jobID && JobResp.Parse(job.variant, a.body) == Some(JobResp(job.resps))
  }

  /** Only the job under k is new. */
  ghost predicate StoredNew(s: State, s': State, k: JobKey, job: Job) {
    s'.tasks == s.tasks && k !in s.jobs && s'.jobs == s.jobs[k := job]
  }

  /** What becomes of a request that passed every check. With nothing stored under its job ID: a new job, made from
      the request and the claims as they stood, its reports claimed, and its response as the answer. With a job
      stored there: that job's response to the same request, a conflict for any other, and no change. */
  ghost predicate Served(env: Env, plan: Plan, s: State, p: Phase, s': State)
    requires env.Valid()
  {
    var (t, k) := (plan.task.taskID, JobKey(plan.task.taskID, plan.jobID));
    if k in s.jobs then
      && s' == s
      && (s.jobs[k].hash == plan.hash ==> p.Done? && AnswersWith(p.answer, s.jobs[k]))
      && (s.jobs[k].hash != plan.hash ==> p == Done(Problem(409, "invalidMessage")))
    else
      && k in s'.jobs && StoredNew(s, s', k, s'.jobs[k])
      && Made(env, plan, HeldElsewhere(s.claims, t, plan.jobID, plan.req), s'.jobs[k])
      && ClaimsTaken(s.claims, s'.claims, t, plan.jobID, plan.req)
      && p.Done? && AnswersWith(p.answer, s'.jobs[k])
  }

  // ---------- from the plan on ----------

  lemma HeldIsReplayed(claims: Claims, t: TaskID, j: JobID, req: InitReq)
    ensures HeldElsewhere(claims, t, j, req) == Store.Replayed(claims, t, j, IDs(req.inits))
  {
    var ids, held := IDs(req.inits), HeldElsewhere(claims, t, j, req);
    forall id ensures id in held <==> id in Store.Replayed(claims, t, j, ids) {
      if id in Store.Replayed(claims, t, j, ids) {
        var i :| 0 <= i < |ids| && ids[i] == id;
        assert req.inits[i] in req.inits;
      }
      if id in held {
        var vi :| vi in req.inits && vi.share.metadata.reportID == id;
        var i :| 0 <= i < |req.inits| && req.inits[i] == vi;
        assert ids[i] == id;
      }
    }
  }

  lemma ClaimsAreTaken(before: Claims, t: TaskID, j: JobID, req: InitReq)
    ensures ClaimsTaken(before, Claimed(before, t, j, IDs(req.inits)), t, j, req)
  {
    hide Claimed;
    var ids, after := IDs(req.inits), Claimed(before, t, j, IDs(req.inits));
    forall k
      ensures k in after <==> k in before || (k.taskID == t && Names(req, k.reportID))
      ensures k in after ==> after[k] == if k in before then before[k] else j
    {
      ClaimedAt(before, t, j, ids, k);
      if k.reportID in ids {
        var i :| 0 <= i < |ids| && ids[i] == k.reportID;
        assert req.inits[i].share.metadata.reportID == k.reportID;
      }
    }
  }

  lemma PlanServed(env: Env, r: Request, plan: Plan, s: State)
    requires env.Valid() && StoreOK(s) && PlanOK(plan, r)
    ensures var (p, s') := From(env, r, Ready(plan), s); Served(env, plan, s, p, s')
  {
    hide From, Made, ClaimsTaken, HeldElsewhere, AnswersWith, PlanOK, JobOK, Replay;
    var k := JobKey(plan.task.taskID, plan.jobID);
    FromReady(env, r, plan, s);
    if k in s.jobs {
      StoredAnswers(s, k, plan.hash);
    } else {
      PlanCreates(env, r, plan, s);
    }
  }

  lemma PlanCreates(env: Env, r: Request, plan: Plan, s: State)
    requires env.Valid() && PlanOK(plan, r)
    requires JobKey(plan.task.taskID, plan.jobID) !in s.jobs
    ensures var (t, k) := (plan.task.taskID, JobKey(plan.task.taskID, plan.jobID));
      var (p, s') := From(env, r, Ready(plan), s);
      && k in s'.jobs && StoredNew(s, s', k, s'.jobs[k])
      && Made(env, plan, HeldElsewhere(s.claims, t, plan.jobID, plan.req), s'.jobs[k])
      && ClaimsTaken(s.claims, s'.claims, t, plan.jobID, plan.req)
      && p.Done? && AnswersWith(p.answer, s'.jobs[k])
  {
    hide From, InitRow, Paired, Claimed, InitReq.WellFormed, NoDuplicates, Respond, JobOK, JobResp.Parse, InitJob;
    var (t, ids) := (plan.task.taskID, IDs(plan.req.inits));
    FromReady(env, r, plan, s);
    HeldIsReplayed(s.claims, t, plan.jobID, plan.req);
    ClaimsAreTaken(s.claims, t, plan.jobID, plan.req);
    InitJobRows(env, plan.task, plan.key, plan.variant, plan.jobID, plan.req, plan.hash,
                Store.Replayed(s.claims, t, plan.jobID, ids));
    PlannedJobOK(env, r, plan, s);
    RespondsProperly(s.ClaimAll(t, plan.jobID, ids).claims, PlannedJob(env, plan, s.claims));
  }

  lemma StoredAnswers(s: State, k: JobKey, hash: Hash)
    requires StoreOK(s) && k in s.jobs
    ensures s.jobs[k].hash == hash ==> Replay(s, k, hash) == Respond(s.jobs[k])
    ensures s.jobs[k].hash != hash ==> Replay(s, k, hash) == Problem(409, "invalidMessage")
    ensures AnswersWith(Respond(s.jobs[k]), s.jobs[k])
  {
    hide JobOK, Respond, JobResp.Parse;
    RespondsProperly(s.claims, s.jobs[k]);
  }

  // ---------- POST ----------

  /** The plan a POST makes when it passes its checks: under the key it names, with the job ID cut from its hash. */
  function PostPlan(env: Env, task: Task, body: seq<byte>, req: InitReq): Plan
    requires req.keyID in task.verifyKeys
  {
    Plan(task, task.verifyKeys[req.keyID], task.variant, env.sha(body)[..16], env.sha(body), req)
  }

  /** No task, no request, or an unknown key before draft-19: nothing is stored, and this is the problem. */
  lemma PostUnread(env: Env, s: State, t: TaskID, raw: seq<byte>)
    requires env.Valid()
    ensures t !in s.tasks ==> Alone(env, Post(t, raw), s) == (Done(Problem(400, "unrecognizedTask")), s)
    ensures t in s.tasks ==>
      var (v, parsed) := (s.tasks[t].variant, InitReq.Parse(s.tasks[t].variant, Read(raw)));
      (parsed.None? || (parsed.value.keyID !in s.tasks[t].verifyKeys && (v.Draft18? || v.Janus?))) ==>
        Alone(env, Post(t, raw), s) == (Done(Problem(400, "invalidMessage")), s)
  {
    hide From, InitReq.Parse, Read, ExtensionProblem, NoDuplicates, IDs, RejectAllJob;
    var r := Post(t, raw);
    DoneStays(env, r, Problem(400, "unrecognizedTask"), s);
    DoneStays(env, r, Problem(400, "invalidMessage"), s);
  }

  ghost predicate AllRejected(job: Job, req: InitReq) {
    && Paired(job) && |job.rows| == |req.inits|
    && forall i :: 0 <= i < |req.inits| ==> RejectedRow(job.rows[i], req.inits[i].share.metadata.reportID)
  }

  predicate RejectedRow(row: Row, id: ReportID) {
    row.reportID == id && !row.finished && row.error == UnknownVerificationKeyID
  }

  /** The answer decodes to one rejection a report, in request order, each for the unknown key. */
  ghost predicate TellsUnknownKey(a: Answer, v: Variant, j: JobID, req: InitReq) {
    a.Resp? && a.jobID == j && var parsed := JobResp.Parse(v, a.body);
      && parsed.Some? && |parsed.value.resps| == |req.inits|
      && forall i :: 0 <= i < |req.inits| ==> var resp := parsed.value.resps[i];
        resp.reportID == req.inits[i].share.metadata.reportID && resp.kind == RESP_REJECT
        && resp.error == UnknownVerificationKeyID
  }

  lemma RejectionTold(a: Answer, job: Job, req: InitReq)
    requires AllRejected(job, req) && AnswersWith(a, job)
    ensures TellsUnknownKey(a, job.variant, job.jobID, req)
  {
    hide JobResp.Parse, PingPong.Parse;
    forall i | 0 <= i < |req.inits| ensures PairedRow(job.rows[i], i, job.resps[i]) {}
  }

  /** An unknown key from draft-19 on: every report is rejected with that error, in a job stored unless one is there;
      no report is claimed. */
  lemma PostUnknownKey(env: Env, s: State, t: TaskID, raw: seq<byte>, req: InitReq)
    requires env.Valid() && t in s.tasks && (s.tasks[t].variant.Draft19? || s.tasks[t].variant.Draft20?)
    requires InitReq.Parse(s.tasks[t].variant, Read(raw)) == Some(req) && req.keyID !in s.tasks[t].verifyKeys
    ensures var task, hash := s.tasks[t], env.sha(Read(raw));
      var k := JobKey(task.taskID, hash[..16]);
      var (p, s') := Alone(env, Post(t, raw), s);
      && (k in s.jobs && s.jobs[k].hash != hash ==> p == Done(Problem(409, "invalidMessage")) && s' == s)
      && (k in s.jobs && s.jobs[k].hash == hash ==>
           p.Done? && TellsUnknownKey(p.answer, task.variant, hash[..16], req) && s' == s)
      && (k !in s.jobs ==>
           && k in s'.jobs && StoredNew(s, s', k, s'.jobs[k]) && s'.claims == s.claims
           && s'.jobs[k].hash == hash && s'.jobs[k].variant == task.variant && AllRejected(s'.jobs[k], req)
           && p.Done? && TellsUnknownKey(p.answer, task.variant, hash[..16], req)
           && AnswersWith(p.answer, s'.jobs[k]))
  {
    hide From, InitReq.Parse, InitReq.WellFormed, Read, ExtensionProblem, NoDuplicates, IDs, RejectAllJob, Paired,
      Respond, JobOK, JobResp.Parse, TellsUnknownKey;
    var task, hash, r := s.tasks[t], env.sha(Read(raw)), Post(t, raw);
    var job := RejectAllJob(task, hash[..16], req, hash, UnknownVerificationKeyID);
    FromBuilt(env, r, job, s);
    ParsesWellFormed(task.variant, Read(raw));
    RejectAllRows(task, hash[..16], req, hash, UnknownVerificationKeyID);
    RejectAllJobOK(s.claims, task, req, hash);
    RespondsProperly(s.claims, job);
    RejectionTold(Respond(job), job, req);
  }

  /** A request under a known key that fails a check: nothing is stored, and the first check to fail names the
      problem. */
  lemma PostRefused(env: Env, s: State, t: TaskID, raw: seq<byte>, req: InitReq)
    requires env.Valid() && t in s.tasks && InitReq.Parse(s.tasks[t].variant, Read(raw)) == Some(req)
    requires req.keyID in s.tasks[t].verifyKeys
    requires !(GoodExtensions(s.tasks[t], req.extensions) && req.aggParam == [] && DistinctReports(req))
    ensures Alone(env, Post(t, raw), s) == (Done(Problem(400,
      if exists e :: e in req.extensions && e.kind != 1 then "unsupportedExtension"
      else if !GoodExtensions(s.tasks[t], req.extensions) then "invalidMessage"
      else if req.aggParam != [] then "invalidAggregationParameter"
      else "invalidMessage")), s)
  {
    hide From, InitReq.Parse, Read, RejectAllJob, GoodExtensions, ExtensionProblem;
    var r := Post(t, raw);
    ExtensionsChecked(s.tasks[t], req.extensions);
    DoneStays(env, r, Problem(400, "unsupportedExtension"), s);
    DoneStays(env, r, Problem(400, "invalidMessage"), s);
    DoneStays(env, r, Problem(400, "invalidAggregationParameter"), s);
  }

  lemma ExtensionsChecked(task: Task, es: seq<Extension>)
    ensures GoodExtensions(task, es) <==> ExtensionProblem(task, es).None?
    ensures GoodExtensions(task, es) ==> !exists e :: e in es && e.kind != 1
    ensures
      var problem := if exists e :: e in es && e.kind != 1 then "unsupportedExtension" else "invalidMessage";
      GoodExtensions(task, es) || ExtensionProblem(task, es) == Some(problem)
  {
    if StrictlyIncreasing(es) { OrderedKinds(es); }
    if |es| > 1 { assert es[0] in es && es[1] in es; }
    if |es| > 0 { assert es[0] in es; }
  }

  /** A request under a known key that passes every check is served. */
  lemma PostAccepted(env: Env, s: State, t: TaskID, raw: seq<byte>, req: InitReq)
    requires env.Valid() && StoreOK(s) && t in s.tasks
    requires InitReq.Parse(s.tasks[t].variant, Read(raw)) == Some(req) && req.keyID in s.tasks[t].verifyKeys
    requires GoodExtensions(s.tasks[t], req.extensions) && req.aggParam == [] && DistinctReports(req)
    ensures var (p, s') := Alone(env, Post(t, raw), s);
      Served(env, PostPlan(env, s.tasks[t], Read(raw), req), s, p, s')
  {
    hide From, InitReq.Parse, InitReq.WellFormed, Read, RejectAllJob, GoodExtensions, ExtensionProblem, Served, JobOK;
    ExtensionsChecked(s.tasks[t], req.extensions);
    ParsesWellFormed(s.tasks[t].variant, Read(raw));
    PlanServed(env, Post(t, raw), PostPlan(env, s.tasks[t], Read(raw), req), s);
  }

  /** With nothing stored under its job ID, a POST under a known key ends in a response exactly when its extensions
      suit the task, its aggregation parameter is empty and its report IDs are distinct; otherwise nothing changes. */
  lemma PostExactly(env: Env, s: State, t: TaskID, raw: seq<byte>, req: InitReq)
    requires env.Valid() && StoreOK(s) && t in s.tasks
    requires InitReq.Parse(s.tasks[t].variant, Read(raw)) == Some(req) && req.keyID in s.tasks[t].verifyKeys
    requires JobKey(t, env.sha(Read(raw))[..16]) !in s.jobs
    ensures var (p, s') := Alone(env, Post(t, raw), s);
      && p.Done?
      && (p.answer.Resp? <==>
           GoodExtensions(s.tasks[t], req.extensions) && req.aggParam == [] && DistinctReports(req))
      && (!p.answer.Resp? ==> s' == s)
  {
    hide Alone, InitReq.Parse, Read, GoodExtensions, DistinctReports, JobOK, Made, ClaimsTaken, StoredNew,
      HeldElsewhere;
    if GoodExtensions(s.tasks[t], req.extensions) && req.aggParam == [] && DistinctReports(req) {
      PostAccepted(env, s, t, raw, req);
    } else {
      PostRefused(env, s, t, raw, req);
    }
  }

  // ---------- PUT ----------

  /** The plan a PUT makes when it passes its checks: Janus, under key 0, with the job ID the Leader chose. */
  function PutPlan(env: Env, task: Task, j: JobID, body: seq<byte>, req: InitReq): Plan
    requires 0 in task.verifyKeys
  {
    Plan(task, task.verifyKeys[0], Janus, j, env.sha(body), req)
  }

  /** No task, a task of draft-19 or later, or no request: nothing is stored, and this is the problem. */
  lemma PutUnread(env: Env, s: State, t: TaskID, j: JobID, raw: seq<byte>)
    requires env.Valid()
    ensures t !in s.tasks ==> Alone(env, Put(t, j, raw), s) == (Done(Problem(400, "unrecognizedTask")), s)
    ensures t in s.tasks ==>
      var v := s.tasks[t].variant;
      if v.Draft19? || v.Draft20? then
        Alone(env, Put(t, j, raw), s) == (Done(Problem(405, "unrecognizedMessage")), s)
      else
        InitReq.Parse(Janus, Read(raw)).None? ==>
          Alone(env, Put(t, j, raw), s) == (Done(Problem(400, "invalidMessage")), s)
  {
    hide From, InitReq.Parse, Read, NoDuplicates, IDs;
    var r := Put(t, j, raw);
    DoneStays(env, r, Problem(400, "unrecognizedTask"), s);
    DoneStays(env, r, Problem(405, "unrecognizedMessage"), s);
    DoneStays(env, r, Problem(400, "invalidMessage"), s);
  }

  /** A readable PUT that fails a check: nothing is stored, and this is the problem. */
  lemma PutRefused(env: Env, s: State, t: TaskID, j: JobID, raw: seq<byte>, req: InitReq)
    requires env.Valid() && t in s.tasks && (s.tasks[t].variant.Draft18? || s.tasks[t].variant.Janus?)
    requires InitReq.Parse(Janus, Read(raw)) == Some(req)
    requires !(req.aggParam == [] && DistinctReports(req) && 0 in s.tasks[t].verifyKeys)
    ensures Alone(env, Put(t, j, raw), s) ==
      (Done(Problem(400, if req.aggParam != [] then "invalidAggregationParameter" else "invalidMessage")), s)
  {
    hide From, InitReq.Parse, Read;
    var r := Put(t, j, raw);
    DoneStays(env, r, Problem(400, "invalidMessage"), s);
    DoneStays(env, r, Problem(400, "invalidAggregationParameter"), s);
  }

  /** A PUT that passes every check is served. */
  lemma PutAccepted(env: Env, s: State, t: TaskID, j: JobID, raw: seq<byte>, req: InitReq)
    requires env.Valid() && StoreOK(s) && t in s.tasks
    requires s.tasks[t].variant.Draft18? || s.tasks[t].variant.Janus?
    requires InitReq.Parse(Janus, Read(raw)) == Some(req)
    requires req.aggParam == [] && DistinctReports(req) && 0 in s.tasks[t].verifyKeys
    ensures var (p, s') := Alone(env, Put(t, j, raw), s);
      Served(env, PutPlan(env, s.tasks[t], j, Read(raw), req), s, p, s')
  {
    hide From, InitReq.Parse, InitReq.WellFormed, Read, Served, JobOK;
    ParsesWellFormed(Janus, Read(raw));
    PlanServed(env, Put(t, j, raw), PutPlan(env, s.tasks[t], j, Read(raw), req), s);
  }

  /** With nothing stored under its job ID, a readable PUT ends in a response exactly when its aggregation parameter
      is empty, its report IDs are distinct and key 0 is registered; otherwise nothing changes. */
  lemma PutExactly(env: Env, s: State, t: TaskID, j: JobID, raw: seq<byte>, req: InitReq)
    requires env.Valid() && StoreOK(s) && t in s.tasks && JobKey(t, j) !in s.jobs
    requires s.tasks[t].variant.Draft18? || s.tasks[t].variant.Janus?
    requires InitReq.Parse(Janus, Read(raw)) == Some(req)
    ensures var (p, s') := Alone(env, Put(t, j, raw), s);
      && p.Done?
      && (p.answer.Resp? <==> req.aggParam == [] && DistinctReports(req) && 0 in s.tasks[t].verifyKeys)
      && (!p.answer.Resp? ==> s' == s)
  {
    hide Alone, InitReq.Parse, Read, DistinctReports, JobOK, Made, ClaimsTaken, StoredNew, HeldElsewhere;
    if req.aggParam == [] && DistinctReports(req) && 0 in s.tasks[t].verifyKeys {
      PutAccepted(env, s, t, j, raw, req);
    } else {
      PutRefused(env, s, t, j, raw, req);
    }
  }

  // ---------- polls, deletions and retries ----------

  /** A poll answers with the stored job's response, or not found; a deletion removes the job. */
  lemma Polled(env: Env, s: State, t: TaskID, j: JobID)
    requires env.Valid() && StoreOK(s)
    ensures var (p, s') := Alone(env, Get(t, j), s);
      s' == s && p.Done?
      && if JobKey(t, j) in s.jobs then AnswersWith(p.answer, s.jobs[JobKey(t, j)])
         else p.answer == Problem(404, "invalidMessage")
    ensures var (p, s') := Alone(env, Delete(t, j), s);
      p == Done(Deleted) && s' == State(s.tasks, s.jobs - {JobKey(t, j)}, s.claims)
  {
    hide From, Respond, JobOK, AnswersWith;
    var k := JobKey(t, j);
    DoneStays(env, Delete(t, j), Deleted, s.DeleteJob(k));
    DoneStays(env, Get(t, j), if k in s.jobs then Respond(s.jobs[k]) else Problem(404, "invalidMessage"), s);
    if k in s.jobs { StoredAnswers(s, k, s.jobs[k].hash); }
  }

  /** A creation request sent again, with nothing in between, gets the same answer and changes nothing further. */
  lemma RetrySucceeds(env: Env, s: State, r: Request)
    requires env.Valid() && (r.Post? || r.Put?)
    ensures Alone(env, r, Alone(env, r, s).1) == Alone(env, r, s)
  {
    hide From, PostPhase, PutPhase, Read;
    var p := Step(env, r, Arrived, s).0;
    FirstPhase(env, s, r);
    FromAgain(env, r, p, s);
  }

  lemma FirstPhase(env: Env, s: State, r: Request)
    requires env.Valid() && (r.Post? || r.Put?)
    ensures var (p, s') := Step(env, r, Arrived, s); s' == s && (p.Done? || p.Built? || p.Ready?)
  {
    hide InitReq.Parse, Read, ExtensionProblem, NoDuplicates, IDs, RejectAllJob;
  }

  lemma FromAgain(env: Env, r: Request, p: Phase, s: State)
    requires env.Valid() && (p.Done? || p.Built? || p.Ready?)
    ensures var (a, s') := From(env, r, p, s); s'.tasks == s.tasks && From(env, r, p, s') == (a, s')
  {
    hide From, Respond, InitJob, Claimed, IDs;
    var s' := From(env, r, p, s).1;
    match p
    case Done(a) => DoneStays(env, r, a, s);
    case Built(job) =>
      FromBuilt(env, r, job, s);
      FromBuilt(env, r, job, s');
    case Ready(plan) =>
      FromReady(env, r, plan, s);
      FromReady(env, r, plan, s');
  }
}
