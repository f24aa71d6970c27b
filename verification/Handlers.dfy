/** The Helper's request handlers: each runs as a few atomic store steps with local computation in between. */
module Handlers {
  import opened Bytes
  import opened Wire
  import opened Messages
  import opened HelperJobs
  import opened Jobs
  import opened Store
  import opened Aggregates
  import opened Poly
  import Codec
  import FieldVec
  import Sums

  const MAX_BODY: nat := 16 * 1024 * 1024
  const LEADER_SELECTED: nat := 2
  const LEADER_SELECTED_BATCH_ID: nat := 1

  datatype Request =
    | Post(taskID: TaskID, body: seq<byte>)               // create; the Helper derives the job ID
    | Put(taskID: TaskID, jobID: JobID, body: seq<byte>)  // create, Janus dialect; the Leader chose the job ID
    | Get(taskID: TaskID, jobID: JobID)
    | Delete(taskID: TaskID, jobID: JobID)

  datatype Answer = Problem(status: nat, name: string) | Resp(jobID: JobID, body: seq<byte>) | Deleted

  /** A creation request that passed every check, before it touches jobs or claims. */
  datatype Plan = Plan(task: Task, key: Hash, variant: Variant, jobID: JobID, hash: Hash, req: InitReq)

  /** Where a request stands between two store steps. */
  datatype Phase =
    | Arrived
    | Ready(plan: Plan)      // next: GetJob
    | Absent(plan: Plan)     // next: ClaimReportIDs
    | Built(job: Job)        // next: PutJob
    | Conflicted(job: Job)   // next: GetJob once more
    | Done(answer: Answer)

  /** The body reader stops, without complaint, at the size limit. */
  function Read(body: seq<byte>): (r: seq<byte>)
    ensures r <= body && |r| <= 16777216
    ensures |body| <= 16777216 ==> r == body
    ensures |body| > 16777216 ==> |r| == 16777216
  {
    if |body| > MAX_BODY then body[..MAX_BODY] else body
  }

  function Malformed(): Answer { Problem(400, "invalidMessage") }

  function Conflict(): Answer { Problem(409, "invalidMessage") }

  /** The stored or built response, encoded under the job's variant. */
  function Respond(job: Job): Answer {
    if JobResp(job.resps).Marshals(job.variant) then
      Resp(job.jobID, JobResp(job.resps).Bytes(job.variant))
    else Problem(500, "invalidMessage")
  }

  // ---------- request checks ----------

  predicate StrictlyIncreasing(es: seq<Extension>) { forall i, j :: 0 <= i < j < |es| ==> es[i].kind < es[j].kind }

  /** Whether the aggregation-job extensions suit the task, and the problem to report if not. */
  function ExtensionProblem(task: Task, es: seq<Extension>): Option<string> {
    if exists e :: e in es && e.kind != LEADER_SELECTED_BATCH_ID then Some("unsupportedExtension")
    else if !StrictlyIncreasing(es) then Some("invalidMessage")
    else if task.config.batchMode == LEADER_SELECTED && !(|es| > 0 && |es[0].data| == 32) then Some("invalidMessage")
    else None
  }

  lemma OrderedKinds(es: seq<Extension>)
    requires StrictlyIncreasing(es)
    ensures |es| > 1 ==> es[0].kind < es[1].kind
  {}

  /** Compares neighbours only. */
  method IsStrictlyIncreasing(es: seq<Extension>) returns (ok: bool)
    ensures ok <==> StrictlyIncreasing(es)
  {
    var i := 1;
    while i < |es|
      invariant forall j, k :: 0 <= j < k < i && k < |es| ==> es[j].kind < es[k].kind
    {
      if es[i].kind <= es[i - 1].kind { return false; }
      i := i + 1;
    }
    ok := true;
  }

  method ValidateExtensions(task: Task, es: seq<Extension>) returns (problem: Option<string>)
    ensures problem == ExtensionProblem(task, es)
    ensures problem.None? <==>
      (es == [] && task.config.batchMode != LEADER_SELECTED)
      || (|es| == 1 && es[0].kind == LEADER_SELECTED_BATCH_ID
          && (task.config.batchMode == LEADER_SELECTED ==> |es[0].data| == 32))
  {
    for i := 0 to |es|
      invariant forall j :: 0 <= j < i ==> es[j].kind == LEADER_SELECTED_BATCH_ID
    {
      if es[i].kind != LEADER_SELECTED_BATCH_ID { return Some("unsupportedExtension"); }
    }
    var ordered := IsStrictlyIncreasing(es);
    if !ordered { return Some("invalidMessage"); }
    if task.config.batchMode == LEADER_SELECTED {
      if |es| == 0 || |es[0].data| != 32 { return Some("invalidMessage"); }
    }
    OrderedKinds(es);
    problem := None;
  }

  predicate NoDuplicates(ids: seq<ReportID>) { forall i, j :: 0 <= i < j < |ids| ==> ids[i] != ids[j] }

  method HasDuplicateReportIDs(inits: seq<VerifyInit>) returns (dup: bool)
    ensures dup <==> !NoDuplicates(IDs(inits))
  {
    var seen: set<ReportID> := {};
    ghost var ids := IDs(inits);
    for i := 0 to |inits|
      invariant NoDuplicates(ids[..i]) && forall id :: id in seen <==> id in ids[..i]
    {
      var id := inits[i].share.metadata.reportID;
      assert ids[..i + 1] == ids[..i] + [id];
      if id in seen { return true; }
      seen := seen + {id};
    }
    assert ids[..|inits|] == ids;
    dup := false;
  }

  // ---------- the steps ----------

  /** POST, once the task is known. */
  ghost function PostPhase(env: Env, task: Task, body: seq<byte>): Phase {
    var parsed := InitReq.Parse(task.variant, body);
    if parsed.None? then Done(Malformed())
    else
      var req, hash := parsed.value, env.sha(body);
      if req.keyID !in task.verifyKeys then
        if AfterDraft18(task.variant) then Built(RejectAllJob(task, hash[..16], req, hash, UnknownVerificationKeyID))
        else Done(Malformed())
      else if ExtensionProblem(task, req.extensions).Some? then
        Done(Problem(400, ExtensionProblem(task, req.extensions).value))
      else if req.aggParam != [] then Done(Problem(400, "invalidAggregationParameter"))
      else if !NoDuplicates(IDs(req.inits)) then Done(Malformed())
      else Ready(Plan(task, task.verifyKeys[req.keyID], task.variant, hash[..16], hash, req))
  }

  /** PUT, once the task is known: Janus messages under the key registered as 0. */
  ghost function PutPhase(env: Env, task: Task, jobID: JobID, body: seq<byte>): Phase {
    if AfterDraft18(task.variant) then Done(Problem(405, "unrecognizedMessage"))
    else
      var parsed := InitReq.Parse(Janus, body);
      if parsed.None? then Done(Malformed())
      else
        var req := parsed.value;
        if req.aggParam != [] then Done(Problem(400, "invalidAggregationParameter"))
        else if !NoDuplicates(IDs(req.inits)) then Done(Malformed())
        else if 0 !in task.verifyKeys then Done(Malformed())
        else Ready(Plan(task, task.verifyKeys[0], Janus, jobID, env.sha(body), req))
  }

  /** The job a plan builds, judging replays by the given claims. */
  ghost function PlannedJob(env: Env, plan: Plan, claims: Claims): (job: Job)
    requires env.Valid()
    ensures job.taskID == plan.task.taskID && job.jobID == plan.jobID
  {
    InitJob(env, plan.task, plan.key, plan.variant, plan.jobID, plan.req, plan.hash,
            Store.Replayed(claims, plan.task.taskID, plan.jobID, IDs(plan.req.inits)))
  }

  /** One atomic store operation of a request, with the local computation that follows it. */
  ghost function Step(env: Env, r: Request, p: Phase, s: State): (Phase, State)
    requires env.Valid()
  {
    match p
    case Arrived => (
      match r
      case Get(t, j) =>
        var k := JobKey(t, j);
        (Done(if k in s.jobs then Respond(s.jobs[k]) else Problem(404, "invalidMessage")), s)
      case Delete(t, j) => (Done(Deleted), s.DeleteJob(JobKey(t, j)))
      case Post(t, body) =>
        (if t in s.tasks then PostPhase(env, s.tasks[t], Read(body)) else Done(Problem(400, "unrecognizedTask")), s)
      case Put(t, j, body) =>
        (if t in s.tasks then PutPhase(env, s.tasks[t], j, Read(body)) else Done(Problem(400, "unrecognizedTask")), s)
    )
    case Ready(plan) =>
      var k := JobKey(plan.task.taskID, plan.jobID);
      (if k !in s.jobs then Absent(plan) else Done(Replay(s, k, plan.hash)), s)
    case Absent(plan) =>
      (Built(PlannedJob(env, plan, s.claims)), s.ClaimAll(plan.task.taskID, plan.jobID, IDs(plan.req.inits)))
    case Built(job) => (if s.Accepts(job) then Done(Respond(job)) else Conflicted(job), s.PutJob(job))
    case Conflicted(job) => (Done(Replay(s, JobKey(job.taskID, job.jobID), job.hash)), s)
    case Done(_) => (p, s)
  }

  /** The stored response if the stored request is the same one, a conflict otherwise. */
  ghost function Replay(s: State, k: JobKey, hash: Hash): Answer {
    if k in s.jobs && s.jobs[k].hash == hash then Respond(s.jobs[k]) else Conflict()
  }

  /** A request served with nothing else in between: five steps always suffice. */
  ghost function Alone(env: Env, r: Request, s: State): (Phase, State)
    requires env.Valid()
  {
    var (p1, s1) := Step(env, r, Arrived, s);
    From(env, r, p1, s1)
  }

  ghost function From(env: Env, r: Request, p1: Phase, s1: State): (Phase, State)
    requires env.Valid()
  {
    var (p2, s2) := Step(env, r, p1, s1);
    var (p3, s3) := Step(env, r, p2, s2);
    var (p4, s4) := Step(env, r, p3, s3);
    Step(env, r, p4, s4)
  }

  class Handler {
    const store: MemStore
    const env: Env

    constructor (store: MemStore, env: Env)
      ensures this.store == store && this.env == env
    {
      this.store := store;
      this.env := env;
    }

    method WriteResp(job: Job) returns (a: Answer)
      ensures a == Respond(job)
    {
      hide JobResp.Bytes;
      var out := Codec.MarshalJobResp(job.variant, JobResp(job.resps));
      if out.None? { return Problem(500, "invalidMessage"); }
      a := Resp(job.jobID, out.value);
    }

    /** Answers a creation request from the job already stored, if it was created by the same request. */
    method ReplayStored(t: TaskID, j: JobID, hash: Hash) returns (a: Answer)
      ensures a == Replay(store.Contents(), JobKey(t, j), hash)
    {
      hide Respond;
      var existing := store.GetJob(t, j);
      if existing.Some? && existing.value.hash == hash {
        a := WriteResp(existing.value);
        return;
      }
      a := Conflict();
    }

    /** Stores a built job; if another got there first, answers from that one. */
    method PutAndRespond(job: Job, ghost r: Request) returns (a: Answer)
      requires env.Valid()
      modifies store
      ensures (Done(a), store.Contents()) == From(env, r, Built(job), old(store.Contents()))
    {
      hide Respond, Replay, From, Step;
      FromBuilt(env, r, job, store.Contents());
      var stored := store.PutJob(job);
      if !stored {
        a := ReplayStored(job.taskID, job.jobID, job.hash);
        return;
      }
      a := WriteResp(job);
    }

    /** The part of creation both routes share: replay an existing job, or claim, build and store a new one. */
    method Create(plan: Plan, ghost r: Request) returns (a: Answer)
      requires env.Valid()
      modifies store
      ensures (Done(a), store.Contents()) == From(env, r, Ready(plan), old(store.Contents()))
    {
      hide Respond, Replay, From, Step, InitJob, Claimed;
      var task := plan.task;
      FromReady(env, r, plan, store.Contents());
      var existing := store.GetJob(task.taskID, plan.jobID);
      if existing.Some? {
        a := ReplayStored(task.taskID, plan.jobID, plan.hash);
        return;
      }
      var replayed := ClaimReports(task.taskID, plan.jobID, plan.req);
      var job := BuildInitJob(env, task, plan.key, plan.variant, plan.jobID, plan.req, plan.hash, replayed);
      FromBuilt(env, r, job, store.Contents());
      a := PutAndRespond(job, r);
    }

    /** The request's reports that another job of the task has already taken, as a set. */
    method ClaimReports(t: TaskID, jobID: JobID, req: InitReq) returns (replayed: set<ReportID>)
      modifies store
      ensures replayed == Store.Replayed(old(store.claims), t, jobID, IDs(req.inits))
      ensures store.Contents() == old(store.Contents()).ClaimAll(t, jobID, IDs(req.inits))
    {
      hide Claimed;
      var ids: seq<ReportID> := [];
      for i := 0 to |req.inits|
        invariant ids == IDs(req.inits)[..i] && store.Contents() == old(store.Contents())
      {
        ids := ids + [req.inits[i].share.metadata.reportID];
      }
      assert ids == IDs(req.inits);
      var held := store.ClaimReportIDs(t, jobID, ids);
      replayed := {};
      for i := 0 to |held|
        invariant forall id :: id in replayed <==> id in held[..i]
      {
        replayed := replayed + {held[i]};
      }
      assert held[..|held|] == held;
    }

    method HandleCreate(taskID: TaskID, rawBody: seq<byte>) returns (a: Answer)
      requires env.Valid()
      modifies store
      ensures (Done(a), store.Contents()) == Alone(env, Post(taskID, rawBody), old(store.Contents()))
    {
      hide From, Respond, InitReq.Parse, ExtensionProblem, NoDuplicates, RejectAllJob;
      ghost var r := Post(taskID, rawBody);
      var found := store.GetTask(taskID);
      if found.None? {
        DoneStays(env, r, Problem(400, "unrecognizedTask"), store.Contents());
        return Problem(400, "unrecognizedTask");
      }
      var task := found.value;
      var body := Read(rawBody);
      var parsed := Codec.UnmarshalInitReq(task.variant, body);
      if parsed.None? {
        DoneStays(env, r, Malformed(), store.Contents());
        return Malformed();
      }
      var req := parsed.value;
      if req.keyID !in task.verifyKeys {
        if !AfterDraft18(task.variant) {
          DoneStays(env, r, Malformed(), store.Contents());
          return Malformed();
        }
        var reqHash := env.sha(body);
        var rejected := BuildRejectAllJob(task, reqHash[..16], req, reqHash, UnknownVerificationKeyID);
        a := PutAndRespond(rejected, r);
        return;
      }
      var problem := ValidateExtensions(task, req.extensions);
      if problem.Some? {
        DoneStays(env, r, Problem(400, problem.value), store.Contents());
        return Problem(400, problem.value);
      }
      if |req.aggParam| != 0 {
        DoneStays(env, r, Problem(400, "invalidAggregationParameter"), store.Contents());
        return Problem(400, "invalidAggregationParameter");
      }
      var dup := HasDuplicateReportIDs(req.inits);
      if dup {
        DoneStays(env, r, Malformed(), store.Contents());
        return Malformed();
      }
      var hash := env.sha(body);
      a := Create(Plan(task, task.verifyKeys[req.keyID], task.variant, hash[..16], hash, req), r);
    }

    method HandleJanusInit(taskID: TaskID, jobID: JobID, rawBody: seq<byte>) returns (a: Answer)
      requires env.Valid()
      modifies store
      ensures (Done(a), store.Contents()) == Alone(env, Put(taskID, jobID, rawBody), old(store.Contents()))
    {
      hide From, Respond, InitReq.Parse, NoDuplicates;
      ghost var r := Put(taskID, jobID, rawBody);
      var found := store.GetTask(taskID);
      if found.None? {
        DoneStays(env, r, Problem(400, "unrecognizedTask"), store.Contents());
        return Problem(400, "unrecognizedTask");
      }
      var task := found.value;
      var body := Read(rawBody);
      if AfterDraft18(task.variant) {
        DoneStays(env, r, Problem(405, "unrecognizedMessage"), store.Contents());
        return Problem(405, "unrecognizedMessage");
      }
      var parsed := Codec.UnmarshalInitReq(Janus, body);
      if parsed.None? {
        DoneStays(env, r, Malformed(), store.Contents());
        return Malformed();
      }
      var req := parsed.value;
      if |req.aggParam| != 0 {
        DoneStays(env, r, Problem(400, "invalidAggregationParameter"), store.Contents());
        return Problem(400, "invalidAggregationParameter");
      }
      var dup := HasDuplicateReportIDs(req.inits);
      if dup || 0 !in task.verifyKeys {
        DoneStays(env, r, Malformed(), store.Contents());
        return Malformed();
      }
      a := Create(Plan(task, task.verifyKeys[0], Janus, jobID, env.sha(body), req), r);
    }

    /** Adds one job's committed output shares to the running sum and count. */
    method AddRows(rows: seq<Row>, agg0: seq<Elt>, n0: nat, ghost t: TaskID, ghost s: State, ghost k: JobKey,
        ghost done0: set<Entry>)
      returns (ok: bool, agg: seq<Elt>, n: nat, ghost done: set<Entry>)
      requires k in s.jobs && k.taskID == t && rows == s.jobs[k].rows && forall e :: e in done0 ==> e.key != k
      requires Summed(s, t, done0, agg0) && n0 == |done0|
      ensures !ok ==> Entries(s, t) != {} && !Uniform(s, t)
      ensures ok ==> Summed(s, t, done, agg) && n == |done|
      ensures ok ==> forall e :: e in done <==> e in done0 || (e.key == k && IsEntry(s, t, e))
    {
      hide Fp.Add, VAdd, Summed, Column, Uniform;
      agg, n, done := agg0, n0, done0;
      for i := 0 to |rows|
        invariant forall e :: e in done <==> e in done0 || (e.key == k && e.index < i && IsEntry(s, t, e))
        invariant Summed(s, t, done, agg) && n == |done|
      {
        if !rows[i].finished || rows[i].outShare == [] { continue; }
        ghost var e := Entry(k, i);
        assert IsEntry(s, t, e) && ShareOf(s, e) == rows[i].outShare;
        ghost var before := done;
        n := n + 1;
        done := done + {e};
        if agg == [] {
          NoneDone(s, t, before);
          FirstRow(s, t, e);
          agg := rows[i].outShare;
          continue;
        }
        var sum := FieldVec.VecAdd(agg, rows[i].outShare);
        if sum.Err? {
          OddRow(s, t, before, agg, e);
          assert e in Entries(s, t);
          return false, agg, n, done;
        }
        NextRow(s, t, before, agg, e);
        agg := sum.value;
      }
      ok := true;
    }

    /** Sums the committed output shares of every stored job of the task, in whatever order the store yields them.
        wellFormed is whether the request body parsed. */
    method HandleAggregateShare(taskID: TaskID, wellFormed: bool) returns (a: ShareAnswer, n: nat)
      ensures var s := store.Contents();
        && (taskID !in s.tasks ==> a == ShareProblem(400, "unrecognizedTask"))
        && (taskID in s.tasks && (!wellFormed || Entries(s, taskID) == {}) ==> a == ShareProblem(400, "invalidMessage"))
        && (taskID in s.tasks && wellFormed && Entries(s, taskID) != {} ==>
             if Uniform(s, taskID) then IsSum(s, taskID, a) && n == |Entries(s, taskID)|
             else a == ShareProblem(500, "invalidMessage"))
    {
      hide Fp.Add, VAdd, Summed, IsEntry, Uniform, IsSum;
      n := 0;
      var task := store.GetTask(taskID);
      if task.None? { return ShareProblem(400, "unrecognizedTask"), 0; }
      if !wellFormed { return ShareProblem(400, "invalidMessage"), 0; }
      var agg: seq<Elt> := [];
      ghost var s, done := store.Contents(), {};
      var jobs, keys := store.JobsForTask(taskID);
      NothingSummed(s, taskID);
      for j := 0 to |jobs|
        invariant forall e :: e in done <==> IsEntry(s, taskID, e) && e.key in keys[..j]
        invariant Summed(s, taskID, done, agg) && n == |done|
      {
        var ok;
        ok, agg, n, done := AddRows(jobs[j].rows, agg, n, taskID, s, keys[j], done);
        if !ok { return ShareProblem(500, "invalidMessage"), n; }
        assert keys[..j + 1] == keys[..j] + [keys[j]];
      }
      assert keys[..|keys|] == keys;
      AllEntries(s, taskID, keys, done, agg);
      if agg == [] { return ShareProblem(400, "invalidMessage"), n; }
      a := Share(agg);
    }

    method HandleGet(taskID: TaskID, jobID: JobID) returns (a: Answer)
      requires env.Valid()
      ensures (Done(a), store.Contents()) == Alone(env, Get(taskID, jobID), store.Contents())
    {
      hide From, Respond;
      var job := store.GetJob(taskID, jobID);
      if job.None? {
        DoneStays(env, Get(taskID, jobID), Problem(404, "invalidMessage"), store.Contents());
        return Problem(404, "invalidMessage");
      }
      a := WriteResp(job.value);
      DoneStays(env, Get(taskID, jobID), a, store.Contents());
    }
  }

  lemma NothingSummed(s: State, t: TaskID)
    ensures Summed(s, t, {}, [])
  {}

  /** Once every stored job of the task is done, all its entries are, and they were all of one length. */
  lemma AllEntries(s: State, t: TaskID, keys: seq<JobKey>, done: set<Entry>, agg: seq<Elt>)
    requires forall k :: k in keys <==> k in s.jobs && k.taskID == t
    requires forall e :: e in done <==> IsEntry(s, t, e) && e.key in keys
    requires Summed(s, t, done, agg)
    ensures done == Entries(s, t)
    ensures agg == [] <==> done == {}
    ensures agg != [] ==> Uniform(s, t) && IsSum(s, t, Share(agg))
  {
    hide Column;
  }

  /** agg is empty while nothing was added, and after that the element-wise sum of the shares in done. */
  ghost predicate Summed(s: State, t: TaskID, done: set<Entry>, agg: seq<Elt>) {
    && (agg == [] <==> done == {})
    && (forall e :: e in done ==> IsEntry(s, t, e) && |ShareOf(s, e)| == |agg|)
    && forall i :: 0 <= i < |agg| ==> agg[i] == Column(s, done, i)
  }

  /** What an aggregate-share request is answered with: a problem, or the sum to be sealed to the Collector. */
  datatype ShareAnswer = ShareProblem(status: nat, name: string) | Share(sum: seq<Elt>)

  /** The answer is the element-wise sum over all committed rows. */
  ghost predicate IsSum(s: State, t: TaskID, a: ShareAnswer) {
    && a.Share?
    && (forall e :: IsEntry(s, t, e) ==> |ShareOf(s, e)| == |a.sum|)
    && forall i :: 0 <= i < |a.sum| ==> a.sum[i] == Column(s, Entries(s, t), i)
  }

  /** When every share is one element, the answer is the total. */
  lemma SumOfUnits(s: State, t: TaskID, a: ShareAnswer)
    requires UnitShares(s, t) && Entries(s, t) != {}
    ensures Uniform(s, t) && (IsSum(s, t, a) <==> a == Share([Total(s, Entries(s, t))]))
  {
    hide Column;
    var e :| e in Entries(s, t);
    assert IsEntry(s, t, e);
  }

  lemma ColumnInsert(s: State, done: set<Entry>, e: Entry, i: nat)
    requires e !in done
    ensures Column(s, done + {e}, i) == Fp.Add(Column(s, done, i), ElementOf(s, e, i))
    ensures Column(s, {}, i) == 0
  {
    hide Fp.Add, ElementOf;
    Sums.SumInsert(done, e => ElementOf(s, e, i), e);
  }

  lemma NoneDone(s: State, t: TaskID, done: set<Entry>)
    requires Summed(s, t, done, [])
    ensures done == {} && forall e :: done + {e} == {e}
  {}

  /** The first row starts the sum. */
  lemma FirstRow(s: State, t: TaskID, e: Entry)
    requires IsEntry(s, t, e)
    ensures Summed(s, t, {e}, ShareOf(s, e))
  {
    hide Column, Fp.Add;
    var share := ShareOf(s, e);
    assert share != [];
    forall i | 0 <= i < |share| ensures Column(s, {e}, i) == share[i] {
      ColumnInsert(s, {}, e, i);
      assert {} + {e} == {e};
      Fp.AddZero(share[i]);
    }
  }

  /** A further row of the same length adds up. */
  lemma NextRow(s: State, t: TaskID, done: set<Entry>, agg: seq<Elt>, e: Entry)
    requires Summed(s, t, done, agg) && e !in done && IsEntry(s, t, e) && |agg| == |ShareOf(s, e)|
    ensures Summed(s, t, done + {e}, VAdd(agg, ShareOf(s, e)))
  {
    hide Column, Fp.Add, IsEntry;
    var share, sum := ShareOf(s, e), VAdd(agg, ShareOf(s, e));
    forall i | 0 <= i < |sum| ensures sum[i] == Column(s, done + {e}, i) { ColumnInsert(s, done, e, i); }
    assert e in done + {e};
    EntryShare(s, t, e);
  }

  lemma EntryShare(s: State, t: TaskID, e: Entry)
    requires IsEntry(s, t, e)
    ensures ShareOf(s, e) != []
  {}

  /** A further row of another length shows that the lengths differ. */
  lemma OddRow(s: State, t: TaskID, done: set<Entry>, agg: seq<Elt>, e: Entry)
    requires Summed(s, t, done, agg) && agg != [] && IsEntry(s, t, e) && |agg| != |ShareOf(s, e)|
    ensures !Uniform(s, t)
  {
    hide Column, IsEntry, ShareOf;
    var d :| d in done;
    assert IsEntry(s, t, d);
  }

  lemma DoneStays(env: Env, r: Request, a: Answer, s: State)
    requires env.Valid()
    ensures From(env, r, Done(a), s) == (Done(a), s)
  {
    hide Step;
    StepDone(env, r, a, s);
  }

  lemma StepDone(env: Env, r: Request, a: Answer, s: State)
    requires env.Valid()
    ensures Step(env, r, Done(a), s) == (Done(a), s)
  {
    hide PostPhase, PutPhase, Respond, Replay, PlannedJob, Claimed;
  }

  lemma FromBuilt(env: Env, r: Request, job: Job, s: State)
    requires env.Valid()
    ensures From(env, r, Built(job), s) ==
      (Done(if s.Accepts(job) then Respond(job) else Replay(s, JobKey(job.taskID, job.jobID), job.hash)), s.PutJob(job))
  {
    hide Step, Replay, Respond;
    var a := if s.Accepts(job) then Respond(job) else Replay(s, JobKey(job.taskID, job.jobID), job.hash);
    StepBuilt(env, r, job, s);
    StepDone(env, r, a, s.PutJob(job));
  }

  lemma StepBuilt(env: Env, r: Request, job: Job, s: State)
    requires env.Valid()
    ensures Step(env, r, Built(job), s) ==
      (if s.Accepts(job) then Done(Respond(job)) else Conflicted(job), s.PutJob(job))
    ensures !s.Accepts(job) ==> s.PutJob(job) == s
    ensures Step(env, r, Conflicted(job), s) == (Done(Replay(s, JobKey(job.taskID, job.jobID), job.hash)), s)
  {
    hide Respond, Replay, PostPhase, PutPhase, PlannedJob, Claimed;
  }

  lemma StepReady(env: Env, r: Request, plan: Plan, s: State)
    requires env.Valid()
    ensures var k := JobKey(plan.task.taskID, plan.jobID);
      Step(env, r, Ready(plan), s) == (if k !in s.jobs then Absent(plan) else Done(Replay(s, k, plan.hash)), s)
    ensures Step(env, r, Absent(plan), s) ==
      (Built(PlannedJob(env, plan, s.claims)), s.ClaimAll(plan.task.taskID, plan.jobID, IDs(plan.req.inits)))
  {
    hide Respond, Replay, InitJob, Claimed, PostPhase, PutPhase, PlannedJob;
  }

  /** Creation from the plan on: replay what is stored, or claim and store what is built. */
  lemma FromReady(env: Env, r: Request, plan: Plan, s: State)
    requires env.Valid()
    ensures var k := JobKey(plan.task.taskID, plan.jobID);
      From(env, r, Ready(plan), s) ==
        if k in s.jobs then (Done(Replay(s, k, plan.hash)), s)
        else
          var job := PlannedJob(env, plan, s.claims);
          (Done(Respond(job)), s.ClaimAll(plan.task.taskID, plan.jobID, IDs(plan.req.inits)).PutJob(job))
  {
    hide Step, Respond, Replay, Claimed;
    var k, job := JobKey(plan.task.taskID, plan.jobID), PlannedJob(env, plan, s.claims);
    var s1 := s.ClaimAll(plan.task.taskID, plan.jobID, IDs(plan.req.inits));
    StepReady(env, r, plan, s);
    if k in s.jobs {
      StepDone(env, r, Replay(s, k, plan.hash), s);
    } else {
      StepBuilt(env, r, job, s1);
      StepDone(env, r, Respond(job), s1.PutJob(job));
    }
  }
}
