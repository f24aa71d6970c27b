/** Aggregation-job records: how the Helper builds them and what it answers with. */
module Jobs {
  import opened Bytes
  import opened Wire
  import opened Messages
  import opened HelperJobs
  import opened Flp
  import opened Poly
  import Prio3

  datatype Row = Row(
    reportID: ReportID, ord: nat, finished: bool, outShare: seq<Elt>, resp: VerifyResp, error: ReportError)

  datatype Job = Job(
    taskID: TaskID, jobID: JobID, aggParam: seq<byte>, rows: seq<Row>,
    variant: Variant, resps: seq<VerifyResp>, hash: Hash)

  /** The framed finish message; the verifier message of Count is empty. */
  function FinishMessage(): seq<byte> { PingPong(PING_PONG_FINISH, [], []).Bytes() }

  function RowFor(id: ReportID, ord: nat, o: Outcome): Row {
    match o
    case Rejected(e) => Row(id, ord, false, [], VerifyResp(id, RESP_REJECT, [], e), e)
    case Finished(out) => Row(id, ord, true, out, VerifyResp(id, RESP_CONTINUE, FinishMessage(), Reserved), Reserved)
  }

  function IDs(inits: seq<VerifyInit>): (ids: seq<ReportID>)
    ensures |ids| == |inits| && forall i :: 0 <= i < |ids| ==> ids[i] == inits[i].share.metadata.reportID
  {
    seq(|inits|, i requires 0 <= i < |inits| => inits[i].share.metadata.reportID)
  }

  /** The outcome of report i of a job: a replayed report is rejected unopened. */
  ghost function InitOutcome(env: Env, task: Task, key: Hash, v: Variant, vi: VerifyInit,
      replayed: set<ReportID>): Outcome
    requires env.Valid()
  {
    if vi.share.metadata.reportID in replayed then Rejected(ReportReplayed)
    else ReportOutcome(env, task, key, v, vi)
  }

  /** The job has one row per report, in request order, and echoes each row's answer. */
  ghost predicate Answers(job: Job, inits: seq<VerifyInit>, outcomes: seq<Outcome>) {
    && |job.rows| == |job.resps| == |inits| == |outcomes|
    && (forall i :: 0 <= i < |inits| ==> job.rows[i] == RowFor(inits[i].share.metadata.reportID, i, outcomes[i]))
    && (forall i :: 0 <= i < |inits| ==> job.resps[i] == job.rows[i].resp)
  }

  ghost function InitOutcomes(env: Env, task: Task, key: Hash, v: Variant, inits: seq<VerifyInit>,
      replayed: set<ReportID>): (os: seq<Outcome>)
    requires env.Valid()
    ensures |os| == |inits|
    ensures forall i :: 0 <= i < |os| ==> os[i] == InitOutcome(env, task, key, v, inits[i], replayed)
  {
    seq(|inits|, i requires 0 <= i < |inits| => InitOutcome(env, task, key, v, inits[i], replayed))
  }

  /** Row by row, what the job records is what the Leader is told: a committed row is answered continue with the
      framed finish message, any other row is answered reject with the row's error. */
  ghost predicate Paired(job: Job) {
    && |job.resps| == |job.rows|
    && forall i :: 0 <= i < |job.rows| ==> PairedRow(job.rows[i], i, job.resps[i])
  }

  ghost predicate PairedRow(row: Row, i: nat, resp: VerifyResp) {
    && row.ord == i && row.resp == resp && resp.reportID == row.reportID
    && (row.finished <==> resp.kind == RESP_CONTINUE)
    && (row.finished ==> PingPong.Parse(resp.payload) == Some(PingPong(PING_PONG_FINISH, [], [])))
    && (!row.finished ==> resp.kind == RESP_REJECT && resp.error == row.error && row.outShare == [])
  }

  lemma RowPaired(id: ReportID, i: nat, o: Outcome)
    ensures var row := RowFor(id, i, o);
      && PairedRow(row, i, row.resp) && row.reportID == id
      && (row.finished <==> o.Finished?)
      && (o.Finished? ==> row.outShare == o.outShare) && (o.Rejected? ==> row.error == o.error)
  {
    hide PingPong.Parse, FinishMessage;
    FinishMessageBytes();
  }

  lemma AnswersPaired(job: Job, inits: seq<VerifyInit>, outcomes: seq<Outcome>)
    requires Answers(job, inits, outcomes)
    ensures Paired(job)
  {
    hide PairedRow, RowFor;
    forall i | 0 <= i < |job.rows| ensures PairedRow(job.rows[i], i, job.resps[i]) {
      RowPaired(inits[i].share.metadata.reportID, i, outcomes[i]);
    }
  }

  /** The record a list of outcomes makes. */
  ghost function JobFrom(task: Task, v: Variant, jobID: JobID, req: InitReq, hash: Hash,
      outcomes: seq<Outcome>): (job: Job)
    requires |outcomes| == |req.inits|
    ensures Answers(job, req.inits, outcomes)
  {
    var rows := seq(|outcomes|, i requires 0 <= i < |outcomes| =>
      RowFor(req.inits[i].share.metadata.reportID, i, outcomes[i]));
    Job(task.taskID, jobID, req.aggParam, rows, v, seq(|rows|, i requires 0 <= i < |rows| => rows[i].resp), hash)
  }

  ghost function InitJob(env: Env, task: Task, key: Hash, v: Variant, jobID: JobID, req: InitReq, hash: Hash,
      replayed: set<ReportID>): (job: Job)
    requires env.Valid()
    ensures job.taskID == task.taskID && job.jobID == jobID && job.hash == hash && job.variant == v
    ensures |job.rows| == |req.inits|
  {
    JobFrom(task, v, jobID, req, hash, InitOutcomes(env, task, key, v, req.inits, replayed))
  }

  ghost function RejectAllJob(task: Task, jobID: JobID, req: InitReq, hash: Hash, e: ReportError): (job: Job)
    ensures job.taskID == task.taskID && job.jobID == jobID && job.hash == hash && job.variant == task.variant
    ensures |job.rows| == |req.inits|
  {
    JobFrom(task, task.variant, jobID, req, hash, seq(|req.inits|, i => Rejected(e)))
  }

  /** Two jobs with the same header and the same answers are the same job. */
  lemma SameJob(a: Job, b: Job, inits: seq<VerifyInit>, outcomes: seq<Outcome>)
    requires Answers(a, inits, outcomes) && Answers(b, inits, outcomes)
    requires a.taskID == b.taskID && a.jobID == b.jobID && a.aggParam == b.aggParam && a.variant == b.variant
      && a.hash == b.hash
    ensures a == b
  {
    hide RowFor;
    assert a.rows == b.rows;
    assert a.resps == b.resps;
  }

  method BuildInitJob(env: Env, task: Task, key: Hash, v: Variant, jobID: JobID, req: InitReq, hash: Hash,
      replayed: set<ReportID>)
    returns (job: Job)
    requires env.Valid()
    ensures job == InitJob(env, task, key, v, jobID, req, hash, replayed)
    ensures Paired(job) && |job.rows| == |req.inits|
    ensures forall i :: 0 <= i < |req.inits| ==>
      InitRow(env, task, key, v, req.inits[i], replayed, job.rows[i])
  {
    hide ReportOutcome, FinishMessage, Paired, InitRow;
    var rows: seq<Row>, resps: seq<VerifyResp> := [], [];
    ghost var outcomes := InitOutcomes(env, task, key, v, req.inits, replayed);
    for i := 0 to |req.inits|
      invariant |rows| == |resps| == i
      invariant forall j :: 0 <= j < i ==> rows[j] == RowFor(req.inits[j].share.metadata.reportID, j, outcomes[j])
      invariant forall j :: 0 <= j < i ==> resps[j] == rows[j].resp
    {
      var id := req.inits[i].share.metadata.reportID;
      var row;
      if id in replayed {
        row := Row(id, i, false, [], VerifyResp(id, RESP_REJECT, [], ReportReplayed), ReportReplayed);
      } else {
        var o := AggregateInit(env, task, key, v, req.inits[i]);
        row := RowFor(id, i, o);
      }
      rows := rows + [row];
      resps := resps + [row.resp];
    }
    job := Job(task.taskID, jobID, req.aggParam, rows, v, resps, hash);
    SameJob(job, InitJob(env, task, key, v, jobID, req, hash, replayed), req.inits, outcomes);
    InitJobRows(env, task, key, v, jobID, req, hash, replayed);
  }

  /** The row of one report: committed with its output share exactly when it is no replay and its outcome is finished;
      failed as a replay, or with the outcome's error, otherwise. */
  ghost predicate InitRow(env: Env, task: Task, key: Hash, v: Variant, vi: VerifyInit, replayed: set<ReportID>,
      row: Row)
    requires env.Valid()
  {
    var id, o := vi.share.metadata.reportID, ReportOutcome(env, task, key, v, vi);
    && row.reportID == id
    && (row.finished <==> id !in replayed && o.Finished?)
    && (row.finished ==> row.outShare == o.outShare)
    && (!row.finished ==> row.error == if id in replayed then ReportReplayed else o.error)
  }

  lemma InitJobRows(env: Env, task: Task, key: Hash, v: Variant, jobID: JobID, req: InitReq, hash: Hash,
      replayed: set<ReportID>)
    requires env.Valid()
    ensures var job := InitJob(env, task, key, v, jobID, req, hash, replayed);
      && Paired(job) && |job.rows| == |req.inits|
      && forall i :: 0 <= i < |req.inits| ==> InitRow(env, task, key, v, req.inits[i], replayed, job.rows[i])
  {
    hide ReportOutcome, RowFor, Paired;
    var job := InitJob(env, task, key, v, jobID, req, hash, replayed);
    var outcomes := InitOutcomes(env, task, key, v, req.inits, replayed);
    AnswersPaired(job, req.inits, outcomes);
    forall i | 0 <= i < |req.inits| ensures InitRow(env, task, key, v, req.inits[i], replayed, job.rows[i]) {
      RowPaired(req.inits[i].share.metadata.reportID, i, outcomes[i]);
    }
  }

  method BuildRejectAllJob(task: Task, jobID: JobID, req: InitReq, hash: Hash, e: ReportError) returns (job: Job)
    ensures job == RejectAllJob(task, jobID, req, hash, e)
    ensures Paired(job) && |job.rows| == |req.inits|
    ensures forall i :: 0 <= i < |req.inits| ==>
      job.rows[i].reportID == req.inits[i].share.metadata.reportID && !job.rows[i].finished && job.rows[i].error == e
  {
    hide Paired;
    var rows: seq<Row>, resps: seq<VerifyResp> := [], [];
    for i := 0 to |req.inits|
      invariant |rows| == |resps| == i
      invariant forall j :: 0 <= j < i ==> rows[j] == RowFor(req.inits[j].share.metadata.reportID, j, Rejected(e))
      invariant forall j :: 0 <= j < i ==> resps[j] == rows[j].resp
    {
      var id := req.inits[i].share.metadata.reportID;
      var resp := VerifyResp(id, RESP_REJECT, [], e);
      rows := rows + [Row(id, i, false, [], resp, e)];
      resps := resps + [resp];
    }
    job := Job(task.taskID, jobID, req.aggParam, rows, task.variant, resps, hash);
    SameJob(job, RejectAllJob(task, jobID, req, hash, e), req.inits, seq(|req.inits|, i => Rejected(e)));
    RejectAllRows(task, jobID, req, hash, e);
  }

  lemma RejectAllRows(task: Task, jobID: JobID, req: InitReq, hash: Hash, e: ReportError)
    ensures var job := RejectAllJob(task, jobID, req, hash, e);
      && Paired(job) && |job.rows| == |req.inits|
      && forall i :: 0 <= i < |req.inits| ==>
        job.rows[i].reportID == req.inits[i].share.metadata.reportID && !job.rows[i].finished && job.rows[i].error == e
  {
    hide Paired;
    AnswersPaired(RejectAllJob(task, jobID, req, hash, e), req.inits, seq(|req.inits|, i => Rejected(e)));
  }

  // ---------- the response always encodes ----------

  /** Errors the Helper may put in a row of a job of variant v. */
  predicate Usable(e: ReportError, v: Variant) {
    || e in {HpkeUnknownConfigID, HpkeDecryptError, InvalidMessage, VdafVerifyError, ReportReplayed}
    || (e == UnknownVerificationKeyID && AfterDraft18(v))
  }

  lemma UsableEncodes(e: ReportError, v: Variant)
    requires Usable(e, v)
    ensures ErrorToWire(e, v).Some?
  {}

  lemma FinishMessageBytes()
    ensures |FinishMessage()| == 5
    ensures PingPong.Parse(FinishMessage()) == Some(PingPong(PING_PONG_FINISH, [], []))
  {
    Limits();
    PingPong(PING_PONG_FINISH, [], []).Trip();
  }

  lemma OutcomeUsable(env: Env, task: Task, key: Hash, v: Variant, vi: VerifyInit, replayed: set<ReportID>)
    requires env.Valid()
    ensures var o := InitOutcome(env, task, key, v, vi, replayed);
      o.Rejected? ==> Usable(o.error, v) && (o.error == ReportReplayed <==> vi.share.metadata.reportID in replayed)
  {
    hide Combine, Opened, PlaintextInputShare.Parse, PingPong.Parse, VerifierFrom;
    var c := env.Vdaf(task.vdafContext);
    if Opened(env, task, v, vi).Some? {
      OpenedUsable(c, key, vi, Opened(env, task, v, vi).value);
    }
  }

  lemma OpenedUsable(c: Prio3.Count, key: Hash, vi: VerifyInit, plaintext: seq<byte>)
    requires c.Valid()
    ensures var o := OpenedOutcome(c, key, vi, plaintext); o.Rejected? ==>
      o.error == InvalidMessage || o.error == VdafVerifyError
  {
    hide PlaintextInputShare.Parse, PingPong.Parse, VerifierFrom, Decide, Verifier, VAdd;
  }

  /** A row's answer takes at most 26 bytes and a report's init at least 44, so a Janus prefix never overflows. */
  lemma {:induction false} RespsShorter(v: Variant, rs: seq<VerifyResp>)
    requires forall r :: r in rs ==> r.WellFormed(v) && |r.payload| <= 5
    ensures AllEncode(v, rs) && |PutResps(v, rs)| <= 26 * |rs|
  {
    hide ErrorToWire, Limit;
    if |rs| > 0 { RespsShorter(v, rs[1..]); }
  }

  lemma {:induction false} InitsLonger(vs: seq<VerifyInit>)
    ensures 26 * |vs| <= |PutInits(vs)|
  {
    hide PutExtensions;
    if |vs| > 0 { InitsLonger(vs[1..]); }
  }

  /** Any list of usable outcomes makes a response that encodes under the job's variant and decodes to itself. */
  lemma ResponseEncodes(job: Job, req: InitReq, outcomes: seq<Outcome>)
    requires Answers(job, req.inits, outcomes) && req.WellFormed(job.variant)
    requires forall o :: o in outcomes && o.Rejected? ==> Usable(o.error, job.variant)
    ensures JobResp(job.resps).WellFormed(job.variant)
  {
    hide Usable, ErrorToWire, PutResps, PutInits, FinishMessage, Limit;
    Limits();
    FinishMessageBytes();
    forall r | r in job.resps ensures r.WellFormed(job.variant) && |r.payload| <= 5 {
      var i :| 0 <= i < |job.resps| && job.resps[i] == r;
      assert outcomes[i] in outcomes;
      if outcomes[i].Rejected? { UsableEncodes(outcomes[i].error, job.variant); }
    }
    RespsShorter(job.variant, job.resps);
    InitsLonger(req.inits);
  }

  lemma InitJobEncodes(env: Env, task: Task, key: Hash, v: Variant, jobID: JobID, req: InitReq, hash: Hash,
      replayed: set<ReportID>)
    requires env.Valid() && req.WellFormed(v)
    ensures JobResp(InitJob(env, task, key, v, jobID, req, hash, replayed).resps).WellFormed(v)
  {
    hide RowFor, Usable, InitOutcome;
    var outcomes := InitOutcomes(env, task, key, v, req.inits, replayed);
    forall o | o in outcomes && o.Rejected? ensures Usable(o.error, v) {
      var i :| 0 <= i < |outcomes| && outcomes[i] == o;
      OutcomeUsable(env, task, key, v, req.inits[i], replayed);
    }
    ResponseEncodes(InitJob(env, task, key, v, jobID, req, hash, replayed), req, outcomes);
  }

  lemma RejectAllJobEncodes(task: Task, jobID: JobID, req: InitReq, hash: Hash)
    requires AfterDraft18(task.variant) && req.WellFormed(task.variant)
    ensures JobResp(RejectAllJob(task, jobID, req, hash, UnknownVerificationKeyID).resps).WellFormed(task.variant)
  {
    var outcomes := seq(|req.inits|, i => Rejected(UnknownVerificationKeyID));
    ResponseEncodes(RejectAllJob(task, jobID, req, hash, UnknownVerificationKeyID), req, outcomes);
  }
}
