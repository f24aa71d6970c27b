/** The Helper's store: registered tasks, stored jobs, and which job first claimed each report. */
module Store {
  import opened Bytes
  import opened Wire
  import opened Messages
  import opened HelperJobs
  import opened Jobs

  datatype JobKey = JobKey(taskID: TaskID, jobID: JobID)
  datatype ReportKey = ReportKey(taskID: TaskID, reportID: ReportID)

  type Claims = map<ReportKey, JobID>

  /** The store's contents at one moment. */
  datatype State = State(tasks: map<TaskID, Task>, jobs: map<JobKey, Job>, claims: Claims) {
    function GetTask(t: TaskID): Option<Task> { if t in tasks then Some(tasks[t]) else None }

    function GetJob(k: JobKey): Option<Job> { if k in jobs then Some(jobs[k]) else None }

    function AddTask(task: Task): State { this.(tasks := tasks[task.taskID := task]) }

    function DeleteJob(k: JobKey): State { this.(jobs := jobs - {k}) }

    /** Whether PutJob succeeds: no job is stored under the key, or one with the same request hash is. */
    predicate Accepts(job: Job) {
      var k := JobKey(job.taskID, job.jobID);
      k in jobs ==> jobs[k].hash == job.hash
    }

    /** A stored job is never overwritten. */
    function PutJob(job: Job): State {
      var k := JobKey(job.taskID, job.jobID);
      if k in jobs then this else this.(jobs := jobs[k := job])
    }

    function ClaimAll(t: TaskID, j: JobID, ids: seq<ReportID>): State { this.(claims := Claimed(claims, t, j, ids)) }
  }

  predicate Foreign(claims: Claims, t: TaskID, j: JobID, id: ReportID) {
    var k := ReportKey(t, id);
    k in claims && claims[k] != j
  }

  /** First come, first served: existing claims stay, unclaimed reports go to job j. */
  function Claimed(claims: Claims, t: TaskID, j: JobID, ids: seq<ReportID>): Claims {
    map k | k in claims.Keys + set id | id in ids :: ReportKey(t, id) :: if k in claims then claims[k] else j
  }

  /** Later claims keep every earlier one. */
  ghost predicate Extends(before: Claims, after: Claims) {
    forall k :: k in before ==> k in after && after[k] == before[k]
  }

  /** The reports among ids that another job of the task holds. */
  function Replayed(claims: Claims, t: TaskID, j: JobID, ids: seq<ReportID>): set<ReportID> {
    set id | id in ids && Foreign(claims, t, j, id)
  }

  class MemStore {
    var tasks: map<TaskID, Task>
    var jobs: map<JobKey, Job>
    var claims: Claims

    function Contents(): State
      reads this
    {
      State(tasks, jobs, claims)
    }

    constructor (initial: seq<Task>)
      ensures Contents().jobs == map[] && Contents().claims == map[]
      ensures forall t :: t in Contents().tasks <==> exists i :: 0 <= i < |initial| && initial[i].taskID == t
      ensures forall t :: t in Contents().tasks ==> Contents().tasks[t] in initial && Contents().tasks[t].taskID == t
    {
      jobs := map[];
      claims := map[];
      var registered: map<TaskID, Task> := map[];
      for i := 0 to |initial|
        invariant forall t :: t in registered <==> exists j :: 0 <= j < i && initial[j].taskID == t
        invariant forall t :: t in registered ==> registered[t] in initial && registered[t].taskID == t
      {
        registered := registered[initial[i].taskID := initial[i]];
      }
      tasks := registered;
    }

    method AddTask(task: Task)
      modifies this
      ensures Contents() == old(Contents()).AddTask(task)
      ensures tasks == old(tasks)[task.taskID := task] && jobs == old(jobs) && claims == old(claims)
    {
      tasks := tasks[task.taskID := task];
    }

    method GetTask(t: TaskID) returns (r: Option<Task>)
      ensures r == Contents().GetTask(t)
      ensures if t in tasks then r == Some(tasks[t]) else r == None
    {
      if t in tasks { return Some(tasks[t]); }
      r := None;
    }

    method GetJob(t: TaskID, j: JobID) returns (r: Option<Job>)
      ensures r == Contents().GetJob(JobKey(t, j))
      ensures if JobKey(t, j) in jobs then r == Some(jobs[JobKey(t, j)]) else r == None
    {
      if JobKey(t, j) in jobs { return Some(jobs[JobKey(t, j)]); }
      r := None;
    }

    /** The stored jobs of a task, each once, in whatever order the map yields them. */
    method JobsForTask(t: TaskID) returns (out: seq<Job>, ghost keys: seq<JobKey>)
      ensures forall job :: job in out <==> exists k :: k in jobs && k.taskID == t && jobs[k] == job
      ensures |out| == |keys| && forall i, j :: 0 <= i < j < |keys| ==> keys[i] != keys[j]
      ensures forall k :: k in keys <==> k in jobs && k.taskID == t
      ensures forall i :: 0 <= i < |keys| ==> keys[i] in jobs && out[i] == jobs[keys[i]]
    {
      out, keys := [], [];
      var pending := jobs.Keys;
      while pending != {}
        invariant pending <= jobs.Keys && |out| == |keys|
        invariant forall i, j :: 0 <= i < j < |keys| ==> keys[i] != keys[j]
        invariant forall k :: k in keys <==> k in jobs && k !in pending && k.taskID == t
        invariant forall i :: 0 <= i < |keys| ==> keys[i] in jobs && out[i] == jobs[keys[i]]
        decreases |pending|
      {
        var k :| k in pending;
        pending := pending - {k};
        if k.taskID == t {
          out := out + [jobs[k]];
          keys := keys + [k];
        }
      }
    }

    method PutJob(job: Job) returns (ok: bool)
      modifies this
      ensures ok == old(Contents()).Accepts(job)
      ensures Contents() == old(Contents()).PutJob(job)
      ensures tasks == old(tasks) && claims == old(claims)
      ensures var k := JobKey(job.taskID, job.jobID);
        if k in old(jobs) then jobs == old(jobs) && ok == (old(jobs)[k].hash == job.hash)
        else jobs == old(jobs)[k := job] && ok
    {
      var k := JobKey(job.taskID, job.jobID);
      if k in jobs {
        return jobs[k].hash == job.hash;
      }
      jobs := jobs[k := job];
      ok := true;
    }

    /** Claims the unclaimed reports for job j; returns those another job already holds. */
    method ClaimReportIDs(t: TaskID, j: JobID, ids: seq<ReportID>) returns (replayed: seq<ReportID>)
      modifies this
      ensures Contents() == old(Contents()).ClaimAll(t, j, ids)
      ensures forall id :: id in replayed <==> id in Replayed(old(claims), t, j, ids)
      ensures tasks == old(tasks) && jobs == old(jobs)
      ensures forall k :: k in claims <==> k in old(claims) || (k.taskID == t && k.reportID in ids)
      ensures forall k :: k in claims ==> claims[k] == if k in old(claims) then old(claims)[k] else j
      ensures forall id :: id in replayed <==>
        id in ids && ReportKey(t, id) in old(claims) && old(claims)[ReportKey(t, id)] != j
    {
      hide Claimed;
      replayed := [];
      NothingClaimed(claims, t, j);
      assert ids[..0] == [];
      for i := 0 to |ids|
        invariant tasks == old(tasks) && jobs == old(jobs)
        invariant claims == Claimed(old(claims), t, j, ids[..i])
        invariant forall id :: id in replayed <==> id in Replayed(old(claims), t, j, ids[..i])
      {
        var k := ReportKey(t, ids[i]);
        ClaimOne(old(claims), t, j, ids, i);
        if k !in claims {
          claims := claims[k := j];
        } else if claims[k] != j {
          replayed := replayed + [ids[i]];
        }
      }
      assert ids[..|ids|] == ids;
      forall k
        ensures k in claims <==> k in old(claims) || (k.taskID == t && k.reportID in ids)
        ensures k in claims ==> claims[k] == if k in old(claims) then old(claims)[k] else j
      {
        ClaimedAt(old(claims), t, j, ids, k);
      }
    }

    method DeleteJob(t: TaskID, j: JobID)
      modifies this
      ensures Contents() == old(Contents()).DeleteJob(JobKey(t, j))
      ensures tasks == old(tasks) && claims == old(claims)
      ensures forall k :: k in jobs <==> k in old(jobs) && k != JobKey(t, j)
      ensures forall k :: k in jobs ==> jobs[k] == old(jobs)[k]
    {
      jobs := jobs - {JobKey(t, j)};
    }
  }

  lemma NothingClaimed(claims: Claims, t: TaskID, j: JobID)
    ensures Claimed(claims, t, j, []) == claims
  {}

  lemma ClaimedAt(claims: Claims, t: TaskID, j: JobID, ids: seq<ReportID>, k: ReportKey)
    ensures k in Claimed(claims, t, j, ids) <==> k in claims || (k.taskID == t && k.reportID in ids)
    ensures k in Claimed(claims, t, j, ids) ==> Claimed(claims, t, j, ids)[k] == if k in claims then claims[k] else j
  {
    if k.taskID == t && k.reportID in ids { assert k == ReportKey(t, k.reportID); }
  }

  /** One step of claiming, against the claims before and after it. */
  lemma ClaimOne(before: Claims, t: TaskID, j: JobID, ids: seq<ReportID>, i: nat)
    requires i < |ids|
    ensures var now := Claimed(before, t, j, ids[..i]); var k := ReportKey(t, ids[i]);
      && Claimed(before, t, j, ids[..i + 1]) == (if k in now then now else now[k := j])
      && (k in now && now[k] != j <==> Foreign(before, t, j, ids[i]))
      && forall id :: id in Replayed(before, t, j, ids[..i + 1]) <==>
           id in Replayed(before, t, j, ids[..i]) || (id == ids[i] && Foreign(before, t, j, id))
  {
    hide Claimed;
    assert ids[..i + 1] == ids[..i] + [ids[i]];
    var now, next, k := Claimed(before, t, j, ids[..i]), Claimed(before, t, j, ids[..i + 1]), ReportKey(t, ids[i]);
    var want := if k in now then now else now[k := j];
    ClaimedAt(before, t, j, ids[..i], k);
    forall q ensures (q in next <==> q in want) && (q in next ==> next[q] == want[q]) {
      ClaimedAt(before, t, j, ids[..i], q);
      ClaimedAt(before, t, j, ids[..i + 1], q);
    }
    assert next.Keys == want.Keys;
  }

  /** What claiming guarantees: nothing already claimed moves, everything asked for ends up claimed,
      and the foreign reports are the same judged by the claims before or after, or by any later claims. */
  lemma ClaimingIsStable(before: Claims, t: TaskID, j: JobID, ids: seq<ReportID>, later: Claims)
    requires Extends(Claimed(before, t, j, ids), later)
    ensures Extends(before, later)
    ensures forall id :: id in ids ==> ReportKey(t, id) in later
    ensures Replayed(later, t, j, ids) == Replayed(before, t, j, ids)
  {
    hide Claimed;
    forall k ensures (k in before ==> k in later && later[k] == before[k])
      && (k.taskID == t && k.reportID in ids ==> k in later && later[k] == if k in before then before[k] else j)
    {
      ClaimedAt(before, t, j, ids, k);
    }
    forall id | id in ids
      ensures ReportKey(t, id) in later && (Foreign(later, t, j, id) <==> Foreign(before, t, j, id))
    {
      assert ReportKey(t, id).reportID in ids;
    }
  }
}
