/** internal/jobs/jobs.go: the jobs table, the statements that change it, and the store in front of it. */
module Jobs {
  import opened Wrappers
  import opened TextOrder
  import opened Observability
  import Audit
  import Timestamps

  datatype Status = Queued | Approved | Rejected | Running | Completed | Failed | NotImplemented

  function StatusText(status: Status): string
  {
    match status
    case Queued => "queued"
    case Approved => "approved"
    case Rejected => "rejected"
    case Running => "running"
    case Completed => "completed"
    case Failed => "failed"
    case NotImplemented => "not_implemented"
  }

  datatype Job = Job(createdAt: string, createdBy: Option<int>, action: string, target: string, requestId: string,
                     status: Status, statusReason: string,
                     approvedBy: Option<int>, approvedAt: Option<string>,
                     rejectedBy: Option<int>, rejectedAt: Option<string>, decisionReason: string,
                     startedAt: Option<string>)

  /** Rows by primary key. */
  type Table = map<string, Job>

  datatype Row = Row(id: string, job: Job)

  datatype JobError = JobNotFound | InvalidJobTransition | NoApprovedJobs | DuplicateId

  function NewQueuedJob(createdBy: Option<int>, action: string, target: string, requestId: string, createdAt: string): Job
  {
    Job(createdAt, createdBy, action, target, requestId, Queued, "pending_approval",
        None, None, None, None, "", None)
  }

  // ---------------------------------------------------------------- statements

  /** UPDATE jobs SET approved ... WHERE id = ? AND status = 'queued' */
  function ApproveStatement(t: Table, id: string, decider: int, at: string, reason: string): Table
  {
    if id in t && t[id].status == Queued
    then t[id := t[id].(status := Approved, statusReason := "approved",
                        approvedBy := Some(decider), approvedAt := Some(at), decisionReason := reason)]
    else t
  }

  function RejectStatement(t: Table, id: string, decider: int, at: string, reason: string): Table
  {
    if id in t && t[id].status == Queued
    then t[id := t[id].(status := Rejected, statusReason := "rejected",
                        rejectedBy := Some(decider), rejectedAt := Some(at), decisionReason := reason)]
    else t
  }

  /** UPDATE jobs SET status = ?, status_reason = ? WHERE id = ? AND status = 'running' */
  function FinishStatement(t: Table, id: string, status: Status, reason: string): Table
  {
    if id in t && t[id].status == Running then t[id := t[id].(status := status, statusReason := reason)] else t
  }

  /** The one statement that takes the first approved row, if there is one, and starts it. */
  ghost function ClaimStatement(t: Table, at: string): Table
  {
    match NextApproved(t)
    case None => t
    case Some(id) => t[id := t[id].(status := Running, statusReason := "running", startedAt := Some(at))]
  }

  // ---------------------------------------------------------------- order

  /** ORDER BY created_at, id */
  predicate Older(t: Table, a: string, b: string)
    requires a in t && b in t
  {
    Less(t[a].createdAt, t[b].createdAt) || (t[a].createdAt == t[b].createdAt && Less(a, b))
  }

  lemma OlderIsTotal(t: Table, a: string, b: string)
    requires a in t && b in t
    ensures Older(t, a, b) || a == b || Older(t, b, a)
    ensures !(Older(t, a, b) && Older(t, b, a))
    ensures !Older(t, a, a)
  {
    Trichotomy(t[a].createdAt, t[b].createdAt);
    Trichotomy(a, b);
    Trichotomy(t[a].createdAt, t[a].createdAt);
    Trichotomy(a, a);
  }

  lemma OlderIsTransitive(t: Table, a: string, b: string, c: string)
    requires a in t && b in t && c in t && Older(t, a, b) && Older(t, b, c)
    ensures Older(t, a, c)
  {
    if Less(t[a].createdAt, t[b].createdAt) && Less(t[b].createdAt, t[c].createdAt) {
      Transitive(t[a].createdAt, t[b].createdAt, t[c].createdAt);
    }
    if Less(a, b) && Less(b, c) {
      Transitive(a, b, c);
    }
  }

  predicate IsOldestOf(t: Table, ids: set<string>, id: string)
    requires ids <= t.Keys
  {
    id in ids && forall other | other in ids && other != id :: Older(t, id, other)
  }

  lemma {:induction false} OldestExists(t: Table, ids: set<string>) returns (id: string)
    requires ids <= t.Keys && ids != {}
    ensures IsOldestOf(t, ids, id)
    decreases ids
  {
    id :| id in ids;
    if ids != {id} {
      var best := OldestExists(t, ids - {id});
      OlderIsTotal(t, id, best);
      if Older(t, best, id) {
        id := best;
      } else {
        forall other | other in ids && other != id ensures Older(t, id, other) {
          if other != best {
            OlderIsTransitive(t, id, best, other);
          }
        }
      }
    }
  }

  lemma OldestIsUnique(t: Table, ids: set<string>, a: string, b: string)
    requires ids <= t.Keys && IsOldestOf(t, ids, a) && IsOldestOf(t, ids, b)
    ensures a == b
  {
    OlderIsTotal(t, a, b);
  }

  function WithStatus(t: Table, status: Status): set<string>
  {
    set id | id in t && t[id].status == status
  }

  /** The job the claim statement takes. */
  ghost function NextApproved(t: Table): (next: Option<string>)
    ensures next == None <==> WithStatus(t, Approved) == {}
    ensures next.Some? ==> IsOldestOf(t, WithStatus(t, Approved), next.value)
  {
    if WithStatus(t, Approved) == {} then None
    else
      assert exists id :: IsOldestOf(t, WithStatus(t, Approved), id) by {
        var id := OldestExists(t, WithStatus(t, Approved));
      }
      var id :| IsOldestOf(t, WithStatus(t, Approved), id);
      Some(id)
  }

  // ---------------------------------------------------------------- listing

  /** ORDER BY created_at DESC, id DESC over the listed rows, each of them once. */
  predicate NewestFirst(t: Table, ids: seq<string>)
  {
    (forall i | 0 <= i < |ids| :: ids[i] in t) &&
    forall i, j | 0 <= i < j < |ids| :: Older(t, ids[j], ids[i])
  }

  predicate IsListing(t: Table, ids: seq<string>)
  {
    NewestFirst(t, ids) && forall id | id in t :: id in ids
  }

  lemma EntriesAreDistinct(t: Table, ids: seq<string>)
    requires NewestFirst(t, ids)
    ensures forall i, j | 0 <= i < j < |ids| :: ids[i] != ids[j]
  {
    forall i, j | 0 <= i < j < |ids| ensures ids[i] != ids[j] {
      OlderIsTotal(t, ids[j], ids[i]);
    }
  }

  predicate NewerThanRest(t: Table, ids: seq<string>)
    requires NewestFirst(t, ids)
  {
    forall i, other | 0 <= i < |ids| && other in t && other !in ids :: Older(t, other, ids[i])
  }

  lemma BeginningIsNewer(t: Table, ids: seq<string>)
    requires |ids| > 0 && NewestFirst(t, ids) && NewerThanRest(t, ids)
    ensures NewestFirst(t, ids[..|ids| - 1]) && NewerThanRest(t, ids[..|ids| - 1])
  {
    hide Older;
    var n := |ids| - 1;
    var rest := ids[..n];
    forall i, other | 0 <= i < n && other in t && other !in rest ensures Older(t, other, rest[i]) {
      assert ids == rest + [ids[n]];
      assert other == ids[n] || other !in ids;
      assert Older(t, ids[n], ids[i]);
    }
  }

  /** A newest-first list whose entries are all newer than the rows it leaves out is a beginning of the full listing. */
  lemma {:induction false} NewestFirstPrefix(t: Table, ids: seq<string>, listing: seq<string>)
    requires NewestFirst(t, ids) && IsListing(t, listing) && NewerThanRest(t, ids)
    ensures ids <= listing
  {
    if |ids| > 0 {
      var n := |ids| - 1;
      BeginningIsNewer(t, ids);
      NewestFirstPrefix(t, ids[..n], listing);
      NextEntryAgrees(t, ids, listing);
      hide NewestFirst;
      hide Older;
      assert ids == ids[..n] + [ids[n]] && listing[..n + 1] == listing[..n] + [listing[n]];
    }
  }

  lemma NextEntryAgrees(t: Table, ids: seq<string>, listing: seq<string>)
    requires |ids| > 0 && NewestFirst(t, ids) && IsListing(t, listing) && ids[..|ids| - 1] <= listing
    requires forall other | other in t && other !in ids :: Older(t, other, ids[|ids| - 1])
    ensures |ids| <= |listing| && listing[|ids| - 1] == ids[|ids| - 1]
  {
    var n := |ids| - 1;
    var x := ids[n];
    EntriesAreDistinct(t, ids);
    EntriesAreDistinct(t, listing);
    assert forall i | 0 <= i < n :: listing[i] == ids[..n][i] == ids[i];
    var k := PositionIn(listing, x);
    var first := listing[n];
    OlderIsTotal(t, x, first);
    assert forall i | 0 <= i < n :: ids[i] != first;
    assert first != x ==> first !in ids;
  }

  lemma PositionIn(s: seq<string>, x: string) returns (k: nat)
    requires x in s
    ensures k < |s| && s[k] == x
  {
    k :| 0 <= k < |s| && s[k] == x;
  }

  /** There is exactly one full listing. */
  lemma {:induction false} ListingExists(t: Table) returns (listing: seq<string>)
    ensures IsListing(t, listing)
    ensures |listing| == |t|
    ensures forall other | IsListing(t, other) :: other == listing
    decreases |t|
  {
    if t == map[] {
      listing := [];
    } else {
      var oldest := OldestExists(t, t.Keys);
      var rest := t - {oldest};
      var front := ListingExists(rest);
      listing := front + [oldest];
      forall i, j | 0 <= i < j < |listing| ensures Older(t, listing[j], listing[i]) {
        OlderIsTotal(rest, front[i], front[i]);
        assert listing[i] == front[i];
        assert j < |front| ==> Older(rest, front[j], front[i]);
      }
      assert rest.Keys == t.Keys - {oldest};
      assert |t.Keys| == |rest.Keys| + 1;
    }
    forall other | IsListing(t, other) ensures other == listing {
      ListingIsUnique(t, other, listing);
    }
  }

  lemma ListingIsUnique(t: Table, a: seq<string>, b: seq<string>)
    requires IsListing(t, a) && IsListing(t, b)
    ensures a == b
  {
    hide Older;
    NewestFirstPrefix(t, a, b);
    NewestFirstPrefix(t, b, a);
  }

  /** The claimed job is the approved job that comes last in the full listing. */
  lemma ClaimTakesLastListed(t: Table, listing: seq<string>, k: nat)
    requires IsListing(t, listing) && k < |listing|
    ensures NextApproved(t) == Some(listing[k]) <==>
            t[listing[k]].status == Approved && forall i | k < i < |listing| :: t[listing[i]].status != Approved
  {
    var id := listing[k];
    var approved := WithStatus(t, Approved);
    if t[id].status == Approved && forall i | k < i < |listing| :: t[listing[i]].status != Approved {
      forall other | other in approved && other != id ensures Older(t, id, other) {
        var j := PositionIn(listing, other);
        assert j < k;
      }
      assert IsOldestOf(t, approved, id);
      OldestIsUnique(t, approved, id, NextApproved(t).value);
    }
    if NextApproved(t) == Some(id) {
      forall i | k < i < |listing| ensures t[listing[i]].status != Approved {
        assert Older(t, listing[i], id);
        OlderIsTotal(t, listing[i], id);
      }
    }
  }

  // ---------------------------------------------------------------- what a status says about its row

  predicate Undecided(job: Job)
  {
    job.approvedBy == None && job.approvedAt == None && job.rejectedBy == None && job.rejectedAt == None
    && job.decisionReason == ""
  }

  predicate ApprovalOnly(job: Job)
  {
    job.approvedBy.Some? && job.approvedAt.Some? && job.rejectedBy == None && job.rejectedAt == None
  }

  predicate RecordMatchesStatus(job: Job)
  {
    match job.status
    case Queued => Undecided(job) && job.startedAt == None && job.statusReason == "pending_approval"
    case Rejected =>
      job.rejectedBy.Some? && job.rejectedAt.Some? && job.approvedBy == None && job.approvedAt == None
      && job.startedAt == None && job.statusReason == "rejected"
    case Approved => ApprovalOnly(job) && job.startedAt == None && job.statusReason == "approved"
    case Running => ApprovalOnly(job) && job.startedAt.Some? && job.statusReason == "running"
    case Completed => ApprovalOnly(job) && job.startedAt.Some? && job.statusReason == "completed"
    case Failed => ApprovalOnly(job) && job.startedAt.Some?
    case NotImplemented => false
  }

  predicate Terminal(job: Job)
  {
    job.status == Rejected || job.status == Completed || job.status == Failed
  }

  // ---------------------------------------------------------------- store

  class JobStore {
    const metrics: Registry
    var jobs: Table

    constructor (metrics: Registry)
      ensures this.metrics == metrics && jobs == map[]
    {
      this.metrics := metrics;
      jobs := map[];
    }

    /** The random id is an input; the primary key refuses one that is taken. */
    method Create(id: string, createdBy: Option<int>, action: string, target: string, requestId: string,
                  now: Timestamps.Instant)
      returns (r: Result<Row, JobError>)
      modifies this, metrics
      ensures r.Ok? <==> id !in old(jobs)
      ensures r.Ok? ==> r.value == Row(id, NewQueuedJob(createdBy, action, target, requestId, Timestamps.Text(now)))
      ensures r.Ok? ==>
                && r.value.job.createdAt == Timestamps.Text(now) && r.value.job.createdBy == createdBy
                && r.value.job.action == action && r.value.job.target == target && r.value.job.requestId == requestId
                && r.value.job.status == Queued && r.value.job.statusReason == "pending_approval"
                && Undecided(r.value.job) && r.value.job.startedAt == None
      ensures r.Ok? ==> jobs == old(jobs)[id := r.value.job] && metrics.counters == Bumped(old(metrics.counters), [JOBS_CREATED])
      ensures r.Err? ==> jobs == old(jobs) && metrics.counters == old(metrics.counters)
    {
      if id in jobs {
        return Err(DuplicateId);
      }
      var job := NewQueuedJob(createdBy, action, target, requestId, Timestamps.Text(now));
      jobs := jobs[id := job];
      metrics.Inc(JOBS_CREATED);
      r := Ok(Row(id, job));
    }

    method Get(id: string) returns (r: Result<Row, JobError>)
      ensures r == if id in jobs then Ok(Row(id, jobs[id])) else Err(JobNotFound)
    {
      r := if id in jobs then Ok(Row(id, jobs[id])) else Err(JobNotFound);
    }

    /** The error of a guarded update that matched no row. */
    method MissingOrInvalidTransition(id: string) returns (error: JobError)
      ensures error == JobNotFound <==> id !in jobs
      ensures error == InvalidJobTransition <==> id in jobs
    {
      var r := Get(id);
      error := if r.Err? then r.error else InvalidJobTransition;
    }

    method Approve(id: string, decidedBy: int, reason: string, now: Timestamps.Instant) returns (r: Result<Row, JobError>)
      modifies this, metrics
      ensures r.Ok? <==> id in old(jobs) && old(jobs)[id].status == Queued
      ensures r == Err(JobNotFound) <==> id !in old(jobs)
      ensures r.Err? ==> r.error in {JobNotFound, InvalidJobTransition}
                         && jobs == old(jobs) && metrics.counters == old(metrics.counters)
      ensures r.Ok? ==>
                && jobs == old(jobs)[id := old(jobs)[id].(status := Approved, statusReason := "approved",
                     approvedBy := Some(decidedBy), approvedAt := Some(Timestamps.Text(now)), decisionReason := reason)]
                && r.value == Row(id, jobs[id])
                && metrics.counters == Bumped(old(metrics.counters), [JOBS_APPROVED])
    {
      var affected := id in jobs && jobs[id].status == Queued;
      jobs := ApproveStatement(jobs, id, decidedBy, Timestamps.Text(now), reason);
      if !affected {
        var error := MissingOrInvalidTransition(id);
        return Err(error);
      }
      r := Get(id);
      metrics.Inc(JOBS_APPROVED);
    }

    method Reject(id: string, decidedBy: int, reason: string, now: Timestamps.Instant) returns (r: Result<Row, JobError>)
      modifies this, metrics
      ensures r.Ok? <==> id in old(jobs) && old(jobs)[id].status == Queued
      ensures r == Err(JobNotFound) <==> id !in old(jobs)
      ensures r.Err? ==> r.error in {JobNotFound, InvalidJobTransition}
                         && jobs == old(jobs) && metrics.counters == old(metrics.counters)
      ensures r.Ok? ==>
                && jobs == old(jobs)[id := old(jobs)[id].(status := Rejected, statusReason := "rejected",
                     rejectedBy := Some(decidedBy), rejectedAt := Some(Timestamps.Text(now)), decisionReason := reason)]
                && r.value == Row(id, jobs[id])
                && metrics.counters == Bumped(old(metrics.counters), [JOBS_REJECTED])
    {
      var affected := id in jobs && jobs[id].status == Queued;
      jobs := RejectStatement(jobs, id, decidedBy, Timestamps.Text(now), reason);
      if !affected {
        var error := MissingOrInvalidTransition(id);
        return Err(error);
      }
      r := Get(id);
      metrics.Inc(JOBS_REJECTED);
    }

    /** Takes the approved job with the smallest (created_at, id), if any, and starts it. */
    method ClaimApproved(now: Timestamps.Instant) returns (r: Result<Row, JobError>)
      modifies this, metrics
      ensures r == Err(NoApprovedJobs) <==> WithStatus(old(jobs), Approved) == {}
      ensures r.Err? ==> r.error == NoApprovedJobs && jobs == old(jobs) && metrics.counters == old(metrics.counters)
      ensures r.Ok? ==>
                && IsOldestOf(old(jobs), WithStatus(old(jobs), Approved), r.value.id)
                && NextApproved(old(jobs)) == Some(r.value.id)
                && jobs == old(jobs)[r.value.id := r.value.job]
                && r.value.job == old(jobs)[r.value.id].(status := Running, statusReason := "running",
                                                         startedAt := Some(Timestamps.Text(now)))
                && jobs == ClaimStatement(old(jobs), Timestamps.Text(now))
                && metrics.counters == Bumped(old(metrics.counters), [JOBS_CLAIMED])
    {
      var approved := WithStatus(jobs, Approved);
      if approved == {} {
        return Err(NoApprovedJobs);
      }
      ghost var oldest := OldestExists(jobs, approved);
      var id :| id in approved && IsOldestOf(jobs, approved, id);
      OldestIsUnique(jobs, approved, id, NextApproved(jobs).value);
      var job := jobs[id].(status := Running, statusReason := "running", startedAt := Some(Timestamps.Text(now)));
      jobs := jobs[id := job];
      metrics.Inc(JOBS_CLAIMED);
      r := Ok(Row(id, job));
    }

    method FinishRunning(id: string, status: Status, reason: string) returns (r: Result<Row, JobError>)
      modifies this`jobs
      ensures r.Ok? <==> id in old(jobs) && old(jobs)[id].status == Running
      ensures r == Err(JobNotFound) <==> id !in old(jobs)
      ensures r.Err? ==> r.error in {JobNotFound, InvalidJobTransition} && jobs == old(jobs)
      ensures r.Ok? ==> jobs == old(jobs)[id := old(jobs)[id].(status := status, statusReason := reason)]
                        && r.value == Row(id, jobs[id])
    {
      var affected := id in jobs && jobs[id].status == Running;
      jobs := FinishStatement(jobs, id, status, reason);
      if !affected {
        var error := MissingOrInvalidTransition(id);
        return Err(error);
      }
      r := Get(id);
    }

    method MarkFailed(id: string, reason: string) returns (r: Result<Row, JobError>)
      modifies this, metrics
      ensures r.Ok? <==> id in old(jobs) && old(jobs)[id].status == Running
      ensures r.Err? ==> jobs == old(jobs) && metrics.counters == old(metrics.counters)
      ensures r.Ok? ==> jobs == old(jobs)[id := old(jobs)[id].(status := Failed, statusReason := reason)]
                        && r.value == Row(id, jobs[id])
                        && metrics.counters == Bumped(old(metrics.counters), [JOBS_FAILED])
    {
      r := FinishRunning(id, Failed, reason);
      if r.Ok? {
        metrics.Inc(JOBS_FAILED);
      }
    }

    method MarkCompleted(id: string) returns (r: Result<Row, JobError>)
      modifies this, metrics
      ensures r.Ok? <==> id in old(jobs) && old(jobs)[id].status == Running
      ensures r.Err? ==> jobs == old(jobs) && metrics.counters == old(metrics.counters)
      ensures r.Ok? ==> jobs == old(jobs)[id := old(jobs)[id].(status := Completed, statusReason := "completed")]
                        && r.value == Row(id, jobs[id])
                        && metrics.counters == Bumped(old(metrics.counters), [JOBS_COMPLETED])
    {
      r := FinishRunning(id, Completed, "completed");
      if r.Ok? {
        metrics.Inc(JOBS_COMPLETED);
      }
    }

    /** The first min(bounded limit, rows) entries of the full listing. */
    method ListRecent(limit: int) returns (ids: seq<string>, rows: seq<Row>)
      ensures |ids| == |rows| == Audit.Min(Audit.BoundedLimit(limit), |jobs|)
      ensures forall i | 0 <= i < |ids| :: ids[i] in jobs && rows[i] == Row(ids[i], jobs[ids[i]])
      ensures NewestFirst(jobs, ids)
      ensures forall listing | IsListing(jobs, listing) :: ids <= listing
    {
      var bound := Audit.BoundedLimit(limit);
      var remaining := jobs.Keys;
      ids, rows := [], [];
      while |rows| < bound && remaining != {}
        invariant |ids| == |rows| <= bound
        invariant remaining <= jobs.Keys && |remaining| + |ids| == |jobs.Keys|
        invariant forall id | id in jobs :: id in remaining <==> id !in ids
        invariant forall i | 0 <= i < |ids| :: ids[i] in jobs && rows[i] == Row(ids[i], jobs[ids[i]])
        invariant NewestFirst(jobs, ids)
        invariant forall i, other | 0 <= i < |ids| && other in remaining :: Older(jobs, other, ids[i])
        decreases remaining
      {
        ghost var best := NewestExists(jobs, remaining);
        var id :| id in remaining && IsNewestOf(jobs, remaining, id);
        forall other | other in remaining && other != id ensures Older(jobs, other, id) {
          assert IsNewestOf(jobs, remaining, id);
        }
        ids, rows := ids + [id], rows + [Row(id, jobs[id])];
        remaining := remaining - {id};
      }
      forall listing | IsListing(jobs, listing) ensures ids <= listing {
        NewestFirstPrefix(jobs, ids, listing);
      }
    }
  }

  predicate IsNewestOf(t: Table, ids: set<string>, id: string)
    requires ids <= t.Keys
  {
    id in ids && forall other | other in ids && other != id :: Older(t, other, id)
  }

  lemma {:induction false} NewestExists(t: Table, ids: set<string>) returns (id: string)
    requires ids <= t.Keys && ids != {}
    ensures IsNewestOf(t, ids, id)
    decreases ids
  {
    id :| id in ids;
    if ids != {id} {
      var best := NewestExists(t, ids - {id});
      OlderIsTotal(t, id, best);
      if Older(t, id, best) {
        id := best;
      } else {
        forall other | other in ids && other != id ensures Older(t, other, id) {
          if other != best {
            OlderIsTransitive(t, other, best, id);
          }
        }
      }
    }
  }
}
