/**
 Counters and audit events against the jobs table. In every reachable state of every interleaving, what was
 counted and recorded, together with what live and dead threads still owe, is exactly the histories of the rows.
 */
module JobAccounting {
  import opened Wrappers
  import opened Totals
  import opened Jobs
  import opened JobRuns
  import opened JobSafety
  import opened Observability
  import Audit
  import Agent
  import Worker
  import Handlers

  /** Things to count: one counter, all events of an action, all events of an action on one target. */
  datatype Probe = Counter(name: string) | Action(action: string) | Entry(action: string, target: string)

  predicate Matches(p: Probe, effect: Effect)
  {
    match p
    case Counter(name) => effect == Inc(name)
    case Action(action) => effect.Log? && effect.event.action == action
    case Entry(action, target) => effect.Log? && effect.event.action == action && effect.event.target == target
  }

  function Tally(p: Probe, effects: seq<Effect>): nat
  {
    if effects == [] then 0 else (if Matches(p, effects[0]) then 1 else 0) + Tally(p, effects[1..])
  }

  lemma {:induction false} TallyAppend(p: Probe, a: seq<Effect>, b: seq<Effect>)
    ensures Tally(p, a + b) == Tally(p, a) + Tally(p, b)
  {
    if a == [] {
      assert a + b == b;
    } else {
      TallyAppend(p, a[1..], b);
      assert (a + b)[1..] == a[1..] + b;
    }
  }

  lemma TallyOne(p: Probe, x: Effect)
    ensures Tally(p, [x]) == if Matches(p, x) then 1 else 0
  {
    assert [x][1..] == [];
  }

  lemma TallyThree(p: Probe, x: Effect, y: Effect, z: Effect)
    ensures Tally(p, [x, y, z]) == Tally(p, [x]) + Tally(p, [y]) + Tally(p, [z])
  {
    TallyAppend(p, [x], [y]);
    TallyAppend(p, [x] + [y], [z]);
    assert [x, y, z] == [x] + [y] + [z];
  }

  // ---------------------------------------------------------------- names

  predicate LifecycleAction(action: string)
  {
    action in {Audit.JOB_CREATED, Audit.JOB_STATUS, Audit.JOB_APPROVED, Audit.JOB_REJECTED, Audit.JOB_STARTED}
    || OutcomeAction(action)
  }

  predicate OutcomeAction(action: string)
  {
    action in {Audit.JOB_COMPLETED, Audit.JOB_FAILED, Audit.JOB_COMMAND_FAILED, Audit.JOB_COMMAND_TIMEOUT, Audit.JOB_MUTATION_OFF}
  }

  predicate LifecycleCounter(name: string)
  {
    name in {JOBS_CREATED, JOBS_APPROVED, JOBS_REJECTED, JOBS_CLAIMED, JOBS_COMPLETED, JOBS_FAILED}
  }

  predicate Lifecycle(p: Probe)
  {
    if p.Counter? then LifecycleCounter(p.name) else LifecycleAction(p.action)
  }

  lemma ActionsDiffer()
    ensures !LifecycleAction(Audit.SERVICE_CONTROL) && !LifecycleAction(Audit.JOB_APPROVE_DENY)
    ensures !OutcomeAction(Audit.JOB_CREATED) && !OutcomeAction(Audit.JOB_STATUS) && !OutcomeAction(Audit.JOB_APPROVED)
         && !OutcomeAction(Audit.JOB_REJECTED) && !OutcomeAction(Audit.JOB_STARTED)
    ensures Audit.JOB_CREATED !in {Audit.JOB_STATUS, Audit.JOB_APPROVED, Audit.JOB_REJECTED, Audit.JOB_STARTED}
    ensures Audit.JOB_STATUS !in {Audit.JOB_APPROVED, Audit.JOB_REJECTED, Audit.JOB_STARTED}
    ensures Audit.JOB_APPROVED !in {Audit.JOB_REJECTED, Audit.JOB_STARTED} && Audit.JOB_REJECTED != Audit.JOB_STARTED
  {
    assert Audit.JOB_CREATED[4] != Audit.JOB_STARTED[4];
    assert Audit.JOB_APPROVED[4] != Audit.JOB_REJECTED[4];
    assert Audit.JOB_STATUS[4] != Audit.JOB_COMMAND_FAILED[4];
    assert Audit.JOB_APPROVE_DENY[4] != Audit.JOB_COMMAND_TIMEOUT[4];
  }

  lemma CountersDiffer()
    ensures !LifecycleCounter(AGENT_RPC_REQUESTS) && !LifecycleCounter(AGENT_RPC_FAILURES)
    ensures JOBS_CREATED !in {JOBS_APPROVED, JOBS_REJECTED, JOBS_CLAIMED, JOBS_COMPLETED, JOBS_FAILED}
    ensures JOBS_APPROVED !in {JOBS_REJECTED, JOBS_CLAIMED, JOBS_COMPLETED, JOBS_FAILED}
    ensures JOBS_REJECTED !in {JOBS_CLAIMED, JOBS_COMPLETED, JOBS_FAILED}
    ensures JOBS_CLAIMED !in {JOBS_COMPLETED, JOBS_FAILED} && JOBS_COMPLETED != JOBS_FAILED
  {
    assert JOBS_CREATED[6] != JOBS_CLAIMED[6];
    assert JOBS_APPROVED[5] != JOBS_REJECTED[5];
  }

  // ---------------------------------------------------------------- histories

  /** What a row says about a job that no one has touched but its creator; also stands for any row where only the id matters. */
  const BLANK := NewQueuedJob(None, "", "", "", "")

  function RequestOf(job: Job): Agent.Request
  {
    match Worker.AgentRequestForJob(job)
    case Some(request) => request
    case None => Agent.Request(job.target, "")
  }

  function Creation(row: Row): seq<Effect>
  {
    CreationEffects(RequestOf(row.job), row, None, "")
  }

  function Decision(approve: bool, id: string): seq<Effect>
  {
    AftermathEffects(AfterDecision(approve, 0, ""), Row(id, BLANK))
  }

  function Start(id: string): seq<Effect>
  {
    ClaimEffects(Row(id, BLANK))
  }

  function Outcome(id: string, verdict: Worker.Verdict): seq<Effect>
  {
    AftermathEffects(AfterFinish(verdict), Row(id, BLANK))
  }

  function FailureOf(reason: string): Worker.Verdict
  {
    Worker.Failure(reason, Worker.FailureAction(reason))
  }

  /** The counters and events of a job's whole life so far, read off its row (users, reasons and request ids left blank). */
  function History(row: Row): seq<Effect>
  {
    match row.job.status
    case Queued => Creation(row)
    case Rejected => Creation(row) + Decision(false, row.id)
    case Approved => Creation(row) + Decision(true, row.id)
    case Running => Creation(row) + Decision(true, row.id) + Start(row.id)
    case Completed => Creation(row) + Decision(true, row.id) + Start(row.id) + Outcome(row.id, Worker.COMPLETION)
    case Failed => Creation(row) + Decision(true, row.id) + Start(row.id) + Outcome(row.id, FailureOf(row.job.statusReason))
    case NotImplemented => []
  }

  ghost function HistoryTally(p: Probe): (string, Job) -> nat
  {
    (id, job) => Tally(p, History(Row(id, job)))
  }

  /** The number of matching entries in the histories of all rows. */
  ghost function Due(p: Probe, jobs: Table): nat
  {
    Total(jobs, HistoryTally(p))
  }

  /** What a thread will still perform without another guarded update. */
  function Owes(p: Probe, th: Thread): nat
  {
    Tally(p, th.script) +
    match th.next
    case Reread(id, aftermath) => Tally(p, AftermathEffects(aftermath, Row(id, BLANK)))
    case _ => 0
  }

  function OwedBy(p: Probe, threads: seq<Thread>): nat
  {
    if threads == [] then 0
    else OwedBy(p, threads[..|threads| - 1]) + Owes(p, threads[|threads| - 1])
  }

  ghost predicate Balanced(p: Probe, w: World)
  {
    Tally(p, w.performed) + OwedBy(p, w.threads) == Due(p, w.jobs)
  }

  // ---------------------------------------------------------------- the law

  lemma {:induction false} OwedByUpdate(p: Probe, threads: seq<Thread>, i: nat, th: Thread)
    requires i < |threads|
    ensures OwedBy(p, threads[i := th]) + Owes(p, threads[i]) == OwedBy(p, threads) + Owes(p, th)
  {
    var n := |threads| - 1;
    var updated := threads[i := th];
    if i < n {
      OwedByUpdate(p, threads[..n], i, th);
      assert updated[..n] == threads[..n][i := th];
    } else {
      assert updated[..n] == threads[..n];
    }
  }

  lemma OwedBySpawn(p: Probe, threads: seq<Thread>, th: Thread)
    ensures OwedBy(p, threads + [th]) == OwedBy(p, threads) + Owes(p, th)
  {
    assert (threads + [th])[..|threads|] == threads;
  }

  /** Users, reasons and request ids do not matter to a probe. */
  lemma BlankAftermath(p: Probe, aftermath: Aftermath, row: Row)
    ensures Tally(p, AftermathEffects(aftermath, row)) == Tally(p, AftermathEffects(aftermath, Row(row.id, BLANK)))
    ensures aftermath.AfterDecision? ==>
              Tally(p, AftermathEffects(aftermath, row)) == Tally(p, Decision(aftermath.approve, row.id))
  {
    var a, b := AftermathEffects(aftermath, row), AftermathEffects(aftermath, Row(row.id, BLANK));
    SameMarks(p, a, b);
    if aftermath.AfterDecision? {
      SameMarks(p, a, Decision(aftermath.approve, row.id));
    }
  }

  lemma SameMarks(p: Probe, a: seq<Effect>, b: seq<Effect>)
    requires |a| == |b| == 3
    requires forall i | 0 <= i < 3 :: Matches(p, a[i]) == Matches(p, b[i])
    ensures Tally(p, a) == Tally(p, b)
  {
    forall i | 0 <= i < 3 ensures Tally(p, [a[i]]) == Tally(p, [b[i]]) {
      TallyOne(p, a[i]);
      TallyOne(p, b[i]);
    }
    assert a == [a[0], a[1], a[2]] && b == [b[0], b[1], b[2]];
    TallyThree(p, a[0], a[1], a[2]);
    TallyThree(p, b[0], b[1], b[2]);
  }

  /** A history grows by the effects of each statement. */
  lemma HistorySum(p: Probe, id: string, job: Job)
    ensures job.status != NotImplemented ==>
              Tally(p, History(Row(id, job))) == Tally(p, Creation(Row(id, job)))
                + (if job.status == Rejected then Tally(p, Decision(false, id)) else 0)
                + (if job.status in {Approved, Running, Completed, Failed} then Tally(p, Decision(true, id)) else 0)
                + (if job.status in {Running, Completed, Failed} then Tally(p, Start(id)) else 0)
                + (if job.status == Completed then Tally(p, Outcome(id, Worker.COMPLETION)) else 0)
                + (if job.status == Failed then Tally(p, Outcome(id, FailureOf(job.statusReason))) else 0)
  {
    var c, d := Creation(Row(id, job)), Decision(true, id);
    TallyAppend(p, c, Decision(false, id));
    TallyAppend(p, c, d);
    TallyAppend(p, c + d, Start(id));
    TallyAppend(p, c + d + Start(id), Outcome(id, Worker.COMPLETION));
    TallyAppend(p, c + d + Start(id), Outcome(id, FailureOf(job.statusReason)));
  }

  /** The creation part depends on nothing that a later statement changes. */
  lemma CreationStays(p: Probe, id: string, before: Job, after: Job)
    requires before.action == after.action && before.target == after.target
    ensures Tally(p, Creation(Row(id, before))) == Tally(p, Creation(Row(id, after)))
  {
    SameMarks(p, Creation(Row(id, before)), Creation(Row(id, after)));
  }

  lemma DueChange(p: Probe, jobs: Table, id: string, job: Job)
    ensures id in jobs ==>
              Due(p, jobs[id := job]) + Tally(p, History(Row(id, jobs[id]))) == Due(p, jobs) + Tally(p, History(Row(id, job)))
    ensures id !in jobs ==> Due(p, jobs[id := job]) == Due(p, jobs) + Tally(p, History(Row(id, job)))
  {
    TotalPut(jobs, HistoryTally(p), id, job);
  }

  lemma ControlBalances(p: Probe, setup: Setup, w: World, e: Event)
    requires Lifecycle(p) && Balanced(p, w) && e.ControlRequest?
    ensures Balanced(p, Control(setup, w, e))
  {
    var w' := Control(setup, w, e);
    if !Handlers.Admissible(e.request, setup.allowlist) {
      ActionsDiffer();
      TallyOne(p, Log(Handlers.RefusalEvent(e.request, e.user, e.requestId)));
      OwedBySpawn(p, w.threads, w'.threads[|w.threads|]);
    } else if e.freshId !in w.jobs {
      var job := RequestedJob(e);
      Worker.StoredRequestComesBack(job, e.request);
      OwedBySpawn(p, w.threads, w'.threads[|w.threads|]);
      DueChange(p, w.jobs, e.freshId, job);
      SameMarks(p, Creation(Row(e.freshId, job)), CreationEffects(e.request, Row(e.freshId, job), e.user, e.requestId));
    }
  }

  lemma DecideBalances(p: Probe, setup: Setup, w: World, e: Event)
    requires Lifecycle(p) && Balanced(p, w) && Inv(setup, w) && e.DecisionRequest?
    ensures Balanced(p, Decide(w, e))
  {
    if e.id in w.jobs {
      OwedBySpawn(p, w.threads, Decide(w, e).threads[|w.threads|]);
      if w.jobs[e.id].status != Queued {
        DenialIsNotCounted(p, e);
      } else {
        DecisionDue(p, w, e);
        BlankAftermath(p, AfterDecision(e.approve, e.decider, e.requestId), Row(e.id, BLANK));
      }
    }
  }

  lemma DenialIsNotCounted(p: Probe, e: Event)
    requires Lifecycle(p) && e.DecisionRequest?
    ensures Tally(p, [Log(Handlers.DenialEvent(e.id, Some(e.decider), e.requestId))]) == 0
  {
    ActionsDiffer();
    TallyOne(p, Log(Handlers.DenialEvent(e.id, Some(e.decider), e.requestId)));
  }

  lemma DecisionDue(p: Probe, w: World, e: Event)
    requires e.DecisionRequest? && e.id in w.jobs && w.jobs[e.id].status == Queued
    ensures Due(p, Decide(w, e).jobs) == Due(p, w.jobs) + Tally(p, Decision(e.approve, e.id))
  {
    var before, after := w.jobs[e.id], Decide(w, e).jobs[e.id];
    assert Decide(w, e).jobs == w.jobs[e.id := after];
    DueChange(p, w.jobs, e.id, after);
    HistorySum(p, e.id, before);
    HistorySum(p, e.id, after);
    CreationStays(p, e.id, before, after);
  }

  lemma ClaimBalances(p: Probe, setup: Setup, w: World, e: Event)
    requires Balanced(p, w) && Inv(setup, w) && e.WorkerTurn?
    ensures Balanced(p, Claim(w, e))
  {
    var w' := Claim(w, e);
    if NextApproved(w.jobs).Some? {
      var id := NextApproved(w.jobs).value;
      var before, after := w.jobs[id], w'.jobs[id];
      OwedBySpawn(p, w.threads, w'.threads[|w.threads|]);
      DueChange(p, w.jobs, id, after);
      HistorySum(p, id, before);
      HistorySum(p, id, after);
      CreationStays(p, id, before, after);
      SameStart(p, Row(id, after));
    }
  }

  lemma SameStart(p: Probe, row: Row)
    ensures Tally(p, ClaimEffects(row)) == Tally(p, Start(row.id))
  {
    var a, b := ClaimEffects(row), Start(row.id);
    assert a == [a[0]] + [a[1]] && b == [b[0]] + [b[1]];
    TallyAppend(p, [a[0]], [a[1]]);
    TallyAppend(p, [b[0]], [b[1]]);
    TallyOne(p, a[1]);
    TallyOne(p, b[1]);
  }

  lemma PerformBalances(p: Probe, w: World, tid: nat)
    requires Balanced(p, w) && tid < |w.threads| && w.threads[tid].script != []
    ensures Balanced(p, Perform(w, tid))
  {
    var th := w.threads[tid];
    OwedByUpdate(p, w.threads, tid, th.(script := th.script[1..]));
    TallyAppend(p, w.performed, [th.script[0]]);
    TallyOne(p, th.script[0]);
  }

  lemma HandOverBalances(p: Probe, setup: Setup, w: World, tid: nat, e: Event)
    requires Lifecycle(p) && Balanced(p, w) && e.Proceed?
    requires tid < |w.threads| && w.threads[tid].next.Call? && w.threads[tid].script == []
    ensures Balanced(p, HandOver(setup, w, tid, e))
  {
    var w' := HandOver(setup, w, tid, e);
    OwedByUpdate(p, w.threads, tid, w'.threads[tid]);
    CountersDiffer();
    var a, b := Inc(AGENT_RPC_REQUESTS), Inc(AGENT_RPC_FAILURES);
    TallyOne(p, a);
    TallyOne(p, b);
    TallyAppend(p, [a], [b]);
    assert [a, b] == [a] + [b];
  }

  lemma ConcludeBalances(p: Probe, setup: Setup, w: World, tid: nat)
    requires Balanced(p, w) && Inv(setup, w)
    requires tid < |w.threads| && w.threads[tid].next.Finish? && w.threads[tid].script == []
    ensures Balanced(p, Conclude(w, tid))
  {
    var w' := Conclude(w, tid);
    var id, verdict := w.threads[tid].next.id, w.threads[tid].next.verdict;
    VerdictIsOfRow(setup, w, tid);
    hide Inv;
    OwedByUpdate(p, w.threads, tid, w'.threads[tid]);
    OutcomeDue(p, w.jobs, id, w'.jobs[id], verdict);
    BlankAftermath(p, AfterFinish(verdict), Row(id, BLANK));
    hide History, Tally, Due, OwedBy, AftermathEffects;
  }

  /** A verdict about to be written is the completion, or the failure that its reason determines. */
  lemma VerdictIsOfRow(setup: Setup, w: World, tid: nat)
    requires Inv(setup, w) && tid < |w.threads| && w.threads[tid].next.Finish?
    ensures var id, verdict := w.threads[tid].next.id, w.threads[tid].next.verdict;
            && id in w.jobs && w.jobs[id].status == Running && verdict.status in {Completed, Failed}
            && verdict == if verdict.status == Completed then Worker.COMPLETION else FailureOf(verdict.reason)
  {
    assert NextFits(setup, w.jobs, w.handed, w.threads[tid].next);
  }

  lemma OutcomeDue(p: Probe, jobs: Table, id: string, after: Job, verdict: Worker.Verdict)
    requires id in jobs && jobs[id].status == Running && verdict.status in {Completed, Failed}
    requires after == jobs[id].(status := verdict.status, statusReason := verdict.reason)
    requires verdict == if verdict.status == Completed then Worker.COMPLETION else FailureOf(verdict.reason)
    ensures Due(p, jobs[id := after]) == Due(p, jobs) + Tally(p, Outcome(id, verdict))
  {
    DueChange(p, jobs, id, after);
    HistorySum(p, id, jobs[id]);
    HistorySum(p, id, after);
    CreationStays(p, id, jobs[id], after);
    hide Due, Tally, History, Creation, Decision, Outcome, Worker.FailureAction;
  }

  lemma ReportBalances(p: Probe, setup: Setup, w: World, tid: nat)
    requires Balanced(p, w) && Inv(setup, w)
    requires tid < |w.threads| && w.threads[tid].next.Reread? && w.threads[tid].script == []
    ensures Balanced(p, Report(w, tid))
  {
    assert NextFits(setup, w.jobs, w.handed, w.threads[tid].next);
    var id, aftermath := w.threads[tid].next.id, w.threads[tid].next.aftermath;
    OwedByUpdate(p, w.threads, tid, Report(w, tid).threads[tid]);
    BlankAftermath(p, aftermath, Row(id, w.jobs[id]));
  }

  lemma DeathBalances(p: Probe, setup: Setup, w: World, e: Event)
    requires Balanced(p, w) && e.Die?
    ensures Balanced(p, Step(setup, w, e))
  {
    if e.tid < |w.threads| {
      OwedByUpdate(p, w.threads, e.tid, w.threads[e.tid].(alive := false));
    }
  }

  lemma StepBalances(p: Probe, setup: Setup, w: World, e: Event)
    requires Lifecycle(p) && Balanced(p, w) && Inv(setup, w)
    ensures Balanced(p, Step(setup, w, e))
  {
    hide Inv, Balanced, Lifecycle, Control, Decide, Claim, Perform, HandOver, Conclude, Report;
    match e
    case ControlRequest(_, _, _, _, _) => ControlBalances(p, setup, w, e);
    case DecisionRequest(_, _, _, _, _, _) => DecideBalances(p, setup, w, e);
    case WorkerTurn(_) => ClaimBalances(p, setup, w, e);
    case Die(tid) => DeathBalances(p, setup, w, e);
    case Proceed(tid, _, _) =>
      if tid < |w.threads| && w.threads[tid].alive {
        if w.threads[tid].script != [] {
          PerformBalances(p, w, tid);
        } else if w.threads[tid].next.Call? {
          HandOverBalances(p, setup, w, tid, e);
        } else if w.threads[tid].next.Finish? {
          ConcludeBalances(p, setup, w, tid);
        } else if w.threads[tid].next.Reread? {
          ReportBalances(p, setup, w, tid);
        }
      }
  }

  /**
   The accounting law: in every reachable state of every interleaving, for every lifecycle counter, action
   and (action, target) pair, performed plus owed entries equal the entries in the histories of all rows.
   */
  lemma {:induction false} AccountingLaw(p: Probe, setup: Setup, events: seq<Event>)
    requires Lifecycle(p)
    ensures Balanced(p, Reached(setup, events))
  {
    if events != [] {
      var before := events[..|events| - 1];
      AccountingLaw(p, setup, before);
      ReachedInv(setup, before);
      StepBalances(p, setup, Reached(setup, before), events[|events| - 1]);
    }
  }
}
