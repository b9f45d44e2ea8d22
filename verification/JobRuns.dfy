/**
 Every interleaving of request handlers and workers, one SQL statement or one side effect at a time.

 A thread is an HTTP request or one worker turn. It has side effects still to perform (counter increments
 and audit rows) and a next statement. Any thread may die between two of its steps, and any number of
 threads may run, so a worker that stops and is started again is simply another thread.
 */
module JobRuns {
  import opened Wrappers
  import opened Jobs
  import Audit
  import Agent
  import Command
  import Worker
  import Handlers
  import Timestamps
  import Observability

  /** What does not change during a run: the daemon's allowlist and the agent. */
  datatype Setup = Setup(allowlist: set<string>, executor: Agent.Executor)

  datatype Effect = Inc(name: string) | Log(event: Audit.Event)

  /** After a guarded update that hit its row, the row is read again and reported. */
  datatype Aftermath =
    | AfterDecision(approve: bool, user: int, requestId: string)
    | AfterFinish(verdict: Worker.Verdict)

  datatype Next =
    | Stop
    | Call(id: string, job: Job)
    | Finish(id: string, verdict: Worker.Verdict)
    | Reread(id: string, aftermath: Aftermath)

  datatype Thread = Thread(alive: bool, script: seq<Effect>, next: Next)

  /** One call of the agent for a job; the process is present if a command was started. */
  datatype Handover = Handover(id: string, request: Agent.Request, process: Option<Command.Process>)

  datatype World = World(jobs: Table, performed: seq<Effect>, threads: seq<Thread>, handed: seq<Handover>, moves: nat)

  const START := World(map[], [], [], [], 0)

  datatype Event =
    | ControlRequest(request: Agent.Request, user: Option<int>, requestId: string, freshId: string, at: Timestamps.Instant)
    | DecisionRequest(id: string, approve: bool, decider: int, reason: string, requestId: string, at: Timestamps.Instant)
    | WorkerTurn(at: Timestamps.Instant)
    | Proceed(tid: nat, delivery: Agent.Delivery, process: Command.Process)
    | Die(tid: nat)

  // ---------------------------------------------------------------- effects

  function CreationEffects(request: Agent.Request, row: Row, user: Option<int>, requestId: string): seq<Effect>
  {
    var events := Handlers.CreationEvents(request, row, user, requestId);
    [Inc(Observability.JOBS_CREATED), Log(events[0]), Log(events[1])]
  }

  function ClaimEffects(row: Row): seq<Effect>
  {
    [Inc(Observability.JOBS_CLAIMED), Log(Worker.JobEvent(Audit.JOB_STARTED, Audit.ACCEPTED, row))]
  }

  function CallEffects(answer: Option<Agent.AgentError>): seq<Effect>
  {
    if answer == None then [Inc(Observability.AGENT_RPC_REQUESTS)]
    else [Inc(Observability.AGENT_RPC_REQUESTS), Inc(Observability.AGENT_RPC_FAILURES)]
  }

  function AftermathEffects(aftermath: Aftermath, row: Row): seq<Effect>
  {
    match aftermath
    case AfterDecision(approve, user, requestId) =>
      var events := Handlers.DecisionEvents(approve, row, Some(user), requestId);
      [Inc(if approve then Observability.JOBS_APPROVED else Observability.JOBS_REJECTED), Log(events[0]), Log(events[1])]
    case AfterFinish(verdict) =>
      var events := Worker.OutcomeEvents(verdict, row);
      [Inc(if verdict.status == Completed then Observability.JOBS_COMPLETED else Observability.JOBS_FAILED),
       Log(events[0]), Log(events[1])]
  }

  // ---------------------------------------------------------------- steps

  function Spawn(w: World, script: seq<Effect>, next: Next): World
  {
    w.(threads := w.threads + [Thread(true, script, next)])
  }

  function Control(setup: Setup, w: World, e: Event): World
    requires e.ControlRequest?
  {
    if !Handlers.Admissible(e.request, setup.allowlist) then
      Spawn(w, [Log(Handlers.RefusalEvent(e.request, e.user, e.requestId))], Stop)
    else if e.freshId in w.jobs then w
    else
      var job := RequestedJob(e);
      Spawn(w.(jobs := w.jobs[e.freshId := job]), CreationEffects(e.request, Row(e.freshId, job), e.user, e.requestId), Stop)
  }

  function RequestedJob(e: Event): Job
    requires e.ControlRequest?
  {
    NewQueuedJob(e.user, Worker.SERVICE_PREFIX + e.request.action, e.request.service, e.requestId, Timestamps.Text(e.at))
  }

  function Decide(w: World, e: Event): World
    requires e.DecisionRequest?
  {
    if e.id !in w.jobs then w
    else if w.jobs[e.id].status != Queued then
      Spawn(w, [Log(Handlers.DenialEvent(e.id, Some(e.decider), e.requestId))], Stop)
    else
      var jobs := if e.approve then ApproveStatement(w.jobs, e.id, e.decider, Timestamps.Text(e.at), e.reason)
                  else RejectStatement(w.jobs, e.id, e.decider, Timestamps.Text(e.at), e.reason);
      Spawn(w.(jobs := jobs, moves := w.moves + 1), [], Reread(e.id, AfterDecision(e.approve, e.decider, e.requestId)))
  }

  ghost function Claim(w: World, e: Event): World
    requires e.WorkerTurn?
  {
    match NextApproved(w.jobs)
    case None => w
    case Some(id) =>
      var jobs := ClaimStatement(w.jobs, Timestamps.Text(e.at));
      Spawn(w.(jobs := jobs, moves := w.moves + 1), ClaimEffects(Row(id, jobs[id])), Call(id, jobs[id]))
  }

  function Perform(w: World, tid: nat): World
    requires tid < |w.threads| && w.threads[tid].script != []
  {
    var th := w.threads[tid];
    w.(performed := w.performed + [th.script[0]], threads := w.threads[tid := th.(script := th.script[1..])])
  }

  function HandOver(setup: Setup, w: World, tid: nat, e: Event): World
    requires e.Proceed? && tid < |w.threads| && w.threads[tid].next.Call?
  {
    var th := w.threads[tid];
    match Worker.AgentRequestForJob(th.next.job)
    case None =>
      w.(threads := w.threads[tid := th.(script := [],
           next := Finish(th.next.id, Worker.Failure(Worker.INVALID_JOB, Audit.JOB_FAILED)))])
    case Some(request) =>
      var answer := Agent.Call(setup.executor, request, e.delivery, e.process);
      var process := Agent.Ran(setup.executor, request, e.delivery, e.process);
      w.(handed := w.handed + [Handover(th.next.id, request, process)],
         threads := w.threads[tid := th.(script := CallEffects(answer), next := Finish(th.next.id, Worker.VerdictOf(answer)))])
  }

  function Conclude(w: World, tid: nat): World
    requires tid < |w.threads| && w.threads[tid].next.Finish?
  {
    var th := w.threads[tid];
    var id, verdict := th.next.id, th.next.verdict;
    if id in w.jobs && w.jobs[id].status == Running then
      w.(jobs := FinishStatement(w.jobs, id, verdict.status, verdict.reason), moves := w.moves + 1,
         threads := w.threads[tid := th.(script := [], next := Reread(id, AfterFinish(verdict)))])
    else w.(threads := w.threads[tid := th.(script := [], next := Stop)])
  }

  function Report(w: World, tid: nat): World
    requires tid < |w.threads| && w.threads[tid].next.Reread?
  {
    var th := w.threads[tid];
    var id := th.next.id;
    var script := if id in w.jobs then AftermathEffects(th.next.aftermath, Row(id, w.jobs[id])) else [];
    w.(threads := w.threads[tid := th.(script := script, next := Stop)])
  }

  /** One step of one thread, or the arrival or death of one. Events that cannot happen change nothing. */
  ghost function Step(setup: Setup, w: World, e: Event): World
  {
    match e
    case ControlRequest(_, _, _, _, _) => Control(setup, w, e)
    case DecisionRequest(_, _, _, _, _, _) => Decide(w, e)
    case WorkerTurn(_) => Claim(w, e)
    case Die(tid) =>
      if tid < |w.threads| then w.(threads := w.threads[tid := w.threads[tid].(alive := false)]) else w
    case Proceed(tid, _, _) =>
      if tid >= |w.threads| || !w.threads[tid].alive then w
      else if w.threads[tid].script != [] then Perform(w, tid)
      else match w.threads[tid].next
        case Stop => w
        case Call(_, _) => HandOver(setup, w, tid, e)
        case Finish(_, _) => Conclude(w, tid)
        case Reread(_, _) => Report(w, tid)
  }

  ghost function After(setup: Setup, w: World, events: seq<Event>): World
  {
    if events == [] then w
    else Step(setup, After(setup, w, events[..|events| - 1]), events[|events| - 1])
  }

  // ---------------------------------------------------------------- the invariant

  ghost predicate RowsFit(setup: Setup, jobs: Table)
  {
    forall id | id in jobs ::
      && RecordMatchesStatus(jobs[id])
      && Worker.AgentRequestForJob(jobs[id]).Some?
      && Handlers.Admissible(Worker.AgentRequestForJob(jobs[id]).value, setup.allowlist)
  }

  predicate WasHanded(handed: seq<Handover>, id: string)
  {
    exists k | 0 <= k < |handed| :: handed[k].id == id
  }

  /** The agent ran exactly this job's request and the command succeeded. */
  ghost predicate Succeeded(setup: Setup, handed: seq<Handover>, id: string, job: Job)
  {
    exists k | 0 <= k < |handed| ::
      && handed[k].id == id
      && Worker.AgentRequestForJob(job) == Some(handed[k].request)
      && handed[k].process.Some?
      && Agent.Executed(setup.executor, handed[k].request, handed[k].process.value)
  }

  ghost predicate NextFits(setup: Setup, jobs: Table, handed: seq<Handover>, next: Next)
  {
    match next
    case Stop => true
    case Call(id, job) => id in jobs && jobs[id] == job && job.status == Running && !WasHanded(handed, id)
    case Finish(id, verdict) =>
      && id in jobs && jobs[id].status == Running && Worker.WellFormedVerdict(verdict)
      && (verdict.status == Completed ==> Succeeded(setup, handed, id, jobs[id]))
    case Reread(id, AfterDecision(approve, _, _)) =>
      id in jobs && (if approve then jobs[id].status in {Approved, Running, Completed, Failed} else jobs[id].status == Rejected)
    case Reread(id, AfterFinish(verdict)) =>
      id in jobs && jobs[id].status == verdict.status && jobs[id].statusReason == verdict.reason
      && Worker.WellFormedVerdict(verdict)
  }

  ghost predicate ThreadsFit(setup: Setup, w: World)
  {
    forall i | 0 <= i < |w.threads| :: NextFits(setup, w.jobs, w.handed, w.threads[i].next)
  }

  predicate Holds(next: Next, id: string)
  {
    (next.Call? || next.Finish?) && next.id == id
  }

  ghost predicate HoldersDistinct(threads: seq<Thread>)
  {
    forall i, j, id | 0 <= i < j < |threads| && Holds(threads[i].next, id) :: !Holds(threads[j].next, id)
  }

  ghost predicate HandoversFit(jobs: Table, handed: seq<Handover>)
  {
    (forall i, j | 0 <= i < j < |handed| :: handed[i].id != handed[j].id) &&
    forall k | 0 <= k < |handed| ::
      && handed[k].id in jobs && jobs[handed[k].id].status in {Running, Completed, Failed}
      && Worker.AgentRequestForJob(jobs[handed[k].id]) == Some(handed[k].request)
  }

  ghost predicate CompletedFit(setup: Setup, jobs: Table, handed: seq<Handover>)
  {
    forall id | id in jobs && jobs[id].status == Completed :: Succeeded(setup, handed, id, jobs[id])
  }

  ghost predicate Inv(setup: Setup, w: World)
  {
    RowsFit(setup, w.jobs) && ThreadsFit(setup, w) && HoldersDistinct(w.threads)
    && HandoversFit(w.jobs, w.handed) && CompletedFit(setup, w.jobs, w.handed)
  }

  /** Changing one unheld row that stays within its decision keeps every thread in step. */
  lemma RowChangeKeepsThreads(setup: Setup, w: World, id: string, job: Job)
    requires ThreadsFit(setup, w) && id in w.jobs
    requires forall i | 0 <= i < |w.threads| :: !Holds(w.threads[i].next, id)
    requires (w.jobs[id].status == Queued)
          || (w.jobs[id].status == Approved && job.status == Running)
          || (w.jobs[id].status == Running && job.status in {Completed, Failed})
    ensures ThreadsFit(setup, w.(jobs := w.jobs[id := job]))
  {
    forall i | 0 <= i < |w.threads| ensures NextFits(setup, w.jobs[id := job], w.handed, w.threads[i].next) {
      var next := w.threads[i].next;
      assert NextFits(setup, w.jobs, w.handed, next);
    }
  }

  lemma ControlKeepsInv(setup: Setup, w: World, e: Event)
    requires Inv(setup, w) && e.ControlRequest?
    ensures Inv(setup, Control(setup, w, e))
  {
    if Handlers.Admissible(e.request, setup.allowlist) && e.freshId !in w.jobs {
      Worker.StoredRequestComesBack(RequestedJob(e), e.request);
      forall i | 0 <= i < |w.threads| ensures NextFits(setup, Control(setup, w, e).jobs, w.handed, w.threads[i].next) {
        assert NextFits(setup, w.jobs, w.handed, w.threads[i].next);
      }
    }
  }

  lemma DecidedRowKeepsInv(setup: Setup, w: World, id: string, job: Job, next: Next)
    requires Inv(setup, w) && id in w.jobs && w.jobs[id].status == Queued
    requires RecordMatchesStatus(job) && job.action == w.jobs[id].action && job.target == w.jobs[id].target
    requires next.Reread? && next.id == id && next.aftermath.AfterDecision?
    requires job.status == if next.aftermath.approve then Approved else Rejected
    ensures Inv(setup, Spawn(w.(jobs := w.jobs[id := job], moves := w.moves + 1), [], next))
  {
    assert Worker.AgentRequestForJob(job) == Worker.AgentRequestForJob(w.jobs[id]);
    forall i | 0 <= i < |w.threads| ensures !Holds(w.threads[i].next, id) {
      assert NextFits(setup, w.jobs, w.handed, w.threads[i].next);
    }
    RowChangeKeepsThreads(setup, w, id, job);
  }

  lemma DecideKeepsInv(setup: Setup, w: World, e: Event)
    requires Inv(setup, w) && e.DecisionRequest?
    ensures Inv(setup, Decide(w, e))
  {
    if e.id in w.jobs && w.jobs[e.id].status == Queued {
      var job := Decide(w, e).jobs[e.id];
      assert Decide(w, e).jobs == w.jobs[e.id := job];
      DecidedRowKeepsInv(setup, w, e.id, job, Reread(e.id, AfterDecision(e.approve, e.decider, e.requestId)));
    }
  }

  lemma ClaimKeepsInv(setup: Setup, w: World, e: Event)
    requires Inv(setup, w) && e.WorkerTurn?
    ensures Inv(setup, Claim(w, e))
  {
    if NextApproved(w.jobs).Some? {
      var id := NextApproved(w.jobs).value;
      var w' := Claim(w, e);
      forall i | 0 <= i < |w.threads| ensures !Holds(w.threads[i].next, id) {
        assert NextFits(setup, w.jobs, w.handed, w.threads[i].next);
      }
      RowChangeKeepsThreads(setup, w, id, w'.jobs[id]);
      assert Worker.AgentRequestForJob(w'.jobs[id]) == Worker.AgentRequestForJob(w.jobs[id]);
    }
  }

  lemma PerformKeepsInv(setup: Setup, w: World, tid: nat)
    requires Inv(setup, w) && tid < |w.threads| && w.threads[tid].script != []
    ensures Inv(setup, Perform(w, tid))
  {
    assert forall i | 0 <= i < |w.threads| :: Perform(w, tid).threads[i].next == w.threads[i].next;
  }

  /** What the call leaves: one more handover, and a verdict that the row can take. */
  lemma HandOverShape(setup: Setup, w: World, tid: nat, e: Event) returns (h: Handover, th: Thread)
    requires Inv(setup, w) && e.Proceed? && tid < |w.threads| && w.threads[tid].next.Call?
    ensures h.id == w.threads[tid].next.id && Worker.AgentRequestForJob(w.jobs[h.id]) == Some(h.request)
    ensures HandOver(setup, w, tid, e) == w.(handed := w.handed + [h], threads := w.threads[tid := th])
    ensures th.next.Finish? && th.next.id == h.id && NextFits(setup, w.jobs, w.handed + [h], th.next)
  {
    var w' := HandOver(setup, w, tid, e);
    var job := w.threads[tid].next.job;
    assert NextFits(setup, w.jobs, w.handed, w.threads[tid].next);
    var request := Worker.AgentRequestForJob(job).value;
    var answer := Agent.Call(setup.executor, request, e.delivery, e.process);
    Worker.VerdictsAreWellFormed(answer);
    Agent.CallSucceedsIff(setup.executor, request, e.delivery, e.process);
    hide Agent.Call;
    hide Worker.AgentRequestForJob;
    h, th := w'.handed[|w.handed|], w'.threads[tid];
    assert answer == None ==> h.process == Some(e.process);
    assert (w.handed + [h])[|w.handed|] == h;
  }

  lemma HandOverKeepsInv(setup: Setup, w: World, tid: nat, e: Event)
    requires Inv(setup, w) && e.Proceed? && tid < |w.threads| && w.threads[tid].next.Call?
    ensures Inv(setup, HandOver(setup, w, tid, e))
  {
    var h, th := HandOverShape(setup, w, tid, e);
    hide HandOver;
    var w' := HandOver(setup, w, tid, e);
    HandoversGrow(setup, w, w'.handed);
    OneMoreHandover(w, tid, h, setup);
    OtherThreadsFit(setup, w, tid, h, th);
    hide Succeeded;
    hide NextFits;
    hide HandoversFit;
    hide RowsFit;
    assert CompletedFit(setup, w'.jobs, w'.handed);
    assert HoldersDistinct(w'.threads) by { SameHolder(w.threads, tid, th); }
  }

  lemma OneMoreHandover(w: World, tid: nat, h: Handover, setup: Setup)
    requires HandoversFit(w.jobs, w.handed) && ThreadsFit(setup, w)
    requires tid < |w.threads| && w.threads[tid].next.Call? && w.threads[tid].next.id == h.id
    requires h.id in w.jobs && Worker.AgentRequestForJob(w.jobs[h.id]) == Some(h.request)
    ensures HandoversFit(w.jobs, w.handed + [h])
  {
    hide Worker.AgentRequestForJob;
    assert NextFits(setup, w.jobs, w.handed, w.threads[tid].next);
    assert forall k | 0 <= k < |w.handed| :: w.handed[k].id != h.id;
  }

  lemma OtherThreadsFit(setup: Setup, w: World, tid: nat, h: Handover, th: Thread)
    requires ThreadsFit(setup, w) && HoldersDistinct(w.threads)
    requires tid < |w.threads| && w.threads[tid].next.Call? && w.threads[tid].next.id == h.id
    requires NextFits(setup, w.jobs, w.handed + [h], th.next)
    requires forall id, job :: Succeeded(setup, w.handed, id, job) ==> Succeeded(setup, w.handed + [h], id, job)
    ensures ThreadsFit(setup, w.(handed := w.handed + [h], threads := w.threads[tid := th]))
  {
    hide Succeeded;
    var w' := w.(handed := w.handed + [h], threads := w.threads[tid := th]);
    forall i | 0 <= i < |w.threads| ensures NextFits(setup, w'.jobs, w'.handed, w'.threads[i].next) {
      assert NextFits(setup, w.jobs, w.handed, w.threads[i].next);
      if i != tid {
        assert Holds(w.threads[tid].next, h.id);
        assert !Holds(w.threads[i].next, h.id);
      }
    }
  }

  lemma SameHolder(threads: seq<Thread>, tid: nat, th: Thread)
    requires HoldersDistinct(threads) && tid < |threads|
    requires forall id :: Holds(th.next, id) <==> Holds(threads[tid].next, id)
    ensures HoldersDistinct(threads[tid := th])
  {
    hide Holds;
  }

  /** Earlier successes are not forgotten when the log of handovers grows. */
  lemma HandoversGrow(setup: Setup, w: World, handed: seq<Handover>)
    requires w.handed <= handed
    ensures forall id, job :: Succeeded(setup, w.handed, id, job) ==> Succeeded(setup, handed, id, job)
  {
    forall id, job | Succeeded(setup, w.handed, id, job) ensures Succeeded(setup, handed, id, job) {
      var k :| 0 <= k < |w.handed|
        && w.handed[k].id == id
        && Worker.AgentRequestForJob(job) == Some(w.handed[k].request)
        && w.handed[k].process.Some?
        && Agent.Executed(setup.executor, w.handed[k].request, w.handed[k].process.value);
      assert handed[k] == w.handed[k];
    }
  }

  lemma ConcludeKeepsInv(setup: Setup, w: World, tid: nat)
    requires Inv(setup, w) && tid < |w.threads| && w.threads[tid].next.Finish?
    ensures Inv(setup, Conclude(w, tid))
  {
    var w' := Conclude(w, tid);
    var id, verdict := w.threads[tid].next.id, w.threads[tid].next.verdict;
    assert NextFits(setup, w.jobs, w.handed, w.threads[tid].next);
    var job := w'.jobs[id];
    assert w'.jobs == w.jobs[id := job];
    assert Worker.AgentRequestForJob(job) == Worker.AgentRequestForJob(w.jobs[id]);
    var others := w.(threads := w.threads[tid := w.threads[tid].(next := Stop)]);
    forall i | 0 <= i < |w.threads| ensures !Holds(others.threads[i].next, id) {
      assert Holds(w.threads[tid].next, id);
    }
    assert ThreadsFit(setup, others);
    RowChangeKeepsThreads(setup, others, id, job);
    forall i | 0 <= i < |w.threads| ensures NextFits(setup, w'.jobs, w'.handed, w'.threads[i].next) {
      if i != tid {
        assert w'.threads[i] == others.threads[i];
      }
    }
  }

  lemma ReportKeepsInv(setup: Setup, w: World, tid: nat)
    requires Inv(setup, w) && tid < |w.threads| && w.threads[tid].next.Reread?
    ensures Inv(setup, Report(w, tid))
  {
  }

  lemma StepKeepsInv(setup: Setup, w: World, e: Event)
    requires Inv(setup, w)
    ensures Inv(setup, Step(setup, w, e))
  {
    match e
    case ControlRequest(_, _, _, _, _) => ControlKeepsInv(setup, w, e);
    case DecisionRequest(_, _, _, _, _, _) => DecideKeepsInv(setup, w, e);
    case WorkerTurn(_) => ClaimKeepsInv(setup, w, e);
    case Die(tid) =>
      assert forall i | 0 <= i < |w.threads| :: Step(setup, w, e).threads[i].next == w.threads[i].next;
    case Proceed(tid, _, _) =>
      if tid < |w.threads| && w.threads[tid].alive {
        if w.threads[tid].script != [] {
          PerformKeepsInv(setup, w, tid);
        } else if w.threads[tid].next.Call? {
          HandOverKeepsInv(setup, w, tid, e);
        } else if w.threads[tid].next.Finish? {
          ConcludeKeepsInv(setup, w, tid);
        } else if w.threads[tid].next.Reread? {
          ReportKeepsInv(setup, w, tid);
        }
      }
  }

  lemma {:induction false} RunKeepsInv(setup: Setup, w: World, events: seq<Event>)
    requires Inv(setup, w)
    ensures Inv(setup, After(setup, w, events))
  {
    if events != [] {
      RunKeepsInv(setup, w, events[..|events| - 1]);
      StepKeepsInv(setup, After(setup, w, events[..|events| - 1]), events[|events| - 1]);
    }
  }
}
