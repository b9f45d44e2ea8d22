/** Where rows and audit events come from: every one leads back to the request that caused it, field by field. */
module JobEvents {
  import opened Wrappers
  import opened Jobs
  import opened JobRuns
  import opened JobProgress
  import opened JobSafety
  import opened JobTurns
  import Agent
  import Audit
  import Handlers
  import Timestamps
  import Worker

  // ---------------------------------------------------------------- rows

  /** The request that creates this row. */
  predicate Asks(q: Event, id: string, job: Job)
  {
    && q.ControlRequest? && q.freshId == id
    && job.createdBy == q.user && job.requestId == q.requestId && job.createdAt == Timestamps.Text(q.at)
    && job.action == "service." + q.request.action && job.target == q.request.service
  }

  predicate SameOrigin(a: Job, b: Job)
  {
    a.createdBy == b.createdBy && a.requestId == b.requestId && a.createdAt == b.createdAt && a.action == b.action
    && a.target == b.target
  }

  /** A step creates one row at most, as a control request asks, and no step changes where a row comes from. */
  lemma StepOrigin(setup: Setup, w: World, e: Event, id: string)
    requires id in Step(setup, w, e).jobs
    ensures if id in w.jobs then SameOrigin(w.jobs[id], Step(setup, w, e).jobs[id])
            else Asks(e, id, Step(setup, w, e).jobs[id]) && Handlers.Admissible(e.request, setup.allowlist)
  {
    hide CreationEffects, AftermathEffects, ClaimEffects, CallEffects, Handlers.Admissible;
  }

  /** Every job was created by one admissible control request that drew its id, and keeps that request's fields. */
  lemma {:induction false} RowWasRequested(setup: Setup, events: seq<Event>, id: string) returns (k: nat)
    requires id in Reached(setup, events).jobs
    ensures k < |events| && Asks(events[k], id, Reached(setup, events).jobs[id])
    ensures Handlers.Admissible(events[k].request, setup.allowlist) && id !in Reached(setup, events[..k]).jobs
  {
    hide *;
    NothingAtStart(setup, events, id);
    var before, last := events[..|events| - 1], events[|events| - 1];
    ReachedStep(setup, events);
    StepOrigin(setup, Reached(setup, before), last, id);
    if id in Reached(setup, before).jobs {
      k := RowWasRequested(setup, before, id);
      assert before[..k] == events[..k];
      SameOriginAsked(events[k], id, Reached(setup, before).jobs[id], Reached(setup, events).jobs[id]);
    } else {
      k := |events| - 1;
    }
  }

  lemma SameOriginAsked(q: Event, id: string, a: Job, b: Job)
    requires Asks(q, id, a) && SameOrigin(a, b)
    ensures Asks(q, id, b)
  {
  }

  // ---------------------------------------------------------------- events

  predicate FailureEvent(action: string, reason: string)
  {
    && (action == "job.mutation_disabled" <==> reason == "mutation_disabled")
    && (action == "job.command_failed" <==> reason == "command_failed")
    && (action == "job.command_timeout" <==> reason == "command_timeout")
    && action in {"job.failed", "job.mutation_disabled", "job.command_failed", "job.command_timeout"}
  }

  /** An event of the worker about a job: started, how it ended, or that its status changed by ending. */
  predicate WorkerTells(id: string, job: Job, event: Audit.Event)
  {
    && event.user == None && event.target == "jobs:" + id && event.requestId == job.requestId
    && (|| (job.status in {Running, Completed, Failed} && event.action == "job.started"
            && event.outcome == "accepted" && event.reason == "running")
        || (job.status == Completed && event.action == "job.completed" && event.outcome == "success" && event.reason == "completed")
        || (job.status == Failed && FailureEvent(event.action, event.reason) && event.outcome == "failure"
            && event.reason == job.statusReason)
        || (job.status in {Completed, Failed} && event.action == "job.status_changed" && event.outcome == "accepted"
            && event.reason == job.statusReason))
  }

  /** An event of a control request: refused for a reason, or a job created and queued. */
  predicate ControlTells(q: Event, event: Audit.Event)
  {
    && q.ControlRequest? && event.user == q.user && event.requestId == q.requestId
    && event.target == q.request.service + ":" + q.request.action
    && (|| (event.action in {"job.created", "job.status_changed"} && event.outcome == "accepted" && event.reason == "queued")
        || (event.action == "service.control" && Handlers.RefusedWith(q.request, event.outcome, event.reason)))
  }

  /** An event of a decision: denied, or decided, with the status found when the row is read again. */
  predicate DecisionTells(q: Event, event: Audit.Event)
  {
    && q.DecisionRequest? && event.user == Some(q.decider) && event.requestId == q.requestId && event.target == "jobs:" + q.id
    && (|| (event.action == "job.approval_denied" && event.outcome == "denied" && event.reason == "invalid_status")
        || (q.approve && event.action in {"job.approved", "job.status_changed"} && event.outcome == "accepted"
            && event.reason in {"approved", "running", "completed", "failed"})
        || (!q.approve && event.action == "job.rejected" && event.outcome == "rejected" && event.reason == "rejected")
        || (!q.approve && event.action == "job.status_changed" && event.outcome == "accepted" && event.reason == "rejected"))
  }

  predicate RequestTells(q: Event, event: Audit.Event)
  {
    ControlTells(q, event) || DecisionTells(q, event)
  }

  ghost predicate Told(events: seq<Event>, jobs: Table, event: Audit.Event)
  {
    (exists id :: id in jobs && WorkerTells(id, jobs[id], event)) || (exists k :: 0 <= k < |events| && RequestTells(events[k], event))
  }

  ghost predicate AllTold(events: seq<Event>, jobs: Table, effects: seq<Effect>)
  {
    forall i | 0 <= i < |effects| && effects[i].Log? :: Told(events, jobs, effects[i].event)
  }

  /** A decision that is still to be reported was requested. */
  predicate DecisionAsked(events: seq<Event>, next: Next)
  {
    next.Reread? && next.aftermath.AfterDecision? ==>
      exists k :: 0 <= k < |events| && Decides(events[k], next)
  }

  predicate Decides(q: Event, next: Next)
    requires next.Reread? && next.aftermath.AfterDecision?
  {
    q.DecisionRequest? && q.id == next.id && q.approve == next.aftermath.approve && q.decider == next.aftermath.user
    && q.requestId == next.aftermath.requestId
  }

  ghost predicate ThreadTold(events: seq<Event>, jobs: Table, th: Thread)
  {
    AllTold(events, jobs, th.script) && DecisionAsked(events, th.next)
  }

  ghost predicate WorldTold(events: seq<Event>, w: World)
  {
    AllTold(events, w.jobs, w.performed) && forall i | 0 <= i < |w.threads| :: ThreadTold(events, w.jobs, w.threads[i])
  }

  // ---------------------------------------------------------------- steps keep it

  ghost predicate Grows(jobs: Table, later: Table)
  {
    forall id | id in jobs :: id in later && SameOrigin(jobs[id], later[id]) && Follows(jobs[id], later[id])
  }

  lemma StepGrows(setup: Setup, w: World, e: Event)
    requires Inv(setup, w)
    ensures Grows(w.jobs, Step(setup, w, e).jobs)
  {
    hide Inv, Step;
    forall id | id in w.jobs ensures id in Step(setup, w, e).jobs && SameOrigin(w.jobs[id], Step(setup, w, e).jobs[id])
                                     && Follows(w.jobs[id], Step(setup, w, e).jobs[id]) {
      StepFollows(setup, w, e, id);
      StepOrigin(setup, w, e, id);
    }
  }

  lemma StaysTold(events: seq<Event>, more: seq<Event>, jobs: Table, later: Table, event: Audit.Event)
    requires Told(events, jobs, event) && events <= more && Grows(jobs, later)
    ensures Told(more, later, event)
  {
    if id :| id in jobs && WorkerTells(id, jobs[id], event) {
      WorkerStaysTold(id, jobs[id], later[id], event);
    } else {
      var k :| 0 <= k < |events| && RequestTells(events[k], event);
      assert more[k] == events[k];
    }
  }

  lemma WorkerStaysTold(id: string, before: Job, after: Job, event: Audit.Event)
    requires WorkerTells(id, before, event) && SameOrigin(before, after) && Follows(before, after)
    ensures WorkerTells(id, after, event)
  {
    hide FailureEvent;
  }

  lemma AllStayTold(events: seq<Event>, more: seq<Event>, jobs: Table, later: Table, effects: seq<Effect>)
    requires AllTold(events, jobs, effects) && events <= more && Grows(jobs, later)
    ensures AllTold(more, later, effects)
  {
    hide Told, Grows;
    forall i | 0 <= i < |effects| && effects[i].Log? ensures Told(more, later, effects[i].event) {
      StaysTold(events, more, jobs, later, effects[i].event);
    }
  }

  lemma ThreadStaysTold(events: seq<Event>, more: seq<Event>, jobs: Table, later: Table, th: Thread)
    requires ThreadTold(events, jobs, th) && events <= more && Grows(jobs, later)
    ensures ThreadTold(more, later, th)
  {
    AllStayTold(events, more, jobs, later, th.script);
    hide AllTold, Grows, Decides;
    if th.next.Reread? && th.next.aftermath.AfterDecision? {
      var k :| 0 <= k < |events| && Decides(events[k], th.next);
      assert more[k] == events[k];
    }
  }

  /** One thread changes or is new, the others stay. */
  lemma OneThreadTold(events: seq<Event>, more: seq<Event>, w: World, w': World, tid: nat)
    requires WorldTold(events, w) && events <= more && Grows(w.jobs, w'.jobs) && w'.performed == w.performed
    requires tid < |w'.threads| && ThreadTold(more, w'.jobs, w'.threads[tid])
    requires |w'.threads| == |w.threads| || (|w'.threads| == |w.threads| + 1 && tid == |w.threads|)
    requires forall i | 0 <= i < |w.threads| && i != tid :: w'.threads[i] == w.threads[i]
    ensures WorldTold(more, w')
  {
    AllStayTold(events, more, w.jobs, w'.jobs, w.performed);
    hide AllTold, Grows, ThreadTold;
    forall i | 0 <= i < |w'.threads| ensures ThreadTold(more, w'.jobs, w'.threads[i]) {
      if i != tid {
        ThreadStaysTold(events, more, w.jobs, w'.jobs, w.threads[i]);
      }
    }
  }

  lemma NothingNew(events: seq<Event>, more: seq<Event>, w: World)
    requires WorldTold(events, w) && events <= more
    ensures WorldTold(more, w)
  {
    AllStayTold(events, more, w.jobs, w.jobs, w.performed);
    hide AllTold, ThreadTold;
    forall i | 0 <= i < |w.threads| ensures ThreadTold(more, w.jobs, w.threads[i]) {
      ThreadStaysTold(events, more, w.jobs, w.jobs, w.threads[i]);
    }
  }

  lemma ControlEvents(q: Event, row: Row)
    requires q.ControlRequest? && row.job.status == Queued
    ensures forall i | 0 <= i < 2 :: ControlTells(q, Handlers.CreationEvents(q.request, row, q.user, q.requestId)[i])
    ensures ControlTells(q, Handlers.RefusalEvent(q.request, q.user, q.requestId))
  {
    Handlers.RefusalIsTold(q.request, q.user, q.requestId);
  }

  lemma LastTells(events: seq<Event>, q: Event, jobs: Table, event: Audit.Event)
    requires RequestTells(q, event)
    ensures Told(events + [q], jobs, event)
  {
    hide RequestTells;
    assert (events + [q])[|events|] == q;
  }

  lemma NewThreadTold(events: seq<Event>, jobs: Table, th: Thread)
    requires AllTold(events, jobs, th.script) && !th.next.Reread?
    ensures ThreadTold(events, jobs, th)
  {
    hide AllTold;
  }

  lemma ControlScriptTold(setup: Setup, events: seq<Event>, w: World, e: Event)
    requires e.ControlRequest? && Control(setup, w, e) != w
    ensures var w' := Control(setup, w, e);
            && |w'.threads| == |w.threads| + 1 && w'.threads[..|w.threads|] == w.threads && w'.performed == w.performed
            && ThreadTold(events + [e], w'.jobs, w'.threads[|w.threads|])
  {
    var w', row := Control(setup, w, e), Row(e.freshId, RequestedJob(e));
    ControlEvents(e, row);
    var event := Handlers.RefusalEvent(e.request, e.user, e.requestId);
    var created := Handlers.CreationEvents(e.request, row, e.user, e.requestId);
    LastTells(events, e, w'.jobs, event);
    LastTells(events, e, w'.jobs, created[0]);
    LastTells(events, e, w'.jobs, created[1]);
    hide Told, ControlTells, DecisionTells, Handlers.RefusalEvent, Handlers.CreationEvents, Handlers.Admissible;
  }

  lemma ControlTold(setup: Setup, events: seq<Event>, w: World, e: Event)
    requires Inv(setup, w) && WorldTold(events, w) && e.ControlRequest?
    ensures WorldTold(events + [e], Control(setup, w, e))
  {
    var w' := Control(setup, w, e);
    StepGrows(setup, w, e);
    assert w' == Step(setup, w, e);
    hide *;
    if w' == w {
      NothingNew(events, events + [e], w);
    } else {
      ControlScriptTold(setup, events, w, e);
      assert forall i | 0 <= i < |w.threads| :: w'.threads[i] == w'.threads[..|w.threads|][i];
      OneThreadTold(events, events + [e], w, w', |w.threads|);
    }
  }

  lemma DenialEventIs(q: Event)
    requires q.DecisionRequest?
    ensures DecisionTells(q, Handlers.DenialEvent(q.id, Some(q.decider), q.requestId))
  {
  }

  lemma DecideTold(setup: Setup, events: seq<Event>, w: World, e: Event)
    requires Inv(setup, w) && WorldTold(events, w) && e.DecisionRequest?
    ensures WorldTold(events + [e], Decide(w, e))
  {
    var w' := Decide(w, e);
    StepGrows(setup, w, e);
    assert w' == Step(setup, w, e);
    hide Inv, WorldTold, Grows, Step, Follows;
    if w' == w {
      NothingNew(events, events + [e], w);
    } else {
      var th := w'.threads[|w.threads|];
      DenialEventIs(e);
      LastTells(events, e, w'.jobs, Handlers.DenialEvent(e.id, Some(e.decider), e.requestId));
      hide Told, Handlers.DenialEvent, DecisionTells;
      assert AllTold(events + [e], w'.jobs, th.script);
      assert th.next.Reread? ==> Decides((events + [e])[|events|], th.next);
      OneThreadTold(events, events + [e], w, w', |w.threads|);
    }
  }

  lemma StartedEvent(row: Row)
    requires row.job.status == Running && row.job.statusReason == "running"
    ensures WorkerTells(row.id, row.job, Worker.JobEvent(Audit.JOB_STARTED, Audit.ACCEPTED, row))
  {
  }

  lemma ClaimTold(setup: Setup, events: seq<Event>, w: World, e: Event)
    requires Inv(setup, w) && WorldTold(events, w) && e.WorkerTurn?
    ensures WorldTold(events + [e], Claim(w, e))
  {
    var w' := Claim(w, e);
    StepGrows(setup, w, e);
    assert w' == Step(setup, w, e);
    hide Inv, WorldTold, Grows, Step, Follows, ThreadTold;
    if NextApproved(w.jobs) == None {
      NothingNew(events, events + [e], w);
    } else {
      var id := NextApproved(w.jobs).value;
      var row := Row(id, w'.jobs[id]);
      StartedEvent(row);
      hide Worker.JobEvent, WorkerTells;
      assert Told(events + [e], w'.jobs, Worker.JobEvent(Audit.JOB_STARTED, Audit.ACCEPTED, row));
      hide Told;
      NewThreadTold(events + [e], w'.jobs, w'.threads[|w.threads|]);
      OneThreadTold(events, events + [e], w, w', |w.threads|);
    }
  }

  lemma PerformTold(events: seq<Event>, e: Event, w: World, tid: nat)
    requires WorldTold(events, w) && tid < |w.threads| && w.threads[tid].script != []
    ensures WorldTold(events + [e], Perform(w, tid))
  {
    NothingNew(events, events + [e], w);
    var more := events + [e];
    hide Told, DecisionAsked;
    var w' := Perform(w, tid);
    assert ThreadTold(more, w.jobs, w.threads[tid]);
    assert AllTold(more, w.jobs, w'.performed);
    assert AllTold(more, w.jobs, w'.threads[tid].script);
    assert forall i | 0 <= i < |w.threads| && i != tid :: w'.threads[i] == w.threads[i];
  }

  lemma HandOverTold(setup: Setup, events: seq<Event>, w: World, tid: nat, e: Event)
    requires Inv(setup, w) && WorldTold(events, w) && e.Proceed? && tid < |w.threads| && w.threads[tid].next.Call?
    ensures WorldTold(events + [e], HandOver(setup, w, tid, e))
  {
    var w' := HandOver(setup, w, tid, e);
    hide Inv, WorldTold, Told, Agent.Call, Agent.Ran, Worker.AgentRequestForJob;
    NewThreadTold(events + [e], w'.jobs, w'.threads[tid]);
    OneThreadTold(events, events + [e], w, w', tid);
  }

  lemma ConcludeTold(setup: Setup, events: seq<Event>, w: World, tid: nat, e: Event)
    requires Inv(setup, w) && WorldTold(events, w) && e.Proceed? && e.tid == tid && tid < |w.threads|
    requires w.threads[tid].alive && w.threads[tid].script == [] && w.threads[tid].next.Finish?
    ensures WorldTold(events + [e], Conclude(w, tid))
  {
    var w' := Conclude(w, tid);
    StepGrows(setup, w, e);
    assert w' == Step(setup, w, e);
    hide Inv, WorldTold, Grows, Step, Told;
    assert ThreadTold(events + [e], w'.jobs, w'.threads[tid]);
    OneThreadTold(events, events + [e], w, w', tid);
  }

  lemma DecisionEvents(q: Event, row: Row)
    requires q.DecisionRequest? && q.id == row.id
    requires if q.approve then row.job.status in {Approved, Running, Completed, Failed} else row.job.status == Rejected
    ensures forall i | 0 <= i < 2 :: DecisionTells(q, Handlers.DecisionEvents(q.approve, row, Some(q.decider), q.requestId)[i])
  {
  }

  lemma FinishEvents(verdict: Worker.Verdict, row: Row)
    requires Worker.WellFormedVerdict(verdict) && row.job.status == verdict.status && row.job.statusReason == verdict.reason
    ensures forall i | 0 <= i < 2 :: WorkerTells(row.id, row.job, Worker.OutcomeEvents(verdict, row)[i])
  {
  }

  lemma DecisionIsTold(events: seq<Event>, jobs: Table, next: Next)
    requires next.Reread? && next.aftermath.AfterDecision? && next.id in jobs && DecisionAsked(events, next)
    requires if next.aftermath.approve then jobs[next.id].status in {Approved, Running, Completed, Failed}
             else jobs[next.id].status == Rejected
    ensures AllTold(events, jobs, AftermathEffects(next.aftermath, Row(next.id, jobs[next.id])))
  {
    var k :| 0 <= k < |events| && Decides(events[k], next);
    var row := Row(next.id, jobs[next.id]);
    DecisionEvents(events[k], row);
    hide Handlers.DecisionEvents, DecisionTells, ControlTells, WorkerTells;
    assert forall event | RequestTells(events[k], event) :: Told(events, jobs, event);
    hide Told;
  }

  lemma FinishIsTold(events: seq<Event>, jobs: Table, next: Next)
    requires next.Reread? && next.aftermath.AfterFinish? && next.id in jobs && Worker.WellFormedVerdict(next.aftermath.verdict)
    requires jobs[next.id].status == next.aftermath.verdict.status && jobs[next.id].statusReason == next.aftermath.verdict.reason
    ensures AllTold(events, jobs, AftermathEffects(next.aftermath, Row(next.id, jobs[next.id])))
  {
    var row := Row(next.id, jobs[next.id]);
    FinishEvents(next.aftermath.verdict, row);
    hide Worker.OutcomeEvents, DecisionTells, ControlTells, WorkerTells, Worker.WellFormedVerdict;
    assert forall event | WorkerTells(row.id, row.job, event) :: Told(events, jobs, event);
    hide Told;
  }

  lemma ReportTold(setup: Setup, events: seq<Event>, w: World, tid: nat, e: Event)
    requires Inv(setup, w) && WorldTold(events, w) && e.Proceed? && tid < |w.threads| && w.threads[tid].next.Reread?
    ensures WorldTold(events + [e], Report(w, tid))
  {
    var w', next, more := Report(w, tid), w.threads[tid].next, events + [e];
    assert NextFits(setup, w.jobs, w.handed, next);
    ThreadStaysTold(events, more, w.jobs, w.jobs, w.threads[tid]);
    if next.aftermath.AfterDecision? {
      DecisionIsTold(more, w.jobs, next);
    } else {
      FinishIsTold(more, w.jobs, next);
    }
    hide Inv, WorldTold, AllTold, ThreadTold, NextFits, AftermathEffects, DecisionAsked, Worker.WellFormedVerdict;
    NewThreadTold(more, w'.jobs, w'.threads[tid]);
    OneThreadTold(events, more, w, w', tid);
  }

  lemma StepTold(setup: Setup, events: seq<Event>, w: World, e: Event)
    requires Inv(setup, w) && WorldTold(events, w)
    ensures WorldTold(events + [e], Step(setup, w, e))
  {
    hide Inv, WorldTold, Control, Decide, Claim, Perform, HandOver, Conclude, Report;
    match e
    case ControlRequest(_, _, _, _, _) => ControlTold(setup, events, w, e);
    case DecisionRequest(_, _, _, _, _, _) => DecideTold(setup, events, w, e);
    case WorkerTurn(_) => ClaimTold(setup, events, w, e);
    case Die(tid) => DeathTold(setup, events, w, e);
    case Proceed(tid, _, _) =>
      if tid >= |w.threads| || !w.threads[tid].alive {
        NothingNew(events, events + [e], w);
      } else if w.threads[tid].script != [] {
        PerformTold(events, e, w, tid);
      } else if w.threads[tid].next.Call? {
        HandOverTold(setup, events, w, tid, e);
      } else if w.threads[tid].next.Finish? {
        ConcludeTold(setup, events, w, tid, e);
      } else if w.threads[tid].next.Reread? {
        ReportTold(setup, events, w, tid, e);
      } else {
        NothingNew(events, events + [e], w);
      }
  }

  lemma DeathTold(setup: Setup, events: seq<Event>, w: World, e: Event)
    requires WorldTold(events, w) && e.Die?
    ensures WorldTold(events + [e], Step(setup, w, e))
  {
    NothingNew(events, events + [e], w);
    hide AllTold, DecisionAsked;
    if e.tid < |w.threads| {
      assert ThreadTold(events + [e], w.jobs, w.threads[e.tid].(alive := false));
    }
  }

  lemma {:induction false} ReachedTold(setup: Setup, events: seq<Event>)
    ensures WorldTold(events, Reached(setup, events))
  {
    hide *;
    if events == [] {
      StartTold(setup);
    } else {
      var before, last := events[..|events| - 1], events[|events| - 1];
      ReachedTold(setup, before);
      ReachedInv(setup, before);
      StepTold(setup, before, Reached(setup, before), last);
      ReachedStep(setup, events);
      assert before + [last] == events;
    }
  }

  lemma StartTold(setup: Setup)
    ensures WorldTold([], Reached(setup, []))
  {
  }

  // ---------------------------------------------------------------- what the audit log says

  /** The event is one of the worker's: it names no user, and starts or ends a job. */
  predicate OfWorker(event: Audit.Event)
  {
    event.user == None
    && (event.action in {"job.started", "job.completed", "job.failed", "job.mutation_disabled", "job.command_failed", "job.command_timeout"}
        || (event.action == "job.status_changed" && event.reason != "queued"))
  }

  /**
   Every recorded event was caused by a request of the run, whose user, request id and target it carries, or tells what
   happened to a job, with the job's own request id and its final reason.
   */
  lemma EveryEventIsTold(setup: Setup, events: seq<Event>, i: nat)
    requires i < |Reached(setup, events).performed| && Reached(setup, events).performed[i].Log?
    ensures var w := Reached(setup, events);
            var event := w.performed[i].event;
            || (exists id :: id in w.jobs && WorkerTells(id, w.jobs[id], event))
            || (exists k :: 0 <= k < |events| && RequestTells(events[k], event))
  {
    ReachedTold(setup, events);
    hide Reached, RequestTells, WorkerTells;
    assert Told(events, Reached(setup, events).jobs, Reached(setup, events).performed[i].event);
  }

  /** Every event of the worker tells of a job, and carries the request id of the control request that created that job. */
  lemma WorkerEventsCarryTheRequest(setup: Setup, events: seq<Event>, i: nat) returns (id: string, k: nat)
    requires i < |Reached(setup, events).performed| && Reached(setup, events).performed[i].Log?
    requires OfWorker(Reached(setup, events).performed[i].event)
    ensures var w := Reached(setup, events);
            var event := w.performed[i].event;
            && id in w.jobs && WorkerTells(id, w.jobs[id], event)
            && k < |events| && Asks(events[k], id, w.jobs[id]) && Handlers.Admissible(events[k].request, setup.allowlist)
            && id !in Reached(setup, events[..k]).jobs
            && event.requestId == events[k].requestId
  {
    EveryEventIsTold(setup, events, i);
    var event := Reached(setup, events).performed[i].event;
    forall q | RequestTells(q, event) ensures false {
      RequestsAreNotWorkers(q, event);
    }
    hide Reached, RequestTells, OfWorker;
    id :| id in Reached(setup, events).jobs && WorkerTells(id, Reached(setup, events).jobs[id], event);
    k := RowWasRequested(setup, events, id);
    hide Handlers.Admissible;
  }

  lemma RequestsAreNotWorkers(q: Event, event: Audit.Event)
    requires OfWorker(event)
    ensures !RequestTells(q, event)
  {
    hide Handlers.RefusedWith;
  }

  // ---------------------------------------------------------------- an approval told late

  /** In the run to the agent's door, the approving request has not read its row again yet. */
  lemma ApprovalIsUnread(setup: Setup, request: Agent.Request)
    requires Handlers.Admissible(request, setup.allowlist)
    ensures var w := Reached(setup, Opening(request));
            |w.threads| == 3 && w.threads[1] == Thread(true, [], Reread(JOB, AfterDecision(true, 1, "")))
  {
    var events := Opening(request);
    assert events[..2] == [events[0], events[1]] && events[..2][..1] == [events[0]] && [events[0]][..0] == [];
    assert After(setup, START, []) == START;
    var w1 := Step(setup, START, events[0]);
    assert Reached(setup, [events[0]]) == w1;
    var w2 := Step(setup, w1, events[1]);
    assert Reached(setup, events[..2]) == w2;
    OpeningClaims(setup, request);
  }

  /**
   A run in which the events of an approval say that the job is running: the worker claims it before the approving
   request reads the row again.
   */
  lemma ApprovalCanSayRunning(setup: Setup, request: Agent.Request) returns (events: seq<Event>, i: nat)
    requires Handlers.Admissible(request, setup.allowlist)
    ensures i < |Reached(setup, events).performed|
    ensures Reached(setup, events).performed[i] == Log(Audit.Event(Some(1), "job.approved", "jobs:" + JOB, "accepted", "running", ""))
  {
    OpeningClaims(setup, request);
    ApprovalIsUnread(setup, request);
    hide Opening, Reached, Go, Again;
    var w, e := Reached(setup, Opening(request)), Proceed(1, Agent.Delivered, Agent.Command.Unstarted(false));
    var n := UpdateIsReported(setup, w, e);
    events := Opening(request) + Again(e, n);
    ReachedOn(setup, Opening(request), e, n);
    i := |w.performed| + 1;
  }
}
