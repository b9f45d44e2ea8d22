/** Threads left to themselves: a request or a worker turn that nothing disturbs does what its method does. */
module JobTurns {
  import opened Wrappers
  import opened Jobs
  import opened JobRuns
  import opened JobSafety
  import opened Observability
  import Audit
  import Agent
  import Worker
  import Handlers
  import Timestamps

  /** The same event n times. */
  function Again(e: Event, n: nat): seq<Event>
  {
    seq(n, i => e)
  }

  ghost function Go(setup: Setup, w: World, e: Event, n: nat): World
  {
    After(setup, w, Again(e, n))
  }

  lemma GoOn(setup: Setup, w: World, e: Event, a: nat, b: nat)
    ensures Go(setup, w, e, a + b) == Go(setup, Go(setup, w, e, a), e, b)
  {
    assert Again(e, a + b) == Again(e, a) + Again(e, b);
    AfterSplits(setup, w, Again(e, a), Again(e, b));
  }

  lemma GoOnce(setup: Setup, w: World, e: Event)
    ensures Go(setup, w, e, 1) == Step(setup, w, e)
  {
    assert Again(e, 1)[..0] == [];
    assert After(setup, w, []) == w;
  }

  lemma ReachedOn(setup: Setup, events: seq<Event>, e: Event, n: nat)
    ensures Reached(setup, events + Again(e, n)) == Go(setup, Reached(setup, events), e, n)
  {
    AfterSplits(setup, START, events, Again(e, n));
  }

  // ---------------------------------------------------------------- effects of one thread

  function EventsOf(effects: seq<Effect>): seq<Audit.Event>
  {
    if effects == [] then []
    else (if effects[0].Log? then [effects[0].event] else []) + EventsOf(effects[1..])
  }

  /** Recording an event counts an audit write. */
  function CountersOf(effects: seq<Effect>): seq<string>
  {
    if effects == [] then []
    else [if effects[0].Inc? then effects[0].name else AUDIT_WRITES] + CountersOf(effects[1..])
  }

  lemma {:induction false} EventsAppend(a: seq<Effect>, b: seq<Effect>)
    ensures EventsOf(a + b) == EventsOf(a) + EventsOf(b)
  {
    if a == [] {
      assert a + b == b;
    } else {
      assert (a + b)[1..] == a[1..] + b;
      EventsAppend(a[1..], b);
      var first := if a[0].Log? then [a[0].event] else [];
      assert first + (EventsOf(a[1..]) + EventsOf(b)) == first + EventsOf(a[1..]) + EventsOf(b);
    }
  }

  lemma {:induction false} CountersAppend(a: seq<Effect>, b: seq<Effect>)
    ensures CountersOf(a + b) == CountersOf(a) + CountersOf(b)
  {
    if a == [] {
      assert a + b == b;
    } else {
      assert (a + b)[1..] == a[1..] + b;
      CountersAppend(a[1..], b);
      var first := [if a[0].Inc? then a[0].name else AUDIT_WRITES];
      assert first + (CountersOf(a[1..]) + CountersOf(b)) == first + CountersOf(a[1..]) + CountersOf(b);
    }
  }

  lemma OneMark(x: Effect)
    ensures EventsOf([x]) == if x.Log? then [x.event] else []
    ensures CountersOf([x]) == [if x.Inc? then x.name else AUDIT_WRITES]
  {
    assert [x][1..] == [];
  }

  lemma TwoMarks(x: Effect, y: Effect)
    ensures EventsOf([x, y]) == EventsOf([x]) + EventsOf([y])
    ensures CountersOf([x, y]) == CountersOf([x]) + CountersOf([y])
  {
    EventsAppend([x], [y]);
    CountersAppend([x], [y]);
    assert [x, y] == [x] + [y];
  }

  lemma EffectsOfThree(name: string, one: Audit.Event, two: Audit.Event)
    ensures EventsOf([Inc(name), Log(one), Log(two)]) == [one, two]
    ensures CountersOf([Inc(name), Log(one), Log(two)]) == [name, AUDIT_WRITES, AUDIT_WRITES]
  {
    OneMark(Inc(name));
    OneMark(Log(one));
    OneMark(Log(two));
    TwoMarks(Log(one), Log(two));
    EventsAppend([Inc(name)], [Log(one), Log(two)]);
    CountersAppend([Inc(name)], [Log(one), Log(two)]);
    assert [Inc(name), Log(one), Log(two)] == [Inc(name)] + [Log(one), Log(two)];
  }

  // ---------------------------------------------------------------- running on

  /** A living thread performs its whole script and stops before its next statement. */
  lemma {:induction false} ScriptRuns(setup: Setup, w: World, e: Event)
    requires e.Proceed? && e.tid < |w.threads| && w.threads[e.tid].alive
    ensures var th := w.threads[e.tid];
            Go(setup, w, e, |th.script|)
            == w.(performed := w.performed + th.script, threads := w.threads[e.tid := th.(script := [])])
    decreases |w.threads[e.tid].script|
  {
    var th := w.threads[e.tid];
    if th.script == [] {
      assert Again(e, 0) == [];
      assert w.performed + th.script == w.performed && w.threads[e.tid := th.(script := [])] == w.threads;
    } else {
      var one := Perform(w, e.tid);
      GoOnce(setup, w, e);
      GoOn(setup, w, e, 1, |th.script| - 1);
      ScriptRuns(setup, one, e);
      assert w.performed + [th.script[0]] + th.script[1..] == w.performed + th.script;
      assert one.threads[e.tid := th.(script := [])] == w.threads[e.tid := th.(script := [])];
    }
  }

  /** The script, and then the next statement. */
  lemma ScriptThenStep(setup: Setup, w: World, e: Event) returns (ready: World)
    requires e.Proceed? && e.tid < |w.threads| && w.threads[e.tid].alive
    ensures var th := w.threads[e.tid];
            && ready == w.(performed := w.performed + th.script, threads := w.threads[e.tid := th.(script := [])])
            && Go(setup, w, e, |th.script| + 1) == Step(setup, ready, e)
  {
    var th := w.threads[e.tid];
    ready := w.(performed := w.performed + th.script, threads := w.threads[e.tid := th.(script := [])]);
    ScriptRuns(setup, w, e);
    GoOn(setup, w, e, |th.script|, 1);
    GoOnce(setup, ready, e);
  }

  /** A thread that has hit its row reads it again, counts and records, and is done. */
  lemma UpdateIsReported(setup: Setup, w: World, e: Event) returns (n: nat)
    requires e.Proceed? && e.tid < |w.threads| && w.threads[e.tid].alive
    requires w.threads[e.tid].script == [] && w.threads[e.tid].next.Reread? && w.threads[e.tid].next.id in w.jobs
    ensures var next := w.threads[e.tid].next;
            Go(setup, w, e, n)
            == w.(performed := w.performed + AftermathEffects(next.aftermath, Row(next.id, w.jobs[next.id])),
                  threads := w.threads[e.tid := Thread(true, [], Stop)])
  {
    hide *;
    var told := Step(setup, w, e);
    Reports(setup, w, e);
    GoOnce(setup, w, e);
    var tail := |told.threads[e.tid].script|;
    GoOn(setup, w, e, 1, tail);
    ScriptRuns(setup, told, e);
    n := 1 + tail;
    assert told.threads[e.tid := Thread(true, [], Stop)] == w.threads[e.tid := Thread(true, [], Stop)];
  }

  lemma Reports(setup: Setup, w: World, e: Event)
    requires e.Proceed? && e.tid < |w.threads| && w.threads[e.tid].alive
    requires w.threads[e.tid].script == [] && w.threads[e.tid].next.Reread? && w.threads[e.tid].next.id in w.jobs
    ensures var next := w.threads[e.tid].next;
            Step(setup, w, e)
            == w.(threads := w.threads[e.tid := Thread(true, AftermathEffects(next.aftermath, Row(next.id, w.jobs[next.id])), Stop)])
  {
    hide AftermathEffects;
  }

  lemma CallFits(setup: Setup, w: World, tid: nat)
    requires Inv(setup, w) && tid < |w.threads| && w.threads[tid].next.Call?
    ensures var id, job := w.threads[tid].next.id, w.threads[tid].next.job;
            id in w.jobs && w.jobs[id] == job && job.status == Running && Worker.AgentRequestForJob(job).Some?
  {
    assert NextFits(setup, w.jobs, w.handed, w.threads[tid].next);
  }

  function Finished(w: World, id: string, verdict: Worker.Verdict): Row
    requires id in w.jobs
  {
    Row(id, w.jobs[id].(status := verdict.status, statusReason := verdict.reason))
  }

  /** A thread with a verdict writes it, reports it and is done. */
  lemma VerdictIsWritten(setup: Setup, w: World, e: Event) returns (n: nat)
    requires e.Proceed? && e.tid < |w.threads| && w.threads[e.tid].alive && w.threads[e.tid].next.Finish?
    requires w.threads[e.tid].next.id in w.jobs && w.jobs[w.threads[e.tid].next.id].status == Running
    ensures var th := w.threads[e.tid];
            var row := Finished(w, th.next.id, th.next.verdict);
            Go(setup, w, e, n)
            == w.(jobs := w.jobs[row.id := row.job], moves := w.moves + 1,
                  performed := w.performed + th.script + AftermathEffects(AfterFinish(th.next.verdict), row),
                  threads := w.threads[e.tid := Thread(true, [], Stop)])
  {
    hide *;
    var th := w.threads[e.tid];
    var ready := ScriptThenStep(setup, w, e);
    var done := Step(setup, ready, e);
    var row := Finished(w, th.next.id, th.next.verdict);
    Concludes(setup, ready, e);
    SameFinish(w, ready, th.next.id, th.next.verdict);
    var tail := UpdateIsReported(setup, done, e);
    GoOn(setup, w, e, |th.script| + 1, tail);
    n := |th.script| + 1 + tail;
    assert done.threads[e.tid := Thread(true, [], Stop)] == w.threads[e.tid := Thread(true, [], Stop)];
  }

  lemma Concludes(setup: Setup, w: World, e: Event)
    requires e.Proceed? && e.tid < |w.threads| && w.threads[e.tid].alive && w.threads[e.tid].next.Finish?
    requires w.threads[e.tid].script == []
    requires w.threads[e.tid].next.id in w.jobs && w.jobs[w.threads[e.tid].next.id].status == Running
    ensures var id, verdict := w.threads[e.tid].next.id, w.threads[e.tid].next.verdict;
            Step(setup, w, e)
            == w.(jobs := w.jobs[id := Finished(w, id, verdict).job], moves := w.moves + 1,
                  threads := w.threads[e.tid := Thread(true, [], Reread(id, AfterFinish(verdict)))])
    ensures Finished(w, w.threads[e.tid].next.id, w.threads[e.tid].next.verdict).id == w.threads[e.tid].next.id
  {
  }

  lemma SameFinish(w: World, v: World, id: string, verdict: Worker.Verdict)
    requires id in w.jobs && v.jobs == w.jobs
    ensures Finished(v, id, verdict) == Finished(w, id, verdict)
    ensures Finished(w, id, verdict) == Row(id, Finished(w, id, verdict).job)
  {
  }

  /** A thread that holds a job and has not called the agent yet calls it. */
  lemma CallIsMade(setup: Setup, w: World, e: Event) returns (n: nat)
    requires e.Proceed? && e.tid < |w.threads| && w.threads[e.tid].alive && w.threads[e.tid].next.Call?
    requires Worker.AgentRequestForJob(w.threads[e.tid].next.job).Some?
    ensures var th := w.threads[e.tid];
            var request := Worker.AgentRequestForJob(th.next.job).value;
            var answer := Agent.Call(setup.executor, request, e.delivery, e.process);
               Go(setup, w, e, n)
               == w.(performed := w.performed + th.script,
                     handed := w.handed + [Handover(th.next.id, request, Agent.Ran(setup.executor, request, e.delivery, e.process))],
                     threads := w.threads[e.tid := Thread(true, CallEffects(answer), Finish(th.next.id, Worker.VerdictOf(answer)))])
  {
    var th := w.threads[e.tid];
    var ready := ScriptThenStep(setup, w, e);
    n := |th.script| + 1;
    hide Agent.Call;
    hide Agent.Ran;
    assert Step(setup, ready, e) == HandOver(setup, ready, e.tid, e);
  }

  // ---------------------------------------------------------------- whole turns and requests

  /** The answers of the agent when every call is delivered and run in this way. */
  function Answers(setup: Setup, e: Event): Worker.Controller
    requires e.Proceed?
  {
    request => Agent.Call(setup.executor, request, e.delivery, e.process)
  }

  /** From a claimed job to the finished row, by a thread that nothing disturbs. */
  lemma TurnCompletes(setup: Setup, w: World, e: Event) returns (n: nat)
    requires Inv(setup, w) && e.Proceed? && e.tid < |w.threads| && w.threads[e.tid].alive && w.threads[e.tid].next.Call?
    ensures var th := w.threads[e.tid];
            && th.next.id in w.jobs && w.jobs[th.next.id] == th.next.job && Worker.AgentRequestForJob(th.next.job).Some?
            && var request := Worker.AgentRequestForJob(th.next.job).value;
               var answer := Agent.Call(setup.executor, request, e.delivery, e.process);
               var row := Finished(w, th.next.id, Worker.VerdictOf(answer));
               Go(setup, w, e, n)
               == World(w.jobs[row.id := row.job],
                        w.performed + th.script + CallEffects(answer) + AftermathEffects(AfterFinish(Worker.VerdictOf(answer)), row),
                        w.threads[e.tid := Thread(true, [], Stop)],
                        w.handed + [Handover(row.id, request, Agent.Ran(setup.executor, request, e.delivery, e.process))],
                        w.moves + 1)
  {
    hide *;
    var th := w.threads[e.tid];
    CallFits(setup, w, e.tid);
    var a := CallIsMade(setup, w, e);
    var called := Go(setup, w, e, a);
    SameFinish(w, called, th.next.id, called.threads[e.tid].next.verdict);
    var b := VerdictIsWritten(setup, called, e);
    GoOn(setup, w, e, a, b);
    n := a + b;
    assert called.threads[e.tid := Thread(true, [], Stop)] == w.threads[e.tid := Thread(true, [], Stop)];
  }

  lemma CallMarks(answer: Option<Agent.AgentError>)
    ensures EventsOf(CallEffects(answer)) == []
    ensures CountersOf(CallEffects(answer))
         == if answer == None then [AGENT_RPC_REQUESTS] else [AGENT_RPC_REQUESTS, AGENT_RPC_FAILURES]
  {
    OneMark(Inc(AGENT_RPC_REQUESTS));
    OneMark(Inc(AGENT_RPC_FAILURES));
    TwoMarks(Inc(AGENT_RPC_REQUESTS), Inc(AGENT_RPC_FAILURES));
  }

  lemma ClaimMarks(row: Row)
    ensures EventsOf(ClaimEffects(row)) == [Worker.JobEvent(Audit.JOB_STARTED, Audit.ACCEPTED, row)]
    ensures CountersOf(ClaimEffects(row)) == [JOBS_CLAIMED, AUDIT_WRITES]
  {
    var event := Worker.JobEvent(Audit.JOB_STARTED, Audit.ACCEPTED, row);
    OneMark(Inc(JOBS_CLAIMED));
    OneMark(Log(event));
    TwoMarks(Inc(JOBS_CLAIMED), Log(event));
  }

  lemma FinishMarks(verdict: Worker.Verdict, row: Row)
    ensures EventsOf(AftermathEffects(AfterFinish(verdict), row)) == Worker.OutcomeEvents(verdict, row)
    ensures CountersOf(AftermathEffects(AfterFinish(verdict), row)) == Worker.FinishCounters(verdict)
  {
    var events := Worker.OutcomeEvents(verdict, row);
    EffectsOfThree(if verdict.status == Completed then JOBS_COMPLETED else JOBS_FAILED, events[0], events[1]);
    assert events == [events[0], events[1]];
  }

  lemma TurnMarks(claimed: Row, answer: Option<Agent.AgentError>, verdict: Worker.Verdict, row: Row)
    ensures var effects := ClaimEffects(claimed) + CallEffects(answer) + AftermathEffects(AfterFinish(verdict), row);
            && EventsOf(effects) == [Worker.JobEvent(Audit.JOB_STARTED, Audit.ACCEPTED, claimed)] + Worker.OutcomeEvents(verdict, row)
            && CountersOf(effects)
               == [JOBS_CLAIMED, AUDIT_WRITES]
                  + (if answer == None then [AGENT_RPC_REQUESTS] else [AGENT_RPC_REQUESTS, AGENT_RPC_FAILURES])
                  + Worker.FinishCounters(verdict)
  {
    hide *;
    var a, b, c := ClaimEffects(claimed), CallEffects(answer), AftermathEffects(AfterFinish(verdict), row);
    ClaimMarks(claimed);
    CallMarks(answer);
    FinishMarks(verdict, row);
    EventsAppend(a, b);
    EventsAppend(a + b, c);
    CountersAppend(a, b);
    CountersAppend(a + b, c);
  }

  /** The claimed row, as the claim statement and ProcessOne leave it. */
  function Claimed(jobs: Table, id: string, started: Timestamps.Instant): Row
    requires id in jobs
  {
    Row(id, jobs[id].(status := Running, statusReason := "running", startedAt := Some(Timestamps.Text(started))))
  }

  lemma ClaimShape(setup: Setup, w: World, at: Timestamps.Instant)
    requires NextApproved(w.jobs).Some?
    ensures NextApproved(w.jobs).value in w.jobs
    ensures var row := Claimed(w.jobs, NextApproved(w.jobs).value, at);
            && Step(setup, w, WorkerTurn(at))
               == w.(jobs := w.jobs[row.id := row.job], moves := w.moves + 1,
                     threads := w.threads + [Thread(true, ClaimEffects(row), Call(row.id, row.job))])
            && row.id == NextApproved(w.jobs).value
            && Worker.AgentRequestForJob(row.job) == Worker.AgentRequestForJob(w.jobs[row.id])
  {
  }

  /**
   A worker turn that nothing disturbs has exactly the row, events and counters that ProcessOne promises.
   */
  lemma UndisturbedTurn(setup: Setup, w: World, at: Timestamps.Instant, e: Event) returns (n: nat, effects: seq<Effect>)
    requires Inv(setup, w) && NextApproved(w.jobs).Some? && e.Proceed? && e.tid == |w.threads|
    ensures var id, agent := NextApproved(w.jobs).value, Answers(setup, e);
            var verdict := Worker.TurnVerdict(w.jobs[id], agent);
            var claimed := Claimed(w.jobs, id, at);
            var row := Row(id, claimed.job.(status := verdict.status, statusReason := verdict.reason));
            var v := Go(setup, Step(setup, w, WorkerTurn(at)), e, n);
            && v.jobs == w.jobs[id := row.job]
            && v.performed == w.performed + effects
            && EventsOf(effects) == [Worker.JobEvent(Audit.JOB_STARTED, Audit.ACCEPTED, claimed)] + Worker.OutcomeEvents(verdict, row)
            && CountersOf(effects) == [JOBS_CLAIMED, AUDIT_WRITES] + Worker.CallCounters(w.jobs[id], agent)
                                      + Worker.FinishCounters(verdict)
            && v.threads == w.threads + [Thread(true, [], Stop)] && v.moves == w.moves + 2
  {
    hide *;
    ClaimShape(setup, w, at);
    StepKeepsInv(setup, w, WorkerTurn(at));
    var v, claimed := Step(setup, w, WorkerTurn(at)), Claimed(w.jobs, NextApproved(w.jobs).value, at);
    n := TurnCompletes(setup, v, e);
    AnswerDecides(setup, e, w.jobs[claimed.id], claimed.job);
    var answer := Agent.Call(setup.executor, Worker.AgentRequestForJob(claimed.job).value, e.delivery, e.process);
    var verdict := Worker.VerdictOf(answer);
    var row := Row(claimed.id, claimed.job.(status := verdict.status, statusReason := verdict.reason));
    FinishedIs(v, claimed, verdict);
    var a, b, c := ClaimEffects(claimed), CallEffects(answer), AftermathEffects(AfterFinish(verdict), row);
    effects := a + b + c;
    TurnMarks(claimed, answer, verdict, row);
    assert w.performed + (a + b + c) == w.performed + a + b + c;
    assert v.threads[e.tid := Thread(true, [], Stop)] == w.threads + [Thread(true, [], Stop)];
    assert w.jobs[row.id := claimed.job][row.id := row.job] == w.jobs[row.id := row.job];
  }

  lemma FinishedIs(v: World, claimed: Row, verdict: Worker.Verdict)
    requires claimed.id in v.jobs && v.jobs[claimed.id] == claimed.job
    ensures Finished(v, claimed.id, verdict)
         == Row(claimed.id, claimed.job.(status := verdict.status, statusReason := verdict.reason))
  {
  }

  lemma AnswerDecides(setup: Setup, e: Event, job: Job, claimed: Job)
    requires e.Proceed? && Worker.AgentRequestForJob(claimed).Some?
    requires Worker.AgentRequestForJob(job) == Worker.AgentRequestForJob(claimed)
    ensures var answer := Agent.Call(setup.executor, Worker.AgentRequestForJob(claimed).value, e.delivery, e.process);
            && Worker.TurnVerdict(job, Answers(setup, e)) == Worker.VerdictOf(answer)
            && Worker.CallCounters(job, Answers(setup, e))
               == if answer == None then [AGENT_RPC_REQUESTS] else [AGENT_RPC_REQUESTS, AGENT_RPC_FAILURES]
  {
  }

  // ---------------------------------------------------------------- requests

  /** What a request that nothing disturbs leaves, as effects of a thread of its own. */
  ghost predicate Serves(setup: Setup, w: World, request: Event, e: Event, n: nat, jobs: Table, moves: nat, effects: seq<Effect>)
    requires e.Proceed?
  {
    Go(setup, Step(setup, w, request), e, n)
    == w.(jobs := jobs, moves := moves, performed := w.performed + effects, threads := w.threads + [Thread(true, [], Stop)])
  }

  lemma AdmittedControl(setup: Setup, w: World, c: Event, e: Event) returns (effects: seq<Effect>)
    requires c.ControlRequest? && Handlers.Admissible(c.request, setup.allowlist) && c.freshId !in w.jobs
    requires e.Proceed? && e.tid == |w.threads|
    ensures Serves(setup, w, c, e, |effects|, w.jobs[c.freshId := RequestedJob(c)], w.moves, effects)
    ensures EventsOf(effects) == Handlers.CreationEvents(c.request, Row(c.freshId, RequestedJob(c)), c.user, c.requestId)
    ensures CountersOf(effects) == [JOBS_CREATED, AUDIT_WRITES, AUDIT_WRITES]
  {
    var v := Step(setup, w, c);
    effects := v.threads[e.tid].script;
    ScriptRuns(setup, v, e);
    var events := Handlers.CreationEvents(c.request, Row(c.freshId, RequestedJob(c)), c.user, c.requestId);
    EffectsOfThree(JOBS_CREATED, events[0], events[1]);
    assert events == [events[0], events[1]];
    assert v.threads[e.tid := Thread(true, [], Stop)] == w.threads + [Thread(true, [], Stop)];
  }

  /** A request that only leaves one event. */
  lemma OneEvent(setup: Setup, w: World, request: Event, e: Event, event: Audit.Event)
    requires e.Proceed? && e.tid == |w.threads| && Step(setup, w, request) == Spawn(w, [Log(event)], Stop)
    ensures Serves(setup, w, request, e, 1, w.jobs, w.moves, [Log(event)])
    ensures EventsOf([Log(event)]) == [event] && CountersOf([Log(event)]) == [AUDIT_WRITES]
  {
    var v := Spawn(w, [Log(event)], Stop);
    ScriptRuns(setup, v, e);
    OneMark(Log(event));
    hide Step;
    assert v.threads[e.tid := Thread(true, [], Stop)] == w.threads + [Thread(true, [], Stop)];
  }

  /**
   A control request that nothing disturbs has exactly the row, events and counters that its handler promises:
   admitted, refused, or drawn under a taken id.
   */
  lemma UndisturbedControl(setup: Setup, w: World, c: Event, e: Event) returns (effects: seq<Effect>)
    requires c.ControlRequest? && e.Proceed? && e.tid == |w.threads|
    ensures !Handlers.Admissible(c.request, setup.allowlist) ==>
              && Serves(setup, w, c, e, |effects|, w.jobs, w.moves, effects)
              && EventsOf(effects) == [Handlers.RefusalEvent(c.request, c.user, c.requestId)] && CountersOf(effects) == [AUDIT_WRITES]
    ensures Handlers.Admissible(c.request, setup.allowlist) && c.freshId in w.jobs ==> Step(setup, w, c) == w && effects == []
    ensures Handlers.Admissible(c.request, setup.allowlist) && c.freshId !in w.jobs ==>
              var job := NewQueuedJob(c.user, Worker.SERVICE_PREFIX + c.request.action, c.request.service, c.requestId,
                                      Timestamps.Text(c.at));
              && Serves(setup, w, c, e, |effects|, w.jobs[c.freshId := job], w.moves, effects)
              && EventsOf(effects) == Handlers.CreationEvents(c.request, Row(c.freshId, job), c.user, c.requestId)
              && CountersOf(effects) == [JOBS_CREATED, AUDIT_WRITES, AUDIT_WRITES]
  {
    hide Go, Serves, EventsOf, CountersOf;
    effects := [];
    if !Handlers.Admissible(c.request, setup.allowlist) {
      var event := Handlers.RefusalEvent(c.request, c.user, c.requestId);
      OneEvent(setup, w, c, e, event);
      effects := [Log(event)];
    } else if c.freshId !in w.jobs {
      effects := AdmittedControl(setup, w, c, e);
    }
  }

  function DecidedJobs(w: World, d: Event): Table
    requires d.DecisionRequest? && d.id in w.jobs
  {
    if d.approve then ApproveStatement(w.jobs, d.id, d.decider, Timestamps.Text(d.at), d.reason)
    else RejectStatement(w.jobs, d.id, d.decider, Timestamps.Text(d.at), d.reason)
  }

  lemma QueuedDecision(setup: Setup, w: World, d: Event, e: Event) returns (n: nat, effects: seq<Effect>)
    requires d.DecisionRequest? && d.id in w.jobs && w.jobs[d.id].status == Queued
    requires e.Proceed? && e.tid == |w.threads|
    ensures var jobs := DecidedJobs(w, d);
            && d.id in jobs && Serves(setup, w, d, e, n, jobs, w.moves + 1, effects)
            && EventsOf(effects) == Handlers.DecisionEvents(d.approve, Row(d.id, jobs[d.id]), Some(d.decider), d.requestId)
            && CountersOf(effects) == [if d.approve then JOBS_APPROVED else JOBS_REJECTED, AUDIT_WRITES, AUDIT_WRITES]
  {
    var v := Step(setup, w, d);
    n := UpdateIsReported(setup, v, e);
    var row := Row(d.id, v.jobs[d.id]);
    effects := AftermathEffects(v.threads[e.tid].next.aftermath, row);
    var events := Handlers.DecisionEvents(d.approve, row, Some(d.decider), d.requestId);
    EffectsOfThree(if d.approve then JOBS_APPROVED else JOBS_REJECTED, events[0], events[1]);
    assert events == [events[0], events[1]];
    assert v.threads[e.tid := Thread(true, [], Stop)] == w.threads + [Thread(true, [], Stop)];
  }

  /** So has a decision: on a queued job, on one that is not queued any more, or on none. */
  lemma UndisturbedDecision(setup: Setup, w: World, d: Event, e: Event) returns (n: nat, effects: seq<Effect>)
    requires d.DecisionRequest? && e.Proceed? && e.tid == |w.threads|
    ensures d.id !in w.jobs ==> Step(setup, w, d) == w && effects == []
    ensures d.id in w.jobs && w.jobs[d.id].status != Queued ==>
              && Serves(setup, w, d, e, n, w.jobs, w.moves, effects)
              && EventsOf(effects) == [Handlers.DenialEvent(d.id, Some(d.decider), d.requestId)] && CountersOf(effects) == [AUDIT_WRITES]
    ensures d.id in w.jobs && w.jobs[d.id].status == Queued ==>
              var jobs := DecidedJobs(w, d);
              && d.id in jobs && Serves(setup, w, d, e, n, jobs, w.moves + 1, effects)
              && EventsOf(effects) == Handlers.DecisionEvents(d.approve, Row(d.id, jobs[d.id]), Some(d.decider), d.requestId)
              && CountersOf(effects) == [if d.approve then JOBS_APPROVED else JOBS_REJECTED, AUDIT_WRITES, AUDIT_WRITES]
  {
    hide Go, Serves, EventsOf, CountersOf, DecidedJobs;
    n, effects := 0, [];
    if d.id in w.jobs && w.jobs[d.id].status != Queued {
      var event := Handlers.DenialEvent(d.id, Some(d.decider), d.requestId);
      OneEvent(setup, w, d, e, event);
      n, effects := 1, [Log(event)];
    } else if d.id in w.jobs {
      n, effects := QueuedDecision(setup, w, d, e);
    }
  }
}
