/** What the reason of a failed job says about the command: whether it was started, and whether it can have succeeded. */
module JobOutcomes {
  import opened Wrappers
  import opened Jobs
  import opened JobRuns
  import opened JobSafety
  import opened JobTurns
  import opened JobProgress
  import Agent
  import Command
  import Worker
  import Handlers

  // ---------------------------------------------------------------- the invariant

  /** A call was made for the job, and the reason is that of an error which explains this call. */
  predicate ReasonFits(setup: Setup, handed: seq<Handover>, id: string, reason: string)
  {
    exists k, error ::
      && 0 <= k < |handed| && handed[k].id == id
      && Agent.Explains(setup.executor, handed[k].request, handed[k].process, error)
      && Worker.AgentFailure(error).reason == reason
  }

  predicate FailuresFit(setup: Setup, jobs: Table, handed: seq<Handover>)
  {
    forall id | id in jobs && jobs[id].status == Failed :: ReasonFits(setup, handed, id, jobs[id].statusReason)
  }

  predicate VerdictsFit(setup: Setup, w: World)
  {
    forall i | 0 <= i < |w.threads| && w.threads[i].next.Finish? && w.threads[i].next.verdict.status == Failed ::
      ReasonFits(setup, w.handed, w.threads[i].next.id, w.threads[i].next.verdict.reason)
  }

  lemma ReasonsStay(setup: Setup, handed: seq<Handover>, longer: seq<Handover>, id: string, reason: string)
    requires handed <= longer && ReasonFits(setup, handed, id, reason)
    ensures ReasonFits(setup, longer, id, reason)
  {
    var k, error :| 0 <= k < |handed| && handed[k].id == id
      && Agent.Explains(setup.executor, handed[k].request, handed[k].process, error)
      && Worker.AgentFailure(error).reason == reason;
    assert longer[k] == handed[k];
  }

  lemma CallFitsReason(setup: Setup, w: World, tid: nat, e: Event)
    requires Inv(setup, w) && e.Proceed? && tid < |w.threads| && w.threads[tid].next.Call?
    ensures var w' := HandOver(setup, w, tid, e);
            && w.handed <= w'.handed && w'.jobs == w.jobs && |w'.threads| == |w.threads|
            && (forall i | 0 <= i < |w.threads| && i != tid :: w'.threads[i] == w.threads[i])
            && w'.threads[tid].next.Finish?
            && (w'.threads[tid].next.verdict.status == Failed ==>
                  ReasonFits(setup, w'.handed, w'.threads[tid].next.id, w'.threads[tid].next.verdict.reason))
  {
    CallFits(setup, w, tid);
    var w' := HandOver(setup, w, tid, e);
    var request := Worker.AgentRequestForJob(w.threads[tid].next.job).value;
    var answer := Agent.Call(setup.executor, request, e.delivery, e.process);
    var ran := Agent.Ran(setup.executor, request, e.delivery, e.process);
    hide Inv;
    hide Worker.AgentRequestForJob;
    if answer.Some? {
      assert Agent.FailsWith(setup.executor, request, e.delivery, e.process, ran, answer.value);
      Agent.FailedCallIsExplained(setup.executor, request, e.delivery, e.process, ran, answer.value);
      hide Agent.Call;
      hide Agent.Ran;
      hide Agent.Explains;
      assert w'.handed[|w.handed|] == Handover(w.threads[tid].next.id, request, ran);
    }
  }

  lemma HandOverKeepsFit(setup: Setup, w: World, tid: nat, e: Event)
    requires Inv(setup, w) && FailuresFit(setup, w.jobs, w.handed) && VerdictsFit(setup, w)
    requires e.Proceed? && tid < |w.threads| && w.threads[tid].next.Call?
    ensures var w' := HandOver(setup, w, tid, e); FailuresFit(setup, w'.jobs, w'.handed) && VerdictsFit(setup, w')
  {
    CallFitsReason(setup, w, tid, e);
    hide ReasonFits;
    hide HandOver;
    hide Inv;
    var w' := HandOver(setup, w, tid, e);
    forall id, reason | ReasonFits(setup, w.handed, id, reason) ensures ReasonFits(setup, w'.handed, id, reason) {
      ReasonsStay(setup, w.handed, w'.handed, id, reason);
    }
  }

  predicate CallsNow(w: World, e: Event)
  {
    e.Proceed? && e.tid < |w.threads| && w.threads[e.tid].alive && w.threads[e.tid].script == [] && w.threads[e.tid].next.Call?
  }

  /** Without a call, verdicts stay where they are, and a job fails only by its thread's verdict. */
  lemma OtherSteps(setup: Setup, w: World, e: Event)
    requires !CallsNow(w, e)
    ensures var w' := Step(setup, w, e);
            && w'.handed == w.handed
            && (forall i | 0 <= i < |w'.threads| && w'.threads[i].next.Finish? ::
                  i < |w.threads| && w.threads[i].next == w'.threads[i].next)
            && (forall id | id in w'.jobs && w'.jobs[id].status == Failed ::
                  || (id in w.jobs && w.jobs[id].status == Failed && w.jobs[id].statusReason == w'.jobs[id].statusReason)
                  || (e.Proceed? && e.tid < |w.threads| && w.threads[e.tid].next.Finish? && w.threads[e.tid].next.id == id
                      && w.threads[e.tid].next.verdict.status == Failed
                      && w.threads[e.tid].next.verdict.reason == w'.jobs[id].statusReason))
  {
    hide HandOver;
    hide AftermathEffects;
    hide ClaimEffects;
    hide CreationEffects;
    hide Handlers.Admissible;
    hide NextApproved;
  }

  lemma StepKeepsFit(setup: Setup, w: World, e: Event)
    requires Inv(setup, w) && FailuresFit(setup, w.jobs, w.handed) && VerdictsFit(setup, w)
    ensures var w' := Step(setup, w, e); FailuresFit(setup, w'.jobs, w'.handed) && VerdictsFit(setup, w')
  {
    hide ReasonFits;
    hide Inv;
    if CallsNow(w, e) {
      HandOverKeepsFit(setup, w, e.tid, e);
      hide HandOver;
    } else {
      OtherSteps(setup, w, e);
      hide Step;
    }
  }

  lemma {:induction false} ReachedFits(setup: Setup, events: seq<Event>)
    ensures var w := Reached(setup, events); FailuresFit(setup, w.jobs, w.handed) && VerdictsFit(setup, w)
  {
    if events != [] {
      var before := events[..|events| - 1];
      ReachedFits(setup, before);
      ReachedInv(setup, before);
      StepKeepsFit(setup, Reached(setup, before), events[|events| - 1]);
    }
  }

  // ---------------------------------------------------------------- what a reason says

  /** Some call for the job started a command. */
  predicate Started(w: World, id: string)
  {
    exists k :: 0 <= k < |w.handed| && w.handed[k].id == id && w.handed[k].process.Some?
  }

  /** The command that was run for the job did everything that success needs. */
  ghost predicate RanToSuccess(setup: Setup, w: World, id: string)
  {
    exists k :: 0 <= k < |w.handed| && w.handed[k].id == id && w.handed[k].process.Some?
                && Agent.Executed(setup.executor, w.handed[k].request, w.handed[k].process.value)
  }

  /** The command was run for the job and ended in time, with an error exit or too much output. */
  ghost predicate RanUnsuccessfully(setup: Setup, w: World, id: string)
  {
    exists k :: 0 <= k < |w.handed| && w.handed[k].id == id && w.handed[k].process.Some?
                && Agent.Unsuccessful(setup.executor, w.handed[k].process.value)
  }

  /** The command was run for the job and exited without an error and in time. */
  ghost predicate RanCleanly(w: World, id: string)
  {
    exists k :: 0 <= k < |w.handed| && w.handed[k].id == id && w.handed[k].process.Some?
                && Agent.ExitedCleanly(w.handed[k].process.value)
  }

  const NOTHING_RAN: set<string> := {
    Agent.MUTATION_DISABLED, Agent.SERVICE_NOT_ALLOWLISTED, Agent.UNSUPPORTED_ACTION, Agent.VALIDATION_ERROR,
    Agent.NOT_IMPLEMENTED, Worker.INVALID_JOB
  }

  lemma ReasonsDiffer()
    ensures Worker.AGENT_UNAVAILABLE !in NOTHING_RAN && Agent.COMMAND_FAILED !in NOTHING_RAN
         && Agent.COMMAND_TIMEOUT !in NOTHING_RAN
    ensures Agent.COMMAND_FAILED != Agent.COMMAND_TIMEOUT
         && Worker.AGENT_UNAVAILABLE !in {Agent.COMMAND_FAILED, Agent.COMMAND_TIMEOUT}
    ensures Agent.MUTATION_DISABLED != Agent.SERVICE_NOT_ALLOWLISTED
    ensures Worker.INVALID_JOB !in {Agent.MUTATION_DISABLED, Agent.SERVICE_NOT_ALLOWLISTED, Agent.UNSUPPORTED_ACTION,
                                    Agent.VALIDATION_ERROR, Agent.NOT_IMPLEMENTED}
  {
    assert |Agent.COMMAND_FAILED| != |Agent.COMMAND_TIMEOUT|;
  }

  lemma Explained(setup: Setup, events: seq<Event>, id: string) returns (k: nat, error: Agent.AgentError)
    requires id in Reached(setup, events).jobs && Reached(setup, events).jobs[id].status == Failed
    ensures var w := Reached(setup, events);
            && k < |w.handed| && w.handed[k].id == id
            && (forall other | 0 <= other < |w.handed| && w.handed[other].id == id :: other == k)
            && Agent.Explains(setup.executor, w.handed[k].request, w.handed[k].process, error)
            && Worker.AgentFailure(error).reason == w.jobs[id].statusReason
            && Handlers.Admissible(w.handed[k].request, setup.allowlist) && w.handed[k].request.service == w.jobs[id].target
  {
    ReachedFits(setup, events);
    var w := Reached(setup, events);
    assert ReasonFits(setup, w.handed, id, w.jobs[id].statusReason);
    hide Agent.Explains;
    hide Worker.AgentFailure;
    k, error :| 0 <= k < |w.handed| && w.handed[k].id == id
      && Agent.Explains(setup.executor, w.handed[k].request, w.handed[k].process, error)
      && Worker.AgentFailure(error).reason == w.jobs[id].statusReason;
    HandedAtMostOnceAndApproved(setup, events);
  }

  /**
   In every reachable state, what the reason of a failed job says. Only five reasons occur. After the two refusals
   nothing was started, and the agent had that reason to refuse; command_failed means that the agent accepted the
   request and that the command, if it could be started, was not successful.
   */
  lemma FailedRowMeans(setup: Setup, events: seq<Event>, id: string)
    requires id in Reached(setup, events).jobs && Reached(setup, events).jobs[id].status == Failed
    ensures var w := Reached(setup, events);
            var reason := w.jobs[id].statusReason;
            && reason in {Agent.MUTATION_DISABLED, Agent.SERVICE_NOT_ALLOWLISTED, Agent.COMMAND_FAILED,
                          Agent.COMMAND_TIMEOUT, Worker.AGENT_UNAVAILABLE}
            && (reason in NOTHING_RAN ==> !Started(w, id))
            && (reason == Agent.MUTATION_DISABLED ==> !setup.executor.mutationEnabled)
            && (reason == Agent.SERVICE_NOT_ALLOWLISTED ==> w.jobs[id].target !in setup.executor.allowlist)
            && (reason == Agent.COMMAND_FAILED ==>
                  && setup.executor.mutationEnabled && w.jobs[id].target in setup.executor.allowlist
                  && (Started(w, id) ==> RanUnsuccessfully(setup, w, id)) && !RanToSuccess(setup, w, id))
  {
    var k, error := Explained(setup, events, id);
    ReasonsDiffer();
    hide Reached;
    hide NOTHING_RAN;
  }

  // ---------------------------------------------------------------- runs that fail

  /** A run in which the one job's call is delivered, or lost, and its command behaves as given. */
  lemma FailingRun(setup: Setup, request: Agent.Request, delivery: Agent.Delivery, process: Command.Process)
    returns (events: seq<Event>)
    requires Handlers.Admissible(request, setup.allowlist)
    ensures var w := Reached(setup, events);
            var verdict := Worker.VerdictOf(Agent.Call(setup.executor, request, delivery, process));
            && JOB in w.jobs && w.jobs[JOB].status == verdict.status && w.jobs[JOB].statusReason == verdict.reason
            && w.handed == [Handover(JOB, request, Agent.Ran(setup.executor, request, delivery, process))]
  {
    OpeningClaims(setup, request);
    ReachedInv(setup, Opening(request));
    hide *;
    var w, e := Reached(setup, Opening(request)), Proceed(2, delivery, process);
    var n := TurnCompletes(setup, w, e);
    events := Opening(request) + Again(e, n);
    ReachedOn(setup, Opening(request), e, n);
    var verdict := Worker.VerdictOf(Agent.Call(setup.executor, request, delivery, process));
    FinishedIs(w, Row(JOB, w.jobs[JOB]), verdict);
  }

  /** A run reaches a job that failed for this reason without a command, or with one that ran to success or exited cleanly. */
  ghost predicate FailsUnstarted(setup: Setup, events: seq<Event>, id: string, reason: string)
  {
    var w := Reached(setup, events);
    id in w.jobs && w.jobs[id].status == Failed && w.jobs[id].statusReason == reason && !Started(w, id)
  }

  ghost predicate FailsAfterSuccess(setup: Setup, events: seq<Event>, id: string, reason: string)
  {
    var w := Reached(setup, events);
    id in w.jobs && w.jobs[id].status == Failed && w.jobs[id].statusReason == reason && RanToSuccess(setup, w, id)
  }

  ghost predicate FailsAfterCleanExit(setup: Setup, events: seq<Event>, id: string, reason: string)
  {
    var w := Reached(setup, events);
    id in w.jobs && w.jobs[id].status == Failed && w.jobs[id].statusReason == reason && RanCleanly(w, id)
  }

  /**
   For an agent that would run some admissible request: a failed job leaves open whether its command
   was never started or ran to all that the agent calls success for exactly two reasons, command_timeout and
   agent_unavailable.
   */
  lemma ReasonIsAmbiguousIff(setup: Setup, request: Agent.Request, reason: string)
    requires Handlers.Admissible(request, setup.allowlist) && Agent.Refusal(setup.executor, request) == None
    ensures (exists events, id :: FailsUnstarted(setup, events, id, reason))
         && (exists events, id :: FailsAfterSuccess(setup, events, id, reason))
       <==> reason in {Agent.COMMAND_TIMEOUT, Worker.AGENT_UNAVAILABLE}
  {
    if reason in {Agent.COMMAND_TIMEOUT, Worker.AGENT_UNAVAILABLE} {
      AmbiguousRuns(setup, request, if reason == Agent.COMMAND_TIMEOUT then Agent.Timeout else Agent.MalformedResponse);
    }
    if events, id, others, other :| FailsUnstarted(setup, events, id, reason) && FailsAfterSuccess(setup, others, other, reason) {
      FailedRowMeans(setup, events, id);
      FailedRowMeans(setup, others, other);
      SuccessWasStarted(setup, Reached(setup, others), other);
    }
  }

  lemma SuccessWasStarted(setup: Setup, w: World, id: string)
    ensures RanToSuccess(setup, w, id) ==> Started(w, id) && RanCleanly(w, id)
    ensures RanCleanly(w, id) ==> Started(w, id)
  {
    if k :| 0 <= k < |w.handed| && w.handed[k].id == id && w.handed[k].process.Some?
            && Agent.Executed(setup.executor, w.handed[k].request, w.handed[k].process.value) {
      assert Agent.ExitedCleanly(w.handed[k].process.value);
    }
  }

  /**
   And it leaves open whether the command was never started or exited cleanly and in time for exactly three reasons:
   these two and command_failed.
   */
  lemma ReasonHidesCleanExitIff(setup: Setup, request: Agent.Request, reason: string)
    requires Handlers.Admissible(request, setup.allowlist) && Agent.Refusal(setup.executor, request) == None
    ensures (exists events, id :: FailsUnstarted(setup, events, id, reason))
         && (exists events, id :: FailsAfterCleanExit(setup, events, id, reason))
       <==> reason in {Agent.COMMAND_TIMEOUT, Worker.AGENT_UNAVAILABLE, Agent.COMMAND_FAILED}
  {
    hide FailsUnstarted, Agent.Refusal, Handlers.Admissible;
    if reason in {Agent.COMMAND_TIMEOUT, Worker.AGENT_UNAVAILABLE} {
      ReasonIsAmbiguousIff(setup, request, reason);
      var events, id :| FailsAfterSuccess(setup, events, id, reason);
      SuccessWasStarted(setup, Reached(setup, events), id);
      assert FailsAfterCleanExit(setup, events, id, reason);
    } else if reason == Agent.COMMAND_FAILED {
      var unstarted := StartCanFail(setup, request);
      var clean := CleanExitCanFail(setup, request);
      assert FailsAfterCleanExit(setup, clean, JOB, reason);
    }
    if events, id :| FailsAfterCleanExit(setup, events, id, reason) {
      FailedRowMeans(setup, events, id);
      SuccessWasStarted(setup, Reached(setup, events), id);
      ReasonsDiffer();
      assert reason !in NOTHING_RAN;
    }
  }

  /** A run in which the agent accepts the request and the command cannot be started. */
  lemma StartCanFail(setup: Setup, request: Agent.Request) returns (events: seq<Event>)
    requires Handlers.Admissible(request, setup.allowlist) && Agent.Refusal(setup.executor, request) == None
    ensures FailsUnstarted(setup, events, JOB, Agent.COMMAND_FAILED)
  {
    var process := Command.Unstarted(false);
    events := FailingRun(setup, request, Agent.Delivered, process);
    assert Agent.Call(setup.executor, request, Agent.Delivered, process) == Some(Agent.CommandFailed) by {
      assert Agent.RESPONSE_OK[0] != Agent.RESPONSE_ERROR[0];
      assert |Agent.COMMAND_FAILED| != |Agent.COMMAND_TIMEOUT|;
    }
    assert Agent.Ran(setup.executor, request, Agent.Delivered, process) == None;
    hide Reached;
  }

  /** One run in which the request is lost, and one in which only the answer is. */
  lemma AmbiguousRuns(setup: Setup, request: Agent.Request, error: Agent.LostReply)
    requires Handlers.Admissible(request, setup.allowlist) && Agent.Refusal(setup.executor, request) == None
    ensures var reason := Worker.AgentFailure(error).reason;
            && (exists events, id :: FailsUnstarted(setup, events, id, reason))
            && (exists events, id :: FailsAfterSuccess(setup, events, id, reason))
  {
    var reason := Worker.AgentFailure(error).reason;
    CleanRun(setup.executor, request);
    var lost := FailingRun(setup, request, Agent.NotSent(error), QUIET_PROCESS);
    var late := FailingRun(setup, request, Agent.ReplyLost(error), QUIET_PROCESS);
    hide Reached;
    assert FailsUnstarted(setup, lost, JOB, reason);
    assert Reached(setup, late).handed[0].process == Some(QUIET_PROCESS);
    assert RanToSuccess(setup, Reached(setup, late), JOB);
    assert FailsAfterSuccess(setup, late, JOB, reason);
  }

  lemma CleanRun(executor: Agent.Executor, request: Agent.Request)
    requires Agent.ValidateRequest(request) == None && Agent.Refusal(executor, request) == None
    ensures Agent.Executed(executor, request, QUIET_PROCESS)
  {
    assert Command.Stream([]) == [];
  }

  /** command_failed does not mean that the command itself failed: a clean exit with too much output ends so. */
  lemma CleanExitCanFail(setup: Setup, request: Agent.Request) returns (events: seq<Event>)
    requires Handlers.Admissible(request, setup.allowlist) && Agent.Refusal(setup.executor, request) == None
    ensures var w := Reached(setup, events);
            && JOB in w.jobs && w.jobs[JOB].status == Failed && w.jobs[JOB].statusReason == Agent.COMMAND_FAILED
            && RanCleanly(w, JOB)
  {
    var limit := Command.EffectiveOutputLimit(setup.executor.outputLimit);
    var chunk: Command.Chunk := seq(limit + 1, i => 0);
    var process := Command.Started([chunk], [], false, false);
    assert Command.Stream([chunk]) == Command.Stream([][..0]) + chunk by { assert [chunk][..0] == []; }
    assert !Command.WithinLimit(process.stdout, limit);
    assert Agent.Call(setup.executor, request, Agent.Delivered, process) == Some(Agent.CommandFailed) by {
      assert Agent.RESPONSE_OK[0] != Agent.RESPONSE_ERROR[0];
      assert |Agent.COMMAND_FAILED| != |Agent.COMMAND_TIMEOUT|;
    }
    events := FailingRun(setup, request, Agent.Delivered, process);
    assert Agent.Ran(setup.executor, request, Agent.Delivered, process) == Some(process);
    hide Reached;
    assert Agent.ExitedCleanly(Reached(setup, events).handed[0].process.value);
  }
}
