/** internal/jobs/worker.go: one turn of the worker, from the claim to the recorded outcome. */
module Worker {
  import opened Wrappers
  import opened Observability
  import opened Jobs
  import Audit
  import Agent
  import Timestamps

  const AGENT_UNAVAILABLE := "agent_unavailable"
  const INVALID_JOB := "invalid_job"
  const SERVICE_PREFIX := "service."

  /** How a running job ends and which event says so. */
  datatype Verdict = Verdict(status: Status, reason: string, action: string, outcome: string)

  function Failure(reason: string, action: string): Verdict
  {
    Verdict(Failed, reason, action, Audit.FAILURE)
  }

  const COMPLETION := Verdict(Completed, "completed", Audit.JOB_COMPLETED, Audit.SUCCESS)

  function AgentFailure(error: Agent.AgentError): Verdict
  {
    match error
    case NotImplemented => Failure(Agent.NOT_IMPLEMENTED, Audit.JOB_FAILED)
    case MutationDisabled => Failure(Agent.MUTATION_DISABLED, Audit.JOB_MUTATION_OFF)
    case CommandFailed => Failure(Agent.COMMAND_FAILED, Audit.JOB_COMMAND_FAILED)
    case Timeout => Failure(Agent.COMMAND_TIMEOUT, Audit.JOB_COMMAND_TIMEOUT)
    case ServiceNotAllowlisted => Failure(Agent.SERVICE_NOT_ALLOWLISTED, Audit.JOB_FAILED)
    case UnsupportedAction => Failure(Agent.UNSUPPORTED_ACTION, Audit.JOB_FAILED)
    case InvalidServiceName => Failure(Agent.VALIDATION_ERROR, Audit.JOB_FAILED)
    case _ => Failure(AGENT_UNAVAILABLE, Audit.JOB_FAILED)
  }

  function VerdictOf(answer: Option<Agent.AgentError>): Verdict
  {
    match answer
    case None => COMPLETION
    case Some(error) => AgentFailure(error)
  }

  /** The request carried by a job row, unless its action is not a service action. */
  function AgentRequestForJob(job: Job): Option<Agent.Request>
  {
    if SERVICE_PREFIX <= job.action then Some(Agent.Request(job.target, job.action[|SERVICE_PREFIX|..])) else None
  }

  /** The request stored in a job comes back unchanged. */
  lemma StoredRequestComesBack(job: Job, request: Agent.Request)
    requires job.target == request.service && job.action == SERVICE_PREFIX + request.action
    ensures AgentRequestForJob(job) == Some(request)
  {
    assert job.action[|SERVICE_PREFIX|..] == request.action;
  }

  /** The seven reasons the executor can give, and the one the client gives for any other. */
  predicate KnownReason(reason: string)
  {
    reason in {Agent.NOT_IMPLEMENTED, Agent.MUTATION_DISABLED, Agent.SERVICE_NOT_ALLOWLISTED, Agent.UNSUPPORTED_ACTION,
               Agent.VALIDATION_ERROR, Agent.COMMAND_FAILED, Agent.COMMAND_TIMEOUT}
  }

  /** A delivered error response ends the job with its own reason exactly when the reason is known (or already the fallback). */
  lemma ReasonSurvivesIff(response: Agent.Response)
    requires response.status == Agent.RESPONSE_ERROR
    ensures var verdict := VerdictOf(Agent.ResponseError(response));
            verdict.status == Failed
            && (verdict.reason == response.reason <==> KnownReason(response.reason) || response.reason == AGENT_UNAVAILABLE)
  {
    assert Agent.RESPONSE_OK[0] != Agent.RESPONSE_ERROR[0];
  }

  /** Every refusal and failure reason of the executor, once delivered, is the failed job's reason. */
  lemma ExecutorReasonReachesJob(executor: Agent.Executor, request: Agent.Request, process: Agent.Command.Process)
    ensures var response := Agent.ControlService(executor, request, process);
            var verdict := VerdictOf(Agent.ResponseError(response));
            if Agent.Executed(executor, request, process) then verdict == COMPLETION
            else verdict.status == Failed && verdict.reason == response.reason
  {
    var response := Agent.ControlService(executor, request, process);
    Agent.SuccessIffExecuted(executor, request, process);
    if !Agent.Executed(executor, request, process) {
      assert response.status == Agent.RESPONSE_ERROR && KnownReason(response.reason);
      ReasonSurvivesIff(response);
    }
  }

  /** The outcome event of a failed job is determined by its reason. */
  function FailureAction(reason: string): string
  {
    if reason == Agent.MUTATION_DISABLED then Audit.JOB_MUTATION_OFF
    else if reason == Agent.COMMAND_FAILED then Audit.JOB_COMMAND_FAILED
    else if reason == Agent.COMMAND_TIMEOUT then Audit.JOB_COMMAND_TIMEOUT
    else Audit.JOB_FAILED
  }

  predicate WellFormedVerdict(verdict: Verdict)
  {
    verdict == COMPLETION || (verdict.status == Failed && verdict.outcome == Audit.FAILURE
                              && verdict.action == FailureAction(verdict.reason))
  }

  /** No verdict writes a status other than completed or failed, and events match reasons. */
  lemma VerdictsAreWellFormed(answer: Option<Agent.AgentError>)
    ensures WellFormedVerdict(VerdictOf(answer)) && WellFormedVerdict(Failure(INVALID_JOB, Audit.JOB_FAILED))
    ensures VerdictOf(answer).status == Completed <==> answer == None
  {
    assert AGENT_UNAVAILABLE[0] != Agent.MUTATION_DISABLED[0] && AGENT_UNAVAILABLE[0] != Agent.COMMAND_FAILED[0];
    assert Agent.NOT_IMPLEMENTED[0] != Agent.MUTATION_DISABLED[0] && Agent.NOT_IMPLEMENTED[0] != Agent.COMMAND_FAILED[0];
    assert INVALID_JOB[0] != Agent.MUTATION_DISABLED[0] && INVALID_JOB[0] != Agent.COMMAND_FAILED[0];
    assert |Agent.COMMAND_FAILED| != |Agent.COMMAND_TIMEOUT|;
  }

  // ---------------------------------------------------------------- events

  function JobTarget(id: string): string
  {
    "jobs:" + id
  }

  function JobEvent(action: string, outcome: string, row: Row): Audit.Event
  {
    Audit.Event(None, action, JobTarget(row.id), outcome, row.job.statusReason, row.job.requestId)
  }

  function OutcomeEvents(verdict: Verdict, row: Row): seq<Audit.Event>
  {
    [JobEvent(verdict.action, verdict.outcome, row), JobEvent(Audit.JOB_STATUS, Audit.ACCEPTED, row)]
  }

  /** What the agent answers to a request. */
  type Controller = Agent.Request -> Option<Agent.AgentError>

  function TurnVerdict(job: Job, agent: Controller): Verdict
  {
    match AgentRequestForJob(job)
    case None => Failure(INVALID_JOB, Audit.JOB_FAILED)
    case Some(request) => VerdictOf(agent(request))
  }

  /** The counters of the agent call: a request always, a failure if it failed, none if there was no call. */
  function CallCounters(job: Job, agent: Controller): seq<string>
  {
    match AgentRequestForJob(job)
    case None => []
    case Some(request) => if agent(request) == None then [AGENT_RPC_REQUESTS] else [AGENT_RPC_REQUESTS, AGENT_RPC_FAILURES]
  }

  function FinishCounters(verdict: Verdict): seq<string>
  {
    [if verdict.status == Completed then JOBS_COMPLETED else JOBS_FAILED, AUDIT_WRITES, AUDIT_WRITES]
  }

  /** How an answer of the agent ends a job: with this status and reason, and this action of the outcome event. */
  predicate EndsJob(answer: Option<Agent.AgentError>, job: Job, action: string)
  {
    if answer == None then job.status == Completed && job.statusReason == "completed" && action == "job.completed"
    else
      && job.status == Failed
      && (job.statusReason == "mutation_disabled" <==> answer == Some(Agent.MutationDisabled))
      && (job.statusReason == "command_failed" <==> answer == Some(Agent.CommandFailed))
      && (job.statusReason == "command_timeout" <==> answer == Some(Agent.Timeout))
      && (job.statusReason == "not_implemented" <==> answer == Some(Agent.NotImplemented))
      && (job.statusReason == "service_not_allowlisted" <==> answer == Some(Agent.ServiceNotAllowlisted))
      && (job.statusReason == "unsupported_action" <==> answer == Some(Agent.UnsupportedAction))
      && (job.statusReason == "validation_error" <==> answer == Some(Agent.InvalidServiceName))
      && (job.statusReason == "agent_unavailable" <==>
            answer.value in {Agent.Unavailable, Agent.ConnectionRefused, Agent.MalformedResponse, Agent.InvalidSocketPath})
      && (action == "job.mutation_disabled" <==> answer == Some(Agent.MutationDisabled))
      && (action == "job.command_failed" <==> answer == Some(Agent.CommandFailed))
      && (action == "job.command_timeout" <==> answer == Some(Agent.Timeout))
      && action in {"job.failed", "job.mutation_disabled", "job.command_failed", "job.command_timeout"}
  }

  /** The three events of a turn, the one for the outcome with this action. */
  predicate TellsTurn(events: seq<Audit.Event>, before: Job, row: Row, action: string)
  {
    events == [
      Audit.Event(None, "job.started", "jobs:" + row.id, "accepted", "running", before.requestId),
      Audit.Event(None, action, "jobs:" + row.id, if row.job.status == Completed then "success" else "failure",
                  row.job.statusReason, before.requestId),
      Audit.Event(None, "job.status_changed", "jobs:" + row.id, "accepted", row.job.statusReason, before.requestId)]
  }

  /** The job's action is "service." and the request's action, its target the request's service. */
  predicate Carries(job: Job, request: Agent.Request)
  {
    job.action == "service." + request.action && job.target == request.service
  }

  /** The final row and the outcome's action are those of the agent's answer, or say that there was no request. */
  ghost predicate EndsAsAnswered(job: Job, agent: Controller, row: Row, action: string)
  {
    && (forall request | Carries(job, request) :: EndsJob(agent(request), row.job, action))
    && (!("service." <= job.action) ==>
          row.job.status == Failed && row.job.statusReason == "invalid_job" && action == "job.failed")
  }

  /** The counters of a turn. */
  ghost predicate CountsTurn(job: Job, agent: Controller, row: Row, names: seq<string>)
  {
    var finished := [if row.job.status == Completed then JOBS_COMPLETED else JOBS_FAILED, AUDIT_WRITES, AUDIT_WRITES];
    && (forall request | Carries(job, request) ::
          names == [JOBS_CLAIMED, AUDIT_WRITES, AGENT_RPC_REQUESTS]
                   + (if agent(request) == None then [] else [AGENT_RPC_FAILURES]) + finished)
    && (!("service." <= job.action) ==> names == [JOBS_CLAIMED, AUDIT_WRITES] + finished)
  }

  lemma ReasonsDiffer()
    ensures forall i, j | 0 <= i < j < |REASONS| :: REASONS[i] != REASONS[j]
  {
    assert forall i, j | 0 <= i < j < |REASONS| :: |REASONS[i]| != |REASONS[j]| || REASONS[i][0] != REASONS[j][0];
  }

  const REASONS := [
    "mutation_disabled", "command_failed", "command_timeout", "not_implemented", "service_not_allowlisted", "unsupported_action",
    "validation_error", "agent_unavailable"]

  lemma ErrorReasons(error: Agent.AgentError)
    ensures var i := match error
                     case MutationDisabled => 0
                     case CommandFailed => 1
                     case Timeout => 2
                     case NotImplemented => 3
                     case ServiceNotAllowlisted => 4
                     case UnsupportedAction => 5
                     case InvalidServiceName => 6
                     case _ => 7;
            AgentFailure(error).reason == REASONS[i]
  {
  }

  lemma AnswerEndsJob(answer: Option<Agent.AgentError>, job: Job)
    requires job.status == VerdictOf(answer).status && job.statusReason == VerdictOf(answer).reason
    ensures EndsJob(answer, job, VerdictOf(answer).action)
  {
    ReasonsDiffer();
    if answer.Some? {
      ErrorReasons(answer.value);
    }
  }

  /** What a turn adds to the events and the counters tells how the agent ended the job. */
  ghost predicate TurnTold(events: seq<Audit.Event>, after: seq<Audit.Event>, counters: Counters, later: Counters,
                           job: Job, agent: Controller, row: Row)
  {
    exists told, action, names ::
      && after == events + told && TellsTurn(told, job, row, action) && EndsAsAnswered(job, agent, row, action)
      && later == Bumped(counters, names) && CountsTurn(job, agent, row, names)
  }

  lemma CarriedIsRead(job: Job, request: Agent.Request)
    ensures Carries(job, request) <==> AgentRequestForJob(job) == Some(request)
    ensures "service." <= job.action <==> AgentRequestForJob(job).Some?
  {
    if Carries(job, request) {
      StoredRequestComesBack(job, request);
    }
  }

  /** A row that ends with the verdict of its turn tells of the turn as the agent answered. */
  lemma TurnIsTold(events: seq<Audit.Event>, counters: Counters, job: Job, agent: Controller, claimed: Row, row: Row)
    requires row.job.status == TurnVerdict(job, agent).status && row.job.statusReason == TurnVerdict(job, agent).reason
    requires claimed.id == row.id && claimed.job.statusReason == "running"
    requires claimed.job.requestId == row.job.requestId == job.requestId
    ensures var verdict := TurnVerdict(job, agent);
            TurnTold(events, events + [JobEvent(Audit.JOB_STARTED, Audit.ACCEPTED, claimed)] + OutcomeEvents(verdict, row),
                     counters, Bumped(counters, [JOBS_CLAIMED, AUDIT_WRITES] + CallCounters(job, agent) + FinishCounters(verdict)),
                     job, agent, row)
  {
    var verdict := TurnVerdict(job, agent);
    var told := [JobEvent(Audit.JOB_STARTED, Audit.ACCEPTED, claimed)] + OutcomeEvents(verdict, row);
    var names := [JOBS_CLAIMED, AUDIT_WRITES] + CallCounters(job, agent) + FinishCounters(verdict);
    TurnIsAnswered(job, agent, claimed, row);
    assert events + told == events + [JobEvent(Audit.JOB_STARTED, Audit.ACCEPTED, claimed)] + OutcomeEvents(verdict, row);
    assert TellsTurn(told, job, row, verdict.action) && CountsTurn(job, agent, row, names);
    hide *;
  }

  lemma TurnIsAnswered(job: Job, agent: Controller, claimed: Row, row: Row)
    requires row.job.status == TurnVerdict(job, agent).status && row.job.statusReason == TurnVerdict(job, agent).reason
    requires claimed.id == row.id && claimed.job.statusReason == "running"
    requires claimed.job.requestId == row.job.requestId == job.requestId
    ensures var verdict := TurnVerdict(job, agent);
            && TellsTurn([JobEvent(Audit.JOB_STARTED, Audit.ACCEPTED, claimed)] + OutcomeEvents(verdict, row), job, row, verdict.action)
            && EndsAsAnswered(job, agent, row, verdict.action)
            && CountsTurn(job, agent, row, [JOBS_CLAIMED, AUDIT_WRITES] + CallCounters(job, agent) + FinishCounters(verdict))
  {
    VerdictShape(job, agent);
    forall request ensures Carries(job, request) <==> AgentRequestForJob(job) == Some(request) {
      CarriedIsRead(job, request);
    }
    CarriedIsRead(job, Agent.Request("", ""));
    hide AgentRequestForJob, Carries, AgentFailure, EndsJob;
    if AgentRequestForJob(job).Some? {
      AnswerEndsJob(agent(AgentRequestForJob(job).value), row.job);
    }
  }

  lemma VerdictShape(job: Job, agent: Controller)
    ensures var verdict := TurnVerdict(job, agent);
            verdict.status in {Completed, Failed} && verdict.outcome == if verdict.status == Completed then "success" else "failure"
  {
  }

  lemma CountersAddUp(counters: Counters, job: Job, agent: Controller)
    ensures var rest := CallCounters(job, agent) + FinishCounters(TurnVerdict(job, agent));
            Bumped(Bumped(Bumped(counters, [JOBS_CLAIMED]), [AUDIT_WRITES]), rest)
            == Bumped(counters, [JOBS_CLAIMED, AUDIT_WRITES] + CallCounters(job, agent) + FinishCounters(TurnVerdict(job, agent)))
  {
    hide Bumped, CallCounters, FinishCounters, TurnVerdict;
    var rest := CallCounters(job, agent) + FinishCounters(TurnVerdict(job, agent));
    BumpedTwice(counters, [JOBS_CLAIMED], [AUDIT_WRITES]);
    assert [JOBS_CLAIMED] + [AUDIT_WRITES] == [JOBS_CLAIMED, AUDIT_WRITES];
    BumpedTwice(counters, [JOBS_CLAIMED, AUDIT_WRITES], rest);
    assert [JOBS_CLAIMED, AUDIT_WRITES] + rest
        == [JOBS_CLAIMED, AUDIT_WRITES] + CallCounters(job, agent) + FinishCounters(TurnVerdict(job, agent));
  }

  // ---------------------------------------------------------------- worker

  class JobWorker {
    const store: JobStore
    const audit: Audit.AuditStore
    const metrics: Registry

    ghost predicate Wired()
    {
      store.metrics == metrics && audit.metrics == metrics
    }

    constructor (store: JobStore, audit: Audit.AuditStore, metrics: Registry)
      requires store.metrics == metrics && audit.metrics == metrics
      ensures Wired() && this.store == store && this.audit == audit && this.metrics == metrics
    {
      this.store, this.audit, this.metrics := store, audit, metrics;
    }

    /**
     One turn. Without an approved job nothing changes. Otherwise the oldest approved job is started and
     finished as its agent call went, and exactly three events are appended.
     */
    method ProcessOne(agent: Controller, started: Timestamps.Instant) returns (r: Result<Row, JobError>)
      requires Wired()
      modifies store, audit, metrics
      ensures r == Err(NoApprovedJobs) <==> WithStatus(old(store.jobs), Approved) == {}
      ensures r.Err? ==> r.error == NoApprovedJobs && store.jobs == old(store.jobs) && audit.events == old(audit.events)
                         && metrics.counters == old(metrics.counters)
      ensures r.Ok? ==>
                var id := r.value.id;
                && NextApproved(old(store.jobs)) == Some(id)
                && var job := old(store.jobs)[id];
                   var verdict := TurnVerdict(job, agent);
                   var claimed := Row(id, job.(status := Running, statusReason := "running",
                                               startedAt := Some(Timestamps.Text(started))));
                && r.value == Row(id, claimed.job.(status := verdict.status, statusReason := verdict.reason))
                && store.jobs == old(store.jobs)[id := r.value.job]
                && audit.events == old(audit.events) + [JobEvent(Audit.JOB_STARTED, Audit.ACCEPTED, claimed)]
                                   + OutcomeEvents(verdict, r.value)
                && metrics.counters == Bumped(old(metrics.counters),
                     [JOBS_CLAIMED, AUDIT_WRITES] + CallCounters(job, agent) + FinishCounters(verdict))
      ensures r.Ok? ==>
                && r.value.id in old(store.jobs)
                && TurnTold(old(audit.events), audit.events, old(metrics.counters), metrics.counters,
                            old(store.jobs)[r.value.id], agent, r.value)
    {
      r := store.ClaimApproved(started);
      if r.Err? {
        return;
      }
      hide TurnTold, JobEvent, OutcomeEvents, CallCounters, FinishCounters, AgentRequestForJob, NextApproved;
      var row := r.value;
      audit.Record(JobEvent(Audit.JOB_STARTED, Audit.ACCEPTED, row));
      r := ExecuteClaimedJob(row, agent);
      CountersAddUp(old(metrics.counters), row.job, agent);
      TurnIsTold(old(audit.events), old(metrics.counters), old(store.jobs)[row.id], agent, row, r.value);
    }

    method ExecuteClaimedJob(row: Row, agent: Controller) returns (r: Result<Row, JobError>)
      requires Wired() && row.id in store.jobs && store.jobs[row.id] == row.job && row.job.status == Running
      modifies store, audit, metrics
      ensures var verdict := TurnVerdict(row.job, agent);
              && r == Ok(Row(row.id, row.job.(status := verdict.status, statusReason := verdict.reason)))
              && store.jobs == old(store.jobs)[row.id := r.value.job]
              && audit.events == old(audit.events) + OutcomeEvents(verdict, r.value)
              && metrics.counters == Bumped(old(metrics.counters), CallCounters(row.job, agent) + FinishCounters(verdict))
    {
      match AgentRequestForJob(row.job)
      case None =>
        r := MarkFailedWithAudit(row.id, INVALID_JOB, Audit.JOB_FAILED);
        assert [] + FinishCounters(TurnVerdict(row.job, agent)) == FinishCounters(TurnVerdict(row.job, agent));
      case Some(request) =>
        var answer := agent(request);
        metrics.Inc(AGENT_RPC_REQUESTS);
        if answer.Some? {
          metrics.Inc(AGENT_RPC_FAILURES);
          BumpedTwice(old(metrics.counters), [AGENT_RPC_REQUESTS], [AGENT_RPC_FAILURES]);
          assert [AGENT_RPC_REQUESTS] + [AGENT_RPC_FAILURES] == [AGENT_RPC_REQUESTS, AGENT_RPC_FAILURES];
          var failure := AgentFailure(answer.value);
          r := MarkFailedWithAudit(row.id, failure.reason, failure.action);
        } else {
          r := MarkCompleted(row.id);
        }
        BumpedTwice(old(metrics.counters), CallCounters(row.job, agent), FinishCounters(TurnVerdict(row.job, agent)));
    }

    method MarkCompleted(id: string) returns (r: Result<Row, JobError>)
      requires Wired() && id in store.jobs && store.jobs[id].status == Running
      modifies store, audit, metrics
      ensures && r == Ok(Row(id, old(store.jobs)[id].(status := Completed, statusReason := "completed")))
              && store.jobs == old(store.jobs)[id := r.value.job]
              && audit.events == old(audit.events) + OutcomeEvents(COMPLETION, r.value)
              && metrics.counters == Bumped(old(metrics.counters), FinishCounters(COMPLETION))
    {
      r := store.MarkCompleted(id);
      RecordOutcome(COMPLETION, r.value, old(audit.events), old(metrics.counters), JOBS_COMPLETED);
    }

    method MarkFailedWithAudit(id: string, reason: string, action: string) returns (r: Result<Row, JobError>)
      requires Wired() && id in store.jobs && store.jobs[id].status == Running
      modifies store, audit, metrics
      ensures && r == Ok(Row(id, old(store.jobs)[id].(status := Failed, statusReason := reason)))
              && store.jobs == old(store.jobs)[id := r.value.job]
              && audit.events == old(audit.events) + OutcomeEvents(Failure(reason, action), r.value)
              && metrics.counters == Bumped(old(metrics.counters), FinishCounters(Failure(reason, action)))
    {
      r := store.MarkFailed(id, reason);
      RecordOutcome(Failure(reason, action), r.value, old(audit.events), old(metrics.counters), JOBS_FAILED);
    }

    method RecordOutcome(verdict: Verdict, row: Row, ghost events: seq<Audit.Event>, ghost counters: Counters, ghost name: string)
      requires Wired() && audit.events == events && metrics.counters == Bumped(counters, [name])
      modifies audit, metrics
      ensures audit.events == events + OutcomeEvents(verdict, row)
      ensures metrics.counters == Bumped(counters, [name, AUDIT_WRITES, AUDIT_WRITES])
    {
      audit.Record(JobEvent(verdict.action, verdict.outcome, row));
      audit.Record(JobEvent(Audit.JOB_STATUS, Audit.ACCEPTED, row));
      BumpedTwice(counters, [name], [AUDIT_WRITES]);
      BumpedTwice(counters, [name] + [AUDIT_WRITES], [AUDIT_WRITES]);
      assert [name] + [AUDIT_WRITES] + [AUDIT_WRITES] == [name, AUDIT_WRITES, AUDIT_WRITES];
    }
  }
}
