/** internal/http: the two handlers that create jobs and decide them, after authorization. */
module Handlers {
  import opened Wrappers
  import opened Observability
  import opened Jobs
  import opened ServiceNames
  import Audit
  import Agent
  import Worker
  import Timestamps

  datatype Reply = Accepted | Decided | BadRequest | Forbidden | NotFound | Conflict | ServerError

  function ServiceControlTarget(request: Agent.Request): string
  {
    request.service + ":" + request.action
  }

  function RefusalReason(error: Agent.AgentError): string
  {
    match error
    case InvalidServiceName => "invalid_service_name"
    case UnsupportedAction => "unsupported_service_action"
    case _ => "invalid_request"
  }

  /** A request gets a job exactly when it is valid and its service is allowlisted. */
  predicate Admissible(request: Agent.Request, allowlist: set<string>)
  {
    Agent.ValidateRequest(request) == None && request.service in allowlist
  }

  /** The one event of a request that gets no job. */
  function RefusalEvent(request: Agent.Request, user: Option<int>, requestId: string): Audit.Event
  {
    match Agent.ValidateRequest(request)
    case Some(error) =>
      Audit.Event(user, Audit.SERVICE_CONTROL, ServiceControlTarget(request), Audit.REJECTED, RefusalReason(error), requestId)
    case None =>
      Audit.Event(user, Audit.SERVICE_CONTROL, ServiceControlTarget(request), Audit.DENIED, "service_not_allowlisted", requestId)
  }

  function CreationEvents(request: Agent.Request, row: Row, user: Option<int>, requestId: string): seq<Audit.Event>
  {
    var target := ServiceControlTarget(request);
    [Audit.Event(user, Audit.JOB_CREATED, target, Audit.ACCEPTED, StatusText(row.job.status), requestId),
     Audit.Event(user, Audit.JOB_STATUS, target, Audit.ACCEPTED, StatusText(row.job.status), requestId)]
  }

  function DecisionEvents(approve: bool, row: Row, user: Option<int>, requestId: string): seq<Audit.Event>
  {
    [Audit.Event(user, if approve then Audit.JOB_APPROVED else Audit.JOB_REJECTED, Worker.JobTarget(row.id),
                 if approve then Audit.ACCEPTED else Audit.REJECTED, StatusText(row.job.status), requestId),
     Audit.Event(user, Audit.JOB_STATUS, Worker.JobTarget(row.id), Audit.ACCEPTED, StatusText(row.job.status), requestId)]
  }

  function DenialEvent(id: string, user: Option<int>, requestId: string): Audit.Event
  {
    Audit.Event(user, Audit.JOB_APPROVE_DENY, Worker.JobTarget(id), Audit.DENIED, "invalid_status", requestId)
  }

  /** Why a request that is not admissible is refused: its name, its action, or the allowlist, in this order. */
  predicate RefusedWith(request: Agent.Request, outcome: string, reason: string)
  {
    && (reason == "invalid_service_name" <==> !ValidServiceName(request.service))
    && (reason == "unsupported_service_action" <==>
          ValidServiceName(request.service) && request.action !in {"start", "stop", "restart"})
    && reason in {"invalid_service_name", "unsupported_service_action", "service_not_allowlisted"}
    && outcome == if reason == "service_not_allowlisted" then "denied" else "rejected"
  }

  lemma RefusalIsTold(request: Agent.Request, user: Option<int>, requestId: string)
    ensures var event := RefusalEvent(request, user, requestId);
            && RefusedWith(request, event.outcome, event.reason)
            && event == Audit.Event(user, "service.control", request.service + ":" + request.action, event.outcome, event.reason, requestId)
  {
  }

  /** The two events of a decision. */
  predicate TellsDecision(events: seq<Audit.Event>, approve: bool, id: string, user: int, requestId: string)
  {
    var target := "jobs:" + id;
    if approve then
      events == [Audit.Event(Some(user), "job.approved", target, "accepted", "approved", requestId),
                 Audit.Event(Some(user), "job.status_changed", target, "accepted", "approved", requestId)]
    else
      events == [Audit.Event(Some(user), "job.rejected", target, "rejected", "rejected", requestId),
                 Audit.Event(Some(user), "job.status_changed", target, "accepted", "rejected", requestId)]
  }

  class JobHandlers {
    const store: JobStore
    const audit: Audit.AuditStore
    const allowlist: set<string>

    /** The server gives both stores the same registry. */
    ghost predicate Wired()
    {
      store.metrics == audit.metrics
    }

    constructor (store: JobStore, audit: Audit.AuditStore, services: seq<string>)
      ensures this.store == store && this.audit == audit
      ensures forall service :: service in allowlist <==> service in services
    {
      this.store, this.audit := store, audit;
      allowlist := set service | service in services;
    }

    /** The random id is an input; a taken one is refused by the jobs table and nothing is recorded. */
    method HandleServiceControl(request: Agent.Request, user: Option<int>, requestId: string, freshId: string,
                                now: Timestamps.Instant)
      returns (reply: Reply)
      requires Wired()
      modifies store, store.metrics, audit
      ensures reply in {Accepted, ServerError} <==> Admissible(request, allowlist)
      ensures reply == ServerError <==> Admissible(request, allowlist) && freshId in old(store.jobs)
      ensures reply == BadRequest <==> !ValidServiceName(request.service) || request.action !in {"start", "stop", "restart"}
      ensures reply == Forbidden <==>
              ValidServiceName(request.service) && request.action in {"start", "stop", "restart"} && request.service !in allowlist
      ensures reply in {Accepted, BadRequest, Forbidden, ServerError}
      ensures reply != Accepted ==> store.jobs == old(store.jobs)
      ensures reply == ServerError ==> audit.events == old(audit.events) && store.metrics.counters == old(store.metrics.counters)
      ensures reply in {BadRequest, Forbidden} ==>
                && audit.events == old(audit.events) + [RefusalEvent(request, user, requestId)]
                && store.metrics.counters == Bumped(old(store.metrics.counters), [AUDIT_WRITES])
      ensures reply in {BadRequest, Forbidden} ==>
                exists outcome, reason ::
                  && RefusedWith(request, outcome, reason)
                  && audit.events == old(audit.events)
                       + [Audit.Event(user, "service.control", request.service + ":" + request.action, outcome, reason, requestId)]
      ensures reply == Accepted ==>
                && freshId in store.jobs
                && store.jobs[freshId].createdBy == user && store.jobs[freshId].requestId == requestId
                && store.jobs[freshId].createdAt == Timestamps.Text(now) && store.jobs[freshId].status == Queued
                && store.jobs[freshId].action == "service." + request.action && store.jobs[freshId].target == request.service
                && var target := request.service + ":" + request.action;
                   audit.events == old(audit.events) + [Audit.Event(user, "job.created", target, "accepted", "queued", requestId),
                                                        Audit.Event(user, "job.status_changed", target, "accepted", "queued", requestId)]
      ensures reply == Accepted ==>
                var job := NewQueuedJob(user, Worker.SERVICE_PREFIX + request.action, request.service, requestId,
                                        Timestamps.Text(now));
                && store.jobs == old(store.jobs)[freshId := job]
                && audit.events == old(audit.events) + CreationEvents(request, Row(freshId, job), user, requestId)
                && store.metrics.counters == Bumped(old(store.metrics.counters), [JOBS_CREATED, AUDIT_WRITES, AUDIT_WRITES])
                && Worker.AgentRequestForJob(job) == Some(request)
    {
      var error := Agent.ValidateRequest(request);
      if error.Some? {
        RefusalIsTold(request, user, requestId);
        audit.Record(RefusalEvent(request, user, requestId));
        return BadRequest;
      }
      if request.service !in allowlist {
        RefusalIsTold(request, user, requestId);
        audit.Record(RefusalEvent(request, user, requestId));
        return Forbidden;
      }
      var r := store.Create(freshId, user, Worker.SERVICE_PREFIX + request.action, request.service, requestId, now);
      if r.Err? {
        return ServerError;
      }
      var events := CreationEvents(request, r.value, user, requestId);
      RecordBoth(events, old(store.metrics.counters), JOBS_CREATED);
      Worker.StoredRequestComesBack(r.value.job, request);
      reply := Accepted;
    }

    method HandleJobDecision(id: string, approve: bool, user: int, reason: string, requestId: string, now: Timestamps.Instant)
      returns (reply: Reply)
      requires Wired()
      modifies store, store.metrics, audit
      ensures reply == NotFound <==> id !in old(store.jobs)
      ensures reply == Decided <==> id in old(store.jobs) && old(store.jobs)[id].status == Queued
      ensures reply in {NotFound, Decided, Conflict}
      ensures reply == NotFound ==> store.jobs == old(store.jobs) && audit.events == old(audit.events)
                                    && store.metrics.counters == old(store.metrics.counters)
      ensures reply == Conflict ==> store.jobs == old(store.jobs)
                                    && audit.events == old(audit.events) + [DenialEvent(id, Some(user), requestId)]
                                    && audit.events == old(audit.events)
                                         + [Audit.Event(Some(user), "job.approval_denied", "jobs:" + id, "denied",
                                                        "invalid_status", requestId)]
                                    && store.metrics.counters == Bumped(old(store.metrics.counters), [AUDIT_WRITES])
      ensures reply == Decided ==>
                && store.jobs == (if approve then ApproveStatement(old(store.jobs), id, user, Timestamps.Text(now), reason)
                                  else RejectStatement(old(store.jobs), id, user, Timestamps.Text(now), reason))
                && audit.events == old(audit.events)
                                   + DecisionEvents(approve, Row(id, store.jobs[id]), Some(user), requestId)
                && TellsDecision(audit.events[|old(audit.events)|..], approve, id, user, requestId)
                && store.metrics.counters == Bumped(old(store.metrics.counters),
                     [if approve then JOBS_APPROVED else JOBS_REJECTED, AUDIT_WRITES, AUDIT_WRITES])
    {
      var r: Result<Row, JobError>;
      if approve {
        r := store.Approve(id, user, reason, now);
      } else {
        r := store.Reject(id, user, reason, now);
      }
      if r.Err? {
        if r.error == JobNotFound {
          return NotFound;
        }
        audit.Record(DenialEvent(id, Some(user), requestId));
        return Conflict;
      }
      var events := DecisionEvents(approve, r.value, Some(user), requestId);
      RecordBoth(events, old(store.metrics.counters), if approve then JOBS_APPROVED else JOBS_REJECTED);
      reply := Decided;
    }

    /** The two events of a request whose job counter has just been incremented. */
    method RecordBoth(events: seq<Audit.Event>, ghost counters: Counters, ghost name: string)
      requires Wired() && |events| == 2 && store.metrics.counters == Bumped(counters, [name])
      modifies store.metrics, audit
      ensures audit.events == old(audit.events) + events
      ensures store.metrics.counters == Bumped(counters, [name, AUDIT_WRITES, AUDIT_WRITES])
    {
      audit.Record(events[0]);
      audit.Record(events[1]);
      BumpedTwice(counters, [name], [AUDIT_WRITES]);
      BumpedTwice(counters, [name] + [AUDIT_WRITES], [AUDIT_WRITES]);
      assert [name] + [AUDIT_WRITES] + [AUDIT_WRITES] == [name, AUDIT_WRITES, AUDIT_WRITES];
      assert old(audit.events) + [events[0]] + [events[1]] == old(audit.events) + events;
    }
  }
}
