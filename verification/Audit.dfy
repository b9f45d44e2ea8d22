/** internal/audit: an append-only event table with a bounded newest-first listing. */
module Audit {
  import opened Wrappers
  import opened Observability

  const SERVICE_CONTROL := "service.control"
  const JOB_CREATED := "job.created"
  const JOB_STATUS := "job.status_changed"
  const JOB_APPROVED := "job.approved"
  const JOB_REJECTED := "job.rejected"
  const JOB_APPROVE_DENY := "job.approval_denied"
  const JOB_STARTED := "job.started"
  const JOB_COMPLETED := "job.completed"
  const JOB_FAILED := "job.failed"
  const JOB_COMMAND_FAILED := "job.command_failed"
  const JOB_COMMAND_TIMEOUT := "job.command_timeout"
  const JOB_MUTATION_OFF := "job.mutation_disabled"

  const SUCCESS := "success"
  const FAILURE := "failure"
  const DENIED := "denied"
  const ACCEPTED := "accepted"
  const REJECTED := "rejected"

  const DEFAULT_RECENT_LIMIT: int := 50
  const MAX_RECENT_LIMIT: int := 100

  datatype Event = Event(user: Option<int>, action: string, target: string, outcome: string,
                         reason: string, requestId: string)

  function BoundedLimit(limit: int): (n: nat)
    ensures 1 <= n <= MAX_RECENT_LIMIT
    ensures 1 <= limit <= MAX_RECENT_LIMIT ==> n == limit
    ensures limit <= 0 ==> n == 50
    ensures limit > 100 ==> n == 100
  {
    if limit <= 0 then DEFAULT_RECENT_LIMIT else if limit > MAX_RECENT_LIMIT then MAX_RECENT_LIMIT else limit
  }

  function Min(a: nat, b: nat): nat
  {
    if a < b then a else b
  }

  class AuditStore {
    const metrics: Registry
    var events: seq<Event>

    constructor (metrics: Registry)
      ensures this.metrics == metrics && events == []
    {
      this.metrics := metrics;
      events := [];
    }

    method Record(event: Event)
      modifies this, metrics
      ensures events == old(events) + [event]
      ensures metrics.counters == Bumped(old(metrics.counters), [AUDIT_WRITES])
    {
      events := events + [event];
      metrics.Inc(AUDIT_WRITES);
    }

    /** ORDER BY id DESC LIMIT n: the last n events, the newest first. */
    method ListRecent(limit: int) returns (result: seq<Event>)
      ensures |result| == Min(BoundedLimit(limit), |events|)
      ensures forall i | 0 <= i < |result| :: result[i] == events[|events| - 1 - i]
    {
      var bound := BoundedLimit(limit);
      result := [];
      while |result| < bound && |result| < |events|
        invariant |result| <= bound && |result| <= |events|
        invariant forall i | 0 <= i < |result| :: result[i] == events[|events| - 1 - i]
      {
        result := result + [events[|events| - 1 - |result|]];
      }
    }
  }
}
