/** What holds of jobs in every reachable state of every interleaving. */
module JobSafety {
  import opened Wrappers
  import opened Jobs
  import opened JobRuns
  import opened ServiceNames
  import Agent
  import Worker

  ghost function Reached(setup: Setup, events: seq<Event>): World
  {
    After(setup, START, events)
  }

  lemma ReachedInv(setup: Setup, events: seq<Event>)
    ensures Inv(setup, Reached(setup, events))
  {
    RunKeepsInv(setup, START, events);
  }

  /** A run splits at any point. */
  lemma {:induction false} AfterSplits(setup: Setup, w: World, first: seq<Event>, second: seq<Event>)
    ensures After(setup, w, first + second) == After(setup, After(setup, w, first), second)
  {
    if second == [] {
      assert first + second == first;
    } else {
      AfterSplits(setup, w, first, second[..|second| - 1]);
      assert (first + second)[..|first + second| - 1] == first + second[..|second| - 1];
    }
  }

  /**
   Each job is handed to the agent at most once; a handed job has been approved, was never rejected
   and carries the request it was created with, which was valid and on the daemon's allowlist.
   */
  lemma HandedAtMostOnceAndApproved(setup: Setup, events: seq<Event>)
    ensures var w := Reached(setup, events);
            (forall i, j | 0 <= i < j < |w.handed| :: w.handed[i].id != w.handed[j].id) &&
            forall k | 0 <= k < |w.handed| ::
              && w.handed[k].id in w.jobs
              && ApprovalOnly(w.jobs[w.handed[k].id])
              && w.jobs[w.handed[k].id].startedAt.Some?
              && Worker.AgentRequestForJob(w.jobs[w.handed[k].id]) == Some(w.handed[k].request)
              && ValidServiceName(w.handed[k].request.service) && w.handed[k].request.action in {"start", "stop", "restart"}
              && w.handed[k].request.service in setup.allowlist
  {
    ReachedInv(setup, events);
    var w := Reached(setup, events);
    forall k | 0 <= k < |w.handed| ensures ApprovalOnly(w.jobs[w.handed[k].id]) && w.jobs[w.handed[k].id].startedAt.Some? {
      assert RecordMatchesStatus(w.jobs[w.handed[k].id]);
    }
  }

  /** An approval recorded in a row comes from one approving request that found the job queued. */
  lemma {:induction false} ApprovalWasDecided(setup: Setup, events: seq<Event>, id: string) returns (i: nat)
    requires id in Reached(setup, events).jobs && Reached(setup, events).jobs[id].approvedBy.Some?
    ensures i < |events| && events[i].DecisionRequest? && events[i].approve && events[i].id == id
    ensures events[i].decider == Reached(setup, events).jobs[id].approvedBy.value
    ensures id in Reached(setup, events[..i]).jobs && Reached(setup, events[..i]).jobs[id].status == Queued
  {
    hide *;
    NothingAtStart(setup, events, id);
    var before, last := events[..|events| - 1], events[|events| - 1];
    ReachedInv(setup, before);
    ReachedStep(setup, events);
    var w := Reached(setup, before);
    if id in w.jobs && w.jobs[id].approvedBy == Reached(setup, events).jobs[id].approvedBy {
      i := ApprovalWasDecided(setup, before, id);
      assert before[..i] == events[..i];
    } else {
      StepApproves(setup, w, last, id);
      i := |events| - 1;
    }
  }

  lemma NothingAtStart(setup: Setup, events: seq<Event>, id: string)
    requires id in Reached(setup, events).jobs
    ensures events != []
  {
  }

  lemma ReachedStep(setup: Setup, events: seq<Event>)
    requires events != []
    ensures Reached(setup, events) == Step(setup, Reached(setup, events[..|events| - 1]), events[|events| - 1])
  {
  }

  /** Only an approving decision on a queued job writes an approval. */
  lemma StepApproves(setup: Setup, w: World, e: Event, id: string)
    requires Inv(setup, w) && id in Step(setup, w, e).jobs && Step(setup, w, e).jobs[id].approvedBy.Some?
    requires !(id in w.jobs && w.jobs[id].approvedBy == Step(setup, w, e).jobs[id].approvedBy)
    ensures e.DecisionRequest? && e.approve && e.id == id && id in w.jobs && w.jobs[id].status == Queued
    ensures e.decider == Step(setup, w, e).jobs[id].approvedBy.value
  {
    hide CreationEffects, AftermathEffects, ClaimEffects, CallEffects, Inv;
  }

  /** In every reachable state the status of a job determines which fields of its row are set; not_implemented is never reached. */
  lemma StatusDeterminesRecord(setup: Setup, events: seq<Event>, id: string)
    requires id in Reached(setup, events).jobs
    ensures RecordMatchesStatus(Reached(setup, events).jobs[id])
    ensures Reached(setup, events).jobs[id].status != NotImplemented
  {
    ReachedInv(setup, events);
  }

  /** Statuses only move forward. */
  predicate Follows(before: Job, after: Job)
  {
    match before.status
    case Queued => true
    case Approved => after == before || after.status in {Running, Completed, Failed}
    case Running => after == before || after.status in {Completed, Failed}
    case _ => after == before
  }

  /** What a thread with a verdict is about to write. */
  lemma VerdictFits(setup: Setup, w: World, tid: nat)
    requires Inv(setup, w) && tid < |w.threads| && w.threads[tid].next.Finish?
    ensures var id, verdict := w.threads[tid].next.id, w.threads[tid].next.verdict;
            id in w.jobs && w.jobs[id].status == Running && verdict.status in {Completed, Failed}
  {
    assert NextFits(setup, w.jobs, w.handed, w.threads[tid].next);
  }

  lemma StepFollows(setup: Setup, w: World, e: Event, id: string)
    requires Inv(setup, w) && id in w.jobs
    ensures id in Step(setup, w, e).jobs && Follows(w.jobs[id], Step(setup, w, e).jobs[id])
  {
    hide Inv, Step, Follows;
    if e.Proceed? {
      ProceedFollows(setup, w, e, id);
    } else {
      ArrivalFollows(setup, w, e, id);
    }
  }

  lemma ArrivalFollows(setup: Setup, w: World, e: Event, id: string)
    requires id in w.jobs && !e.Proceed?
    ensures id in Step(setup, w, e).jobs && Follows(w.jobs[id], Step(setup, w, e).jobs[id])
  {
    hide CreationEffects, ClaimEffects;
  }

  lemma ProceedFollows(setup: Setup, w: World, e: Event, id: string)
    requires Inv(setup, w) && id in w.jobs && e.Proceed?
    ensures id in Step(setup, w, e).jobs && Follows(w.jobs[id], Step(setup, w, e).jobs[id])
  {
    if e.tid < |w.threads| && w.threads[e.tid].next.Finish? {
      VerdictFits(setup, w, e.tid);
    }
    hide Inv, AftermathEffects, CallEffects;
  }

  /** Rows are never lost, statuses never go back, and rejected, completed and failed rows never change again. */
  lemma {:induction false} HistoryIsForward(setup: Setup, w: World, events: seq<Event>, id: string)
    requires Inv(setup, w) && id in w.jobs
    ensures id in After(setup, w, events).jobs && Follows(w.jobs[id], After(setup, w, events).jobs[id])
  {
    if events != [] {
      var before := events[..|events| - 1];
      HistoryIsForward(setup, w, before, id);
      RunKeepsInv(setup, w, before);
      StepFollows(setup, After(setup, w, before), events[|events| - 1], id);
    }
  }

  lemma TerminalRowsNeverChange(setup: Setup, first: seq<Event>, second: seq<Event>, id: string)
    requires id in Reached(setup, first).jobs && Terminal(Reached(setup, first).jobs[id])
    ensures id in Reached(setup, first + second).jobs
    ensures Reached(setup, first + second).jobs[id] == Reached(setup, first).jobs[id]
  {
    ReachedInv(setup, first);
    AfterSplits(setup, START, first, second);
    HistoryIsForward(setup, Reached(setup, first), second, id);
  }

  /**
   A completed job: the agent had mutation enabled, the name valid and allowlisted, the action supported, and ran
   exactly the job's action and service to success with both streams within the limit.
   */
  lemma CompletedWasExecuted(setup: Setup, events: seq<Event>, id: string)
    requires id in Reached(setup, events).jobs && Reached(setup, events).jobs[id].status == Completed
    ensures var w := Reached(setup, events);
            exists k | 0 <= k < |w.handed| ::
              && w.handed[k].id == id
              && w.handed[k].request.service == w.jobs[id].target
              && Worker.SERVICE_PREFIX + w.handed[k].request.action == w.jobs[id].action
              && w.handed[k].process.Some?
              && Agent.Executed(setup.executor, w.handed[k].request, w.handed[k].process.value)
  {
    ReachedInv(setup, events);
    var w := Reached(setup, events);
    assert Succeeded(setup, w.handed, id, w.jobs[id]);
    var k :| 0 <= k < |w.handed|
      && w.handed[k].id == id
      && Worker.AgentRequestForJob(w.jobs[id]) == Some(w.handed[k].request)
      && w.handed[k].process.Some?
      && Agent.Executed(setup.executor, w.handed[k].request, w.handed[k].process.value);
    assert Worker.SERVICE_PREFIX + w.handed[k].request.action == w.jobs[id].action;
  }

  // ---------------------------------------------------------------- abandoned jobs

  /** A running job that no living thread holds: its worker died between claim and finish. */
  predicate Abandoned(w: World, id: string)
  {
    id in w.jobs && w.jobs[id].status == Running
    && forall i | 0 <= i < |w.threads| :: w.threads[i].alive ==> !Holds(w.threads[i].next, id)
  }

  /** Only a living thread that holds a job hands it over. */
  lemma StepHands(setup: Setup, w: World, e: Event)
    ensures var w' := Step(setup, w, e);
            w'.handed == w.handed ||
            (&& e.Proceed? && e.tid < |w.threads| && w.threads[e.tid].alive
             && |w'.handed| == |w.handed| + 1 && w.handed <= w'.handed
             && Holds(w.threads[e.tid].next, w'.handed[|w.handed|].id))
  {
  }

  /** A step gives a thread a new job only when it claims an approved one. */
  lemma StepHolds(setup: Setup, w: World, e: Event, i: nat, id: string)
    requires i < |Step(setup, w, e).threads| && Step(setup, w, e).threads[i].alive
    requires Holds(Step(setup, w, e).threads[i].next, id)
    ensures (i < |w.threads| && w.threads[i].alive && Holds(w.threads[i].next, id))
         || (id in w.jobs && w.jobs[id].status == Approved)
  {
  }

  lemma StepKeepsAbandoned(setup: Setup, w: World, e: Event, id: string)
    requires Inv(setup, w) && Abandoned(w, id)
    ensures Abandoned(Step(setup, w, e), id)
    ensures WasHanded(Step(setup, w, e).handed, id) ==> WasHanded(w.handed, id)
  {
    var w' := Step(setup, w, e);
    StepHands(setup, w, e);
    StepFollows(setup, w, e, id);
    forall i | 0 <= i < |w'.threads| && w'.threads[i].alive ensures !Holds(w'.threads[i].next, id) {
      if Holds(w'.threads[i].next, id) {
        StepHolds(setup, w, e, i, id);
      }
    }
    OnlyHoldersFinish(setup, w, e, id);
    if k :| 0 <= k < |w'.handed| && w'.handed[k].id == id {
      assert k < |w.handed| ==> w'.handed[k] == w.handed[k];
    }
  }

  lemma OnlyHoldersFinish(setup: Setup, w: World, e: Event, id: string)
    requires Abandoned(w, id) && NextApproved(w.jobs) != Some(id)
    ensures id in Step(setup, w, e).jobs && Step(setup, w, e).jobs[id] == w.jobs[id]
  {
  }

  /** A worker that dies with a job in hand abandons it. */
  lemma DeathAbandons(setup: Setup, w: World, tid: nat, id: string)
    requires Inv(setup, w) && tid < |w.threads| && Holds(w.threads[tid].next, id)
    ensures Abandoned(Step(setup, w, Die(tid)), id)
  {
    assert NextFits(setup, w.jobs, w.handed, w.threads[tid].next);
  }

  /** Nothing recovers an abandoned job: it stays running, and is not handed to the agent (again) either. */
  lemma {:induction false} AbandonedForever(setup: Setup, w: World, events: seq<Event>, id: string)
    requires Inv(setup, w) && Abandoned(w, id)
    ensures Abandoned(After(setup, w, events), id)
    ensures After(setup, w, events).jobs[id] == w.jobs[id]
    ensures WasHanded(After(setup, w, events).handed, id) ==> WasHanded(w.handed, id)
  {
    if events != [] {
      var before := events[..|events| - 1];
      AbandonedForever(setup, w, before, id);
      RunKeepsInv(setup, w, before);
      StepKeepsAbandoned(setup, After(setup, w, before), events[|events| - 1], id);
      HistoryIsForward(setup, w, events, id);
    }
  }
}
