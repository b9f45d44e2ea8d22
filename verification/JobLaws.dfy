/** Consequences of the accounting law, and bounds on how long jobs can take. */
module JobLaws {
  import opened Wrappers
  import opened Totals
  import opened Jobs
  import opened JobRuns
  import opened JobSafety
  import opened JobAccounting
  import opened Observability
  import Audit
  import Worker
  import Handlers

  /** No thread, alive or dead, is inside a store call or owes a counter or an event. */
  predicate Settled(w: World)
  {
    forall i | 0 <= i < |w.threads| :: w.threads[i].script == [] && !w.threads[i].next.Reread?
  }

  /** Moreover every request and every worker turn is over. */
  predicate Quiet(w: World)
  {
    forall i | 0 <= i < |w.threads| :: w.threads[i].script == [] && w.threads[i].next.Stop?
  }

  lemma {:induction false} NothingOwed(p: Probe, threads: seq<Thread>)
    requires forall i | 0 <= i < |threads| :: threads[i].script == [] && !threads[i].next.Reread?
    ensures OwedBy(p, threads) == 0
  {
    if threads != [] {
      NothingOwed(p, threads[..|threads| - 1]);
    }
  }

  lemma SettledTally(p: Probe, setup: Setup, events: seq<Event>)
    requires Lifecycle(p) && Settled(Reached(setup, events))
    ensures Tally(p, Reached(setup, events).performed) == Due(p, Reached(setup, events).jobs)
  {
    AccountingLaw(p, setup, events);
    NothingOwed(p, Reached(setup, events).threads);
  }

  // ---------------------------------------------------------------- counting rows

  function Count(jobs: Table, status: Status): nat
  {
    |WithStatus(jobs, status)|
  }

  function ByStatus(status: Status, q: nat, a: nat, j: nat, r: nat, c: nat, f: nat): nat
  {
    match status
    case Queued => q
    case Approved => a
    case Rejected => j
    case Running => r
    case Completed => c
    case Failed => f
    case NotImplemented => 0
  }

  function Weight(q: nat, a: nat, j: nat, r: nat, c: nat, f: nat): (string, Job) -> nat
  {
    (id: string, job: Job) => ByStatus(job.status, q, a, j, r, c, f)
  }

  function OneStatus(status: Status, weight: nat): (string, Job) -> nat
  {
    (id: string, job: Job) => if job.status == status then weight else 0
  }

  lemma {:induction false} OneStatusCounts(jobs: Table, status: Status)
    ensures Total(jobs, OneStatus(status, 1)) == Count(jobs, status)
    decreases |jobs|
  {
    if |jobs| == 0 {
      assert WithStatus(jobs, status) == {};
    } else {
      var id :| id in jobs;
      TotalWithout(jobs, OneStatus(status, 1), id);
      OneStatusCounts(jobs - {id}, status);
      CountWithout(jobs, id, status);
    }
  }

  lemma {:induction false} WeightedStatus(jobs: Table, status: Status, weight: nat)
    ensures Total(jobs, OneStatus(status, weight)) == weight * Count(jobs, status)
    decreases weight
  {
    if weight == 0 {
      TotalOfZeros(jobs, OneStatus(status, 0));
    } else {
      TotalCombines(jobs, OneStatus(status, weight), OneStatus(status, 1), OneStatus(status, weight - 1));
      OneStatusCounts(jobs, status);
      WeightedStatus(jobs, status, weight - 1);
      var n := Count(jobs, status);
      assert weight * n == (weight - 1) * n + n;
    }
  }

  lemma WeightedSum(jobs: Table, q: nat, a: nat, j: nat, r: nat, c: nat, f: nat)
    ensures Total(jobs, Weight(q, a, j, r, c, f))
         == Total(jobs, OneStatus(Queued, q)) + Total(jobs, OneStatus(Approved, a)) + Total(jobs, OneStatus(Rejected, j))
            + Total(jobs, OneStatus(Running, r)) + Total(jobs, OneStatus(Completed, c)) + Total(jobs, OneStatus(Failed, f))
  {
    UndecidedSum(jobs, q, a, j, r, c, f);
    StartedSum(jobs, r, c, f);
  }

  lemma UndecidedSum(jobs: Table, q: nat, a: nat, j: nat, r: nat, c: nat, f: nat)
    ensures Total(jobs, Weight(q, a, j, r, c, f))
         == Total(jobs, OneStatus(Queued, q)) + Total(jobs, OneStatus(Approved, a)) + Total(jobs, OneStatus(Rejected, j))
            + Total(jobs, Weight(0, 0, 0, r, c, f))
  {
    hide Total;
    TotalCombines(jobs, Weight(q, a, j, r, c, f), OneStatus(Queued, q), Weight(0, a, j, r, c, f));
    TotalCombines(jobs, Weight(0, a, j, r, c, f), OneStatus(Approved, a), Weight(0, 0, j, r, c, f));
    TotalCombines(jobs, Weight(0, 0, j, r, c, f), OneStatus(Rejected, j), Weight(0, 0, 0, r, c, f));
  }

  lemma StartedSum(jobs: Table, r: nat, c: nat, f: nat)
    ensures Total(jobs, Weight(0, 0, 0, r, c, f))
         == Total(jobs, OneStatus(Running, r)) + Total(jobs, OneStatus(Completed, c)) + Total(jobs, OneStatus(Failed, f))
  {
    hide Total;
    TotalCombines(jobs, Weight(0, 0, 0, r, c, f), OneStatus(Running, r), Weight(0, 0, 0, 0, c, f));
    TotalCombines(jobs, Weight(0, 0, 0, 0, c, f), OneStatus(Completed, c), OneStatus(Failed, f));
  }

  /** A table-wide tally that adds up the same small numbers per status. */
  lemma DueByStatus(p: Probe, jobs: Table, q: nat, a: nat, j: nat, r: nat, c: nat, f: nat)
    requires forall id | id in jobs :: jobs[id].status != NotImplemented
    requires forall id | id in jobs ::
               Tally(p, History(Row(id, jobs[id]))) == ByStatus(jobs[id].status, q, a, j, r, c, f)
    ensures Due(p, jobs) == q * Count(jobs, Queued) + a * Count(jobs, Approved) + j * Count(jobs, Rejected)
                            + r * Count(jobs, Running) + c * Count(jobs, Completed) + f * Count(jobs, Failed)
  {
    TotalAgrees(jobs, HistoryTally(p), Weight(q, a, j, r, c, f));
    WeightedSum(jobs, q, a, j, r, c, f);
    WeightedStatus(jobs, Queued, q);
    WeightedStatus(jobs, Approved, a);
    WeightedStatus(jobs, Rejected, j);
    WeightedStatus(jobs, Running, r);
    WeightedStatus(jobs, Completed, c);
    WeightedStatus(jobs, Failed, f);
  }

  lemma CountWithout(jobs: Table, id: string, s: Status)
    requires id in jobs
    ensures Count(jobs, s) == Count(jobs - {id}, s) + if jobs[id].status == s then 1 else 0
  {
    assert WithStatus(jobs - {id}, s) == WithStatus(jobs, s) - {id};
  }

  /** jobs_by_status adds up to the number of rows. */
  lemma StatusesPartition(jobs: Table)
    requires forall id | id in jobs :: jobs[id].status != NotImplemented
    ensures Count(jobs, Queued) + Count(jobs, Approved) + Count(jobs, Rejected) + Count(jobs, Running)
            + Count(jobs, Completed) + Count(jobs, Failed) == |jobs|
  {
    TotalOfOnes(jobs, Weight(1, 1, 1, 1, 1, 1));
    WeightedSum(jobs, 1, 1, 1, 1, 1, 1);
    OneStatusCounts(jobs, Queued);
    OneStatusCounts(jobs, Approved);
    OneStatusCounts(jobs, Rejected);
    OneStatusCounts(jobs, Running);
    OneStatusCounts(jobs, Completed);
    OneStatusCounts(jobs, Failed);
  }

  // ---------------------------------------------------------------- counters

  /** Tallies of the parts of a history, for a counter. */
  lemma CounterParts(name: string, id: string, job: Job)
    ensures Tally(Counter(name), Creation(Row(id, job))) == if name == JOBS_CREATED then 1 else 0
    ensures Tally(Counter(name), Decision(true, id)) == if name == JOBS_APPROVED then 1 else 0
    ensures Tally(Counter(name), Decision(false, id)) == if name == JOBS_REJECTED then 1 else 0
    ensures Tally(Counter(name), JobAccounting.Start(id)) == if name == JOBS_CLAIMED then 1 else 0
    ensures Tally(Counter(name), Outcome(id, Worker.COMPLETION)) == if name == JOBS_COMPLETED then 1 else 0
    ensures Tally(Counter(name), Outcome(id, FailureOf(job.statusReason))) == if name == JOBS_FAILED then 1 else 0
  {
    var p := Counter(name);
    PartTally(p, Creation(Row(id, job)));
    PartTally(p, Decision(true, id));
    PartTally(p, Decision(false, id));
    PartTally(p, Outcome(id, Worker.COMPLETION));
    PartTally(p, Outcome(id, FailureOf(job.statusReason)));
    StartTally(p, id);
  }

  lemma PartTally(p: Probe, part: seq<Effect>)
    requires |part| == 3
    ensures Tally(p, part) == (if Matches(p, part[0]) then 1 else 0) + (if Matches(p, part[1]) then 1 else 0)
                              + (if Matches(p, part[2]) then 1 else 0)
  {
    assert part == [part[0], part[1], part[2]];
    TallyThree(p, part[0], part[1], part[2]);
    forall i | 0 <= i < 3 ensures Tally(p, [part[i]]) == if Matches(p, part[i]) then 1 else 0 {
      TallyOne(p, part[i]);
    }
  }

  lemma StartTally(p: Probe, id: string)
    ensures Tally(p, JobAccounting.Start(id)) == (if Matches(p, JobAccounting.Start(id)[0]) then 1 else 0)
                                   + (if Matches(p, JobAccounting.Start(id)[1]) then 1 else 0)
  {
    var s := JobAccounting.Start(id);
    assert s == [s[0]] + [s[1]];
    TallyAppend(p, [s[0]], [s[1]]);
    TallyOne(p, s[0]);
    TallyOne(p, s[1]);
  }

  /** How often a job of this status has incremented the counter. */
  function CounterWeight(name: string, status: Status): nat
  {
    if status == NotImplemented then 0
    else if name == JOBS_CREATED then 1
    else if name == JOBS_APPROVED then (if status in {Approved, Running, Completed, Failed} then 1 else 0)
    else if name == JOBS_REJECTED then (if status == Rejected then 1 else 0)
    else if name == JOBS_CLAIMED then (if status in {Running, Completed, Failed} then 1 else 0)
    else if name == JOBS_COMPLETED then (if status == Completed then 1 else 0)
    else if status == Failed then 1 else 0
  }

  /** The number of increments of a counter, by status of the rows. */
  lemma CounterDue(name: string, jobs: Table, q: nat, a: nat, j: nat, r: nat, c: nat, f: nat)
    requires forall id | id in jobs :: jobs[id].status != NotImplemented
    requires LifecycleCounter(name)
    requires forall s | s != NotImplemented :: CounterWeight(name, s) == ByStatus(s, q, a, j, r, c, f)
    ensures Due(Counter(name), jobs) == q * Count(jobs, Queued) + a * Count(jobs, Approved) + j * Count(jobs, Rejected)
                                        + r * Count(jobs, Running) + c * Count(jobs, Completed) + f * Count(jobs, Failed)
  {
    forall id | id in jobs
      ensures Tally(Counter(name), History(Row(id, jobs[id]))) == ByStatus(jobs[id].status, q, a, j, r, c, f)
    {
      CounterPerHistory(name, id, jobs[id]);
    }
    DueByStatus(Counter(name), jobs, q, a, j, r, c, f);
  }

  lemma CounterPerHistory(name: string, id: string, job: Job)
    requires LifecycleCounter(name) && job.status != NotImplemented
    ensures Tally(Counter(name), History(Row(id, job))) == CounterWeight(name, job.status)
  {
    CountersDiffer();
    HistorySum(Counter(name), id, job);
    CounterParts(name, id, job);
  }

  function IncrementsOf(effects: seq<Effect>): seq<string>
  {
    if effects == [] then []
    else IncrementsOf(effects[..|effects| - 1])
         + if effects[|effects| - 1].Inc? then [effects[|effects| - 1].name] else []
  }

  lemma OccurrencesAppend(name: string, names: seq<string>, last: string)
    ensures Occurrences(name, names + [last]) == Occurrences(name, names) + if last == name then 1 else 0
  {
    assert (names + [last])[..|names|] == names;
  }

  lemma {:induction false} OccurrencesAreTallied(name: string, effects: seq<Effect>)
    ensures Occurrences(name, IncrementsOf(effects)) == Tally(Counter(name), effects)
  {
    hide Occurrences;
    if effects == [] {
      NoOccurrences(name);
    } else {
      var before, last := effects[..|effects| - 1], effects[|effects| - 1];
      OccurrencesAreTallied(name, before);
      assert effects == before + [last];
      TallyAppend(Counter(name), before, [last]);
      TallyOne(Counter(name), last);
      hide Tally;
      if last.Inc? {
        OccurrencesAppend(name, IncrementsOf(before), last.name);
      } else {
        assert IncrementsOf(effects) == IncrementsOf(before);
      }
    }
  }

  lemma NoOccurrences(name: string)
    ensures Occurrences(name, []) == 0
  {
  }

  /** A fresh registry after these effects reads the tally, modulo 2^64. */
  lemma RegistryReadsTally(name: string, effects: seq<Effect>)
    ensures Reading(Bumped(map[], IncrementsOf(effects)), name) == Tally(Counter(name), effects) % UINT64_SIZE
  {
    OccurrencesAreTallied(name, effects);
    BumpedReading(map[], IncrementsOf(effects), name);
  }

  /** What the table says a counter should read. */
  function TableCount(name: string, jobs: Table): nat
  {
    if name == JOBS_CREATED then |jobs|
    else if name == JOBS_APPROVED then
      Count(jobs, Approved) + Count(jobs, Running) + Count(jobs, Completed) + Count(jobs, Failed)
    else if name == JOBS_REJECTED then Count(jobs, Rejected)
    else if name == JOBS_CLAIMED then Count(jobs, Running) + Count(jobs, Completed) + Count(jobs, Failed)
    else if name == JOBS_COMPLETED then Count(jobs, Completed)
    else Count(jobs, Failed)
  }

  lemma DueIsTableCount(name: string, jobs: Table)
    requires LifecycleCounter(name) && forall id | id in jobs :: jobs[id].status != NotImplemented
    ensures Due(Counter(name), jobs) == TableCount(name, jobs)
  {
    CountersDiffer();
    StatusesPartition(jobs);
    hide Due;
    hide Count;
    if name == JOBS_CREATED {
      CounterDue(name, jobs, 1, 1, 1, 1, 1, 1);
    } else if name == JOBS_APPROVED {
      CounterDue(name, jobs, 0, 1, 0, 1, 1, 1);
    } else if name == JOBS_REJECTED {
      CounterDue(name, jobs, 0, 0, 1, 0, 0, 0);
    } else if name == JOBS_CLAIMED {
      CounterDue(name, jobs, 0, 0, 0, 1, 1, 1);
    } else if name == JOBS_COMPLETED {
      CounterDue(name, jobs, 0, 0, 0, 0, 1, 0);
    } else {
      CounterDue(name, jobs, 0, 0, 0, 0, 0, 1);
    }
  }

  /** The thread, alive or dead, has hit its row and not yet incremented this counter. */
  predicate OwesCounter(name: string, th: Thread)
  {
    Inc(name) in th.script
    || (th.next.Reread? && Inc(name) in AftermathEffects(th.next.aftermath, Row(th.next.id, BLANK)))
  }

  lemma {:induction false} NoTallyIff(name: string, effects: seq<Effect>)
    ensures Tally(Counter(name), effects) == 0 <==> Inc(name) !in effects
  {
    if effects != [] {
      NoTallyIff(name, effects[1..]);
      assert effects == [effects[0]] + effects[1..];
    }
  }

  lemma OwesIff(name: string, th: Thread)
    ensures Owes(Counter(name), th) == 0 <==> !OwesCounter(name, th)
  {
    NoTallyIff(name, th.script);
    if th.next.Reread? {
      NoTallyIff(name, AftermathEffects(th.next.aftermath, Row(th.next.id, BLANK)));
    }
  }

  lemma {:induction false} OwedByIff(name: string, threads: seq<Thread>)
    ensures OwedBy(Counter(name), threads) == 0 <==> forall i | 0 <= i < |threads| :: !OwesCounter(name, threads[i])
  {
    if threads != [] {
      var n := |threads| - 1;
      OwedByIff(name, threads[..n]);
      OwesIff(name, threads[n]);
      hide OwesCounter;
      hide Owes;
    }
  }

  /**
   In every reachable state a job counter is what the table says if and only if no thread, alive or
   dead, has hit its row without having incremented that counter.
   */
  lemma CounterMatchesIff(setup: Setup, events: seq<Event>, name: string)
    requires LifecycleCounter(name)
    ensures var w := Reached(setup, events);
            Tally(Counter(name), w.performed) == TableCount(name, w.jobs)
            <==> forall i | 0 <= i < |w.threads| :: !OwesCounter(name, w.threads[i])
  {
    ReachedInv(setup, events);
    AccountingLaw(Counter(name), setup, events);
    DueIsTableCount(name, Reached(setup, events).jobs);
    OwedByIff(name, Reached(setup, events).threads);
  }

  /** When no thread owes a job counter, all of them are what the table says. */
  lemma CountersMatchTable(setup: Setup, events: seq<Event>)
    requires forall i, name | 0 <= i < |Reached(setup, events).threads| && LifecycleCounter(name) ::
               !OwesCounter(name, Reached(setup, events).threads[i])
    ensures var w := Reached(setup, events);
            var jobs := w.jobs;
            && Tally(Counter(JOBS_CREATED), w.performed) == |jobs|
            && Tally(Counter(JOBS_APPROVED), w.performed)
               == Count(jobs, Approved) + Count(jobs, Running) + Count(jobs, Completed) + Count(jobs, Failed)
            && Tally(Counter(JOBS_REJECTED), w.performed) == Count(jobs, Rejected)
            && Tally(Counter(JOBS_CLAIMED), w.performed) == Count(jobs, Running) + Count(jobs, Completed) + Count(jobs, Failed)
            && Tally(Counter(JOBS_COMPLETED), w.performed) == Count(jobs, Completed)
            && Tally(Counter(JOBS_FAILED), w.performed) == Count(jobs, Failed)
            && Count(jobs, Queued) + Count(jobs, Approved) + Count(jobs, Rejected) + Count(jobs, Running)
               + Count(jobs, Completed) + Count(jobs, Failed) == |jobs|
  {
    ReachedInv(setup, events);
    StatusesPartition(Reached(setup, events).jobs);
    CountersDiffer();
    forall name | LifecycleCounter(name)
      ensures Tally(Counter(name), Reached(setup, events).performed) == TableCount(name, Reached(setup, events).jobs)
    {
      CounterMatchesIff(setup, events, name);
    }
    hide Reached;
    hide OwesCounter;
    hide Tally;
    hide Count;
  }

  // ---------------------------------------------------------------- audit events

  lemma ActionParts(action: string, id: string, job: Job)
    ensures Tally(Action(action), Creation(Row(id, job)))
         == (if action == Audit.JOB_CREATED then 1 else 0) + (if action == Audit.JOB_STATUS then 1 else 0)
    ensures Tally(Action(action), Decision(true, id))
         == (if action == Audit.JOB_APPROVED then 1 else 0) + (if action == Audit.JOB_STATUS then 1 else 0)
    ensures Tally(Action(action), Decision(false, id))
         == (if action == Audit.JOB_REJECTED then 1 else 0) + (if action == Audit.JOB_STATUS then 1 else 0)
    ensures Tally(Action(action), JobAccounting.Start(id)) == if action == Audit.JOB_STARTED then 1 else 0
    ensures forall verdict ::
              Tally(Action(action), Outcome(id, verdict))
              == (if action == verdict.action then 1 else 0) + (if action == Audit.JOB_STATUS then 1 else 0)
  {
    var p := Action(action);
    PartTally(p, Creation(Row(id, job)));
    PartTally(p, Decision(true, id));
    PartTally(p, Decision(false, id));
    StartTally(p, id);
    forall verdict ensures Tally(p, Outcome(id, verdict))
         == (if action == verdict.action then 1 else 0) + (if action == Audit.JOB_STATUS then 1 else 0)
    {
      PartTally(p, Outcome(id, verdict));
    }
  }

  /** Every running job is in the hands of a thread, dead or alive. */
  ghost predicate RunningHeld(w: World)
  {
    forall id | id in w.jobs && w.jobs[id].status == Running :: exists i :: 0 <= i < |w.threads| && Holds(w.threads[i].next, id)
  }

  lemma StepKeepsHolder(setup: Setup, w: World, e: Event, i: nat, id: string)
    requires Inv(setup, w) && i < |w.threads| && Holds(w.threads[i].next, id)
    requires id in Step(setup, w, e).jobs && Step(setup, w, e).jobs[id].status == Running
    ensures i < |Step(setup, w, e).threads| && Holds(Step(setup, w, e).threads[i].next, id)
  {
    assert NextFits(setup, w.jobs, w.handed, w.threads[i].next);
    if e.Proceed? && e.tid == i {
      assert w.threads[i].next.Finish? ==> w.threads[i].next.verdict.status != Running;
    }
  }

  lemma NewlyRunningIsClaimed(setup: Setup, w: World, e: Event, id: string)
    requires Inv(setup, w)
    requires id in Step(setup, w, e).jobs && Step(setup, w, e).jobs[id].status == Running
    requires id !in w.jobs || w.jobs[id].status != Running
    ensures |Step(setup, w, e).threads| == |w.threads| + 1 && Holds(Step(setup, w, e).threads[|w.threads|].next, id)
  {
    assert e.Proceed? && e.tid < |w.threads| ==> NextFits(setup, w.jobs, w.handed, w.threads[e.tid].next);
  }

  lemma StepKeepsRunningHeld(setup: Setup, w: World, e: Event)
    requires Inv(setup, w) && RunningHeld(w)
    ensures RunningHeld(Step(setup, w, e))
  {
    var w' := Step(setup, w, e);
    forall id | id in w'.jobs && w'.jobs[id].status == Running
      ensures exists i :: 0 <= i < |w'.threads| && Holds(w'.threads[i].next, id)
    {
      if id in w.jobs && w.jobs[id].status == Running {
        var i :| 0 <= i < |w.threads| && Holds(w.threads[i].next, id);
        StepKeepsHolder(setup, w, e, i, id);
      } else {
        NewlyRunningIsClaimed(setup, w, e, id);
      }
    }
  }

  lemma {:induction false} ReachedRunningHeld(setup: Setup, events: seq<Event>)
    ensures RunningHeld(Reached(setup, events))
  {
    if events != [] {
      var before := events[..|events| - 1];
      ReachedRunningHeld(setup, before);
      ReachedInv(setup, before);
      StepKeepsRunningHeld(setup, Reached(setup, before), events[|events| - 1]);
    }
  }

  lemma CreatedPerHistory(id: string, job: Job)
    requires job.status != NotImplemented
    ensures Tally(Action(Audit.JOB_CREATED), History(Row(id, job))) == 1
  {
    ActionsDiffer();
    HistorySum(Action(Audit.JOB_CREATED), id, job);
    ActionParts(Audit.JOB_CREATED, id, job);
    VerdictActions(job.statusReason);
  }

  lemma StatusChangesPerHistory(id: string, job: Job)
    requires job.status != NotImplemented
    ensures Tally(Action(Audit.JOB_STATUS), History(Row(id, job))) == ByStatus(job.status, 1, 2, 2, 2, 3, 3)
  {
    ActionsDiffer();
    HistorySum(Action(Audit.JOB_STATUS), id, job);
    ActionParts(Audit.JOB_STATUS, id, job);
    VerdictActions(job.statusReason);
  }

  /**
   When every request and worker turn is over: one creation event per job, and one status event per job
   for its creation, one more if it was decided, and one more if it was finished.
   */
  lemma AuditMatchesTable(setup: Setup, events: seq<Event>)
    requires Quiet(Reached(setup, events))
    ensures var w := Reached(setup, events);
            var jobs := w.jobs;
            && Count(jobs, Running) == 0
            && Tally(Action(Audit.JOB_CREATED), w.performed) == |jobs|
            && Tally(Action(Audit.JOB_STATUS), w.performed)
               == Count(jobs, Queued) + 2 * (Count(jobs, Approved) + Count(jobs, Rejected))
                  + 3 * (Count(jobs, Completed) + Count(jobs, Failed))
  {
    ReachedInv(setup, events);
    ReachedRunningHeld(setup, events);
    assert WithStatus(Reached(setup, events).jobs, Running) == {};
    SettledTally(Action(Audit.JOB_CREATED), setup, events);
    SettledTally(Action(Audit.JOB_STATUS), setup, events);
    AuditDue(Reached(setup, events).jobs);
  }

  lemma AuditDue(jobs: Table)
    requires forall id | id in jobs :: jobs[id].status != NotImplemented
    ensures Due(Action(Audit.JOB_CREATED), jobs) == |jobs|
    ensures Due(Action(Audit.JOB_STATUS), jobs)
         == Count(jobs, Queued) + 2 * (Count(jobs, Approved) + Count(jobs, Rejected) + Count(jobs, Running))
            + 3 * (Count(jobs, Completed) + Count(jobs, Failed))
  {
    forall id | id in jobs
      ensures Tally(Action(Audit.JOB_CREATED), History(Row(id, jobs[id]))) == ByStatus(jobs[id].status, 1, 1, 1, 1, 1, 1)
      ensures Tally(Action(Audit.JOB_STATUS), History(Row(id, jobs[id]))) == ByStatus(jobs[id].status, 1, 2, 2, 2, 3, 3)
    {
      CreatedPerHistory(id, jobs[id]);
      StatusChangesPerHistory(id, jobs[id]);
    }
    StatusesPartition(jobs);
    DueByStatus(Action(Audit.JOB_CREATED), jobs, 1, 1, 1, 1, 1, 1);
    DueByStatus(Action(Audit.JOB_STATUS), jobs, 1, 2, 2, 2, 3, 3);
  }

  lemma VerdictActions(reason: string)
    ensures OutcomeAction(Worker.COMPLETION.action) && OutcomeAction(FailureOf(reason).action)
  {
  }

  /** The outcome event that a finished job has. */
  function OutcomeActionOf(job: Job): string
  {
    if job.status == Completed then Audit.JOB_COMPLETED else Worker.FailureAction(job.statusReason)
  }

  /**
   Every finished job has, under its own target, exactly one approved and one started event, no rejected one,
   and exactly one outcome event, the one that fits its status and reason.
   */
  lemma FinishedJobsHaveOneOfEach(setup: Setup, events: seq<Event>, id: string)
    requires Settled(Reached(setup, events)) && id in Reached(setup, events).jobs
    requires Reached(setup, events).jobs[id].status in {Completed, Failed}
    ensures var w := Reached(setup, events);
            var target := Worker.JobTarget(id);
            && Tally(Entry(Audit.JOB_APPROVED, target), w.performed) == 1
            && Tally(Entry(Audit.JOB_REJECTED, target), w.performed) == 0
            && Tally(Entry(Audit.JOB_STARTED, target), w.performed) == 1
            && forall action | OutcomeAction(action) ::
                 Tally(Entry(action, target), w.performed) == if action == OutcomeActionOf(w.jobs[id]) then 1 else 0
  {
    hide *;
    OutcomesAreLifecycle(Audit.JOB_APPROVED);
    EntryTally(setup, events, id, Audit.JOB_APPROVED);
    EntryTally(setup, events, id, Audit.JOB_REJECTED);
    EntryTally(setup, events, id, Audit.JOB_STARTED);
    forall action | OutcomeAction(action)
      ensures Tally(Entry(action, Worker.JobTarget(id)), Reached(setup, events).performed)
           == FinishedEntries(action, Reached(setup, events).jobs[id])
    {
      OutcomesAreLifecycle(action);
      EntryTally(setup, events, id, action);
    }
    FinishedEntriesAre(Reached(setup, events).jobs[id]);
  }

  lemma OutcomesAreLifecycle(action: string)
    ensures OutcomeAction(action) ==> LifecycleAction(action) && action !in {Audit.JOB_CREATED, Audit.JOB_STATUS}
    ensures LifecycleAction(Audit.JOB_APPROVED) && LifecycleAction(Audit.JOB_REJECTED) && LifecycleAction(Audit.JOB_STARTED)
    ensures Audit.JOB_CREATED !in {Audit.JOB_APPROVED, Audit.JOB_REJECTED, Audit.JOB_STARTED}
    ensures Audit.JOB_STATUS !in {Audit.JOB_APPROVED, Audit.JOB_REJECTED, Audit.JOB_STARTED}
  {
    ActionsDiffer();
  }

  lemma EntryTally(setup: Setup, events: seq<Event>, id: string, action: string)
    requires Settled(Reached(setup, events)) && id in Reached(setup, events).jobs
    requires Reached(setup, events).jobs[id].status in {Completed, Failed}
    requires LifecycleAction(action) && action !in {Audit.JOB_CREATED, Audit.JOB_STATUS}
    ensures Tally(Entry(action, Worker.JobTarget(id)), Reached(setup, events).performed)
         == FinishedEntries(action, Reached(setup, events).jobs[id])
  {
    ReachedInv(setup, events);
    SettledTally(Entry(action, Worker.JobTarget(id)), setup, events);
    EntriesOfFinished(action, Reached(setup, events).jobs, id);
  }

  lemma FinishedEntriesAre(job: Job)
    requires job.status in {Completed, Failed}
    ensures FinishedEntries(Audit.JOB_APPROVED, job) == 1 && FinishedEntries(Audit.JOB_STARTED, job) == 1
    ensures FinishedEntries(Audit.JOB_REJECTED, job) == 0
    ensures forall action | OutcomeAction(action) ::
              FinishedEntries(action, job) == if action == OutcomeActionOf(job) then 1 else 0
  {
    ActionsDiffer();
    VerdictActions(job.statusReason);
    assert OutcomeAction(OutcomeActionOf(job));
    hide OutcomeActionOf;
  }

  function FinishedEntries(action: string, job: Job): nat
  {
    (if action == Audit.JOB_APPROVED then 1 else 0) + (if action == Audit.JOB_STARTED then 1 else 0)
    + (if action == OutcomeActionOf(job) then 1 else 0)
  }

  lemma EntriesOfFinished(action: string, jobs: Table, id: string)
    requires forall other | other in jobs :: jobs[other].status != NotImplemented
    requires id in jobs && jobs[id].status in {Completed, Failed}
    requires action != Audit.JOB_CREATED && action != Audit.JOB_STATUS
    ensures Due(Entry(action, Worker.JobTarget(id)), jobs) == FinishedEntries(action, jobs[id])
  {
    var p := Entry(action, Worker.JobTarget(id));
    forall other | other in jobs && other != id ensures HistoryTally(p)(other, jobs[other]) == 0 {
      EntryParts(action, id, other, jobs[other]);
      HistorySum(p, other, jobs[other]);
    }
    TotalOfOne(jobs, HistoryTally(p), id);
    EntryParts(action, id, id, jobs[id]);
    HistorySum(p, id, jobs[id]);
  }

  lemma EntryParts(action: string, id: string, other: string, job: Job)
    requires action != Audit.JOB_CREATED && action != Audit.JOB_STATUS
    ensures Tally(Entry(action, Worker.JobTarget(id)), Creation(Row(other, job))) == 0
    ensures Tally(Entry(action, Worker.JobTarget(id)), Decision(true, other))
         == if action == Audit.JOB_APPROVED && other == id then 1 else 0
    ensures Tally(Entry(action, Worker.JobTarget(id)), Decision(false, other))
         == if action == Audit.JOB_REJECTED && other == id then 1 else 0
    ensures Tally(Entry(action, Worker.JobTarget(id)), JobAccounting.Start(other))
         == if action == Audit.JOB_STARTED && other == id then 1 else 0
    ensures forall verdict ::
              Tally(Entry(action, Worker.JobTarget(id)), Outcome(other, verdict))
              == if action == verdict.action && other == id then 1 else 0
  {
    var p := Entry(action, Worker.JobTarget(id));
    TargetsDiffer(id, other);
    PartTally(p, Creation(Row(other, job)));
    PartTally(p, Decision(true, other));
    PartTally(p, Decision(false, other));
    StartTally(p, other);
    forall verdict ensures Tally(p, Outcome(other, verdict)) == if action == verdict.action && other == id then 1 else 0 {
      PartTally(p, Outcome(other, verdict));
    }
  }

  lemma TargetsDiffer(a: string, b: string)
    ensures Worker.JobTarget(a) == Worker.JobTarget(b) <==> a == b
  {
    assert Worker.JobTarget(a)[5..] == a && Worker.JobTarget(b)[5..] == b;
  }

  // ---------------------------------------------------------------- progress

  function Rank(): (string, Job) -> nat
  {
    (id: string, job: Job) => RankOf(job.status)
  }

  function RankOf(status: Status): nat
  {
    match status
    case Queued => 3
    case Approved => 2
    case Running => 1
    case _ => 0
  }

  ghost function TotalRank(jobs: Table): nat
  {
    Total(jobs, Rank())
  }

  /** A step creates one job (rank 3), or makes one guarded update that lowers the rank, or leaves the table alone. */
  ghost predicate RankFits(w: World, w': World)
  {
    || (w'.moves == w.moves && w'.jobs == w.jobs)
    || (w'.moves == w.moves && TotalRank(w'.jobs) == TotalRank(w.jobs) + 3 && |w'.jobs| == |w.jobs| + 1)
    || (w'.moves == w.moves + 1 && TotalRank(w'.jobs) < TotalRank(w.jobs) && |w'.jobs| == |w.jobs|)
  }

  lemma RankDrop(jobs: Table, id: string, job: Job)
    requires id in jobs && RankOf(job.status) < RankOf(jobs[id].status)
    ensures TotalRank(jobs[id := job]) < TotalRank(jobs) && |jobs[id := job]| == |jobs|
  {
    TotalPut(jobs, Rank(), id, job);
    assert jobs[id := job].Keys == jobs.Keys;
    assert |jobs[id := job]| == |jobs[id := job].Keys| && |jobs| == |jobs.Keys|;
  }

  lemma ControlRank(setup: Setup, w: World, e: Event)
    requires e.ControlRequest?
    ensures RankFits(w, Control(setup, w, e))
  {
    if Handlers.Admissible(e.request, setup.allowlist) && e.freshId !in w.jobs {
      TotalPut(w.jobs, Rank(), e.freshId, RequestedJob(e));
    }
  }

  lemma DecideRank(w: World, e: Event)
    requires e.DecisionRequest?
    ensures RankFits(w, Decide(w, e))
  {
    if e.id in w.jobs && w.jobs[e.id].status == Queued {
      RankDrop(w.jobs, e.id, Decide(w, e).jobs[e.id]);
    }
  }

  lemma ClaimRank(w: World, e: Event)
    requires e.WorkerTurn?
    ensures RankFits(w, Claim(w, e))
  {
    if NextApproved(w.jobs).Some? {
      RankDrop(w.jobs, NextApproved(w.jobs).value, Claim(w, e).jobs[NextApproved(w.jobs).value]);
    }
  }

  lemma ConcludeRank(setup: Setup, w: World, tid: nat)
    requires Inv(setup, w) && tid < |w.threads| && w.threads[tid].next.Finish?
    ensures RankFits(w, Conclude(w, tid))
  {
    assert NextFits(setup, w.jobs, w.handed, w.threads[tid].next);
    var id := w.threads[tid].next.id;
    RankDrop(w.jobs, id, Conclude(w, tid).jobs[id]);
  }

  lemma ProceedRank(setup: Setup, w: World, e: Event)
    requires Inv(setup, w) && e.Proceed?
    ensures RankFits(w, Step(setup, w, e))
  {
    var tid := e.tid;
    if tid < |w.threads| && w.threads[tid].alive && w.threads[tid].script == [] {
      if w.threads[tid].next.Finish? {
        ConcludeRank(setup, w, tid);
      } else if w.threads[tid].next.Call? {
        assert HandOver(setup, w, tid, e).jobs == w.jobs;
      }
    }
  }

  lemma StepRank(setup: Setup, w: World, e: Event)
    requires Inv(setup, w)
    ensures RankFits(w, Step(setup, w, e))
  {
    match e
    case ControlRequest(_, _, _, _, _) => ControlRank(setup, w, e);
    case DecisionRequest(_, _, _, _, _, _) => DecideRank(w, e);
    case WorkerTurn(_) => ClaimRank(w, e);
    case Die(_) =>
    case Proceed(tid, _, _) => ProceedRank(setup, w, e);
  }

  /** So n created jobs admit at most 3n approvals, rejections, claims and finishes, in any interleaving. */
  lemma {:induction false} MovesAreBounded(setup: Setup, events: seq<Event>)
    ensures Reached(setup, events).moves + TotalRank(Reached(setup, events).jobs) <= 3 * |Reached(setup, events).jobs|
  {
    if events != [] {
      var before := events[..|events| - 1];
      MovesAreBounded(setup, before);
      ReachedInv(setup, before);
      StepRank(setup, Reached(setup, before), events[|events| - 1]);
    }
  }
}
