/** The approved jobs are a queue: how many claims an approved job can see pass by. */
module JobQueue {
  import opened Wrappers
  import opened TextOrder
  import opened Jobs
  import opened JobRuns
  import opened JobSafety
  import Agent
  import Handlers
  import Timestamps

  /** The jobs that could still be claimed before j: undecided or approved, with a smaller key. */
  function Ahead(t: Table, j: string): set<string>
    requires j in t
  {
    set id | id in t && t[id].status in {Queued, Approved} && Older(t, id, j)
  }

  ghost predicate Claims(w: World, e: Event)
  {
    e.WorkerTurn? && NextApproved(w.jobs).Some?
  }

  /** The number of successful claims in a run. */
  ghost function ClaimCount(setup: Setup, w: World, events: seq<Event>): nat
  {
    if events == [] then 0
    else
      var before := events[..|events| - 1];
      ClaimCount(setup, w, before) + if Claims(After(setup, w, before), events[|events| - 1]) then 1 else 0
  }

  /** A job created by this event sorts after j. */
  predicate SortsAfter(e: Event, j: string, createdAt: string)
  {
    e.ControlRequest? ==>
      Less(createdAt, Timestamps.Text(e.at)) || (createdAt == Timestamps.Text(e.at) && Less(j, e.freshId))
  }

  lemma {:induction false} SubsetSize<T>(a: set<T>, b: set<T>)
    requires a <= b
    ensures |a| <= |b|
  {
    if x :| x in a {
      SubsetSize(a - {x}, b - {x});
    }
  }

  /** The key of a row never changes. */
  lemma StepKeepsKey(setup: Setup, w: World, e: Event, id: string)
    requires id in w.jobs
    ensures id in Step(setup, w, e).jobs && Step(setup, w, e).jobs[id].createdAt == w.jobs[id].createdAt
  {
  }

  lemma StepCreates(setup: Setup, w: World, e: Event, id: string)
    requires id !in w.jobs && id in Step(setup, w, e).jobs
    ensures e.ControlRequest? && e.freshId == id && Step(setup, w, e).jobs[id].createdAt == Timestamps.Text(e.at)
  {
  }

  lemma NobodyGetsAhead(setup: Setup, w: World, e: Event, j: string)
    requires Inv(setup, w) && j in w.jobs && SortsAfter(e, j, w.jobs[j].createdAt)
    ensures j in Step(setup, w, e).jobs && Ahead(Step(setup, w, e).jobs, j) <= Ahead(w.jobs, j)
  {
    var w' := Step(setup, w, e);
    StepKeepsKey(setup, w, e, j);
    forall id | id in Ahead(w'.jobs, j) ensures id in Ahead(w.jobs, j) {
      if id in w.jobs {
        StepKeepsKey(setup, w, e, id);
        StepFollows(setup, w, e, id);
      } else {
        StepCreates(setup, w, e, id);
        Trichotomy(w.jobs[j].createdAt, Timestamps.Text(e.at));
        Trichotomy(j, id);
      }
    }
  }

  /** A claim that passes j by takes a job that was ahead of it. */
  lemma ClaimTakesFromAhead(setup: Setup, w: World, e: Event, j: string)
    requires j in w.jobs && w.jobs[j].status == Approved && Claims(w, e)
    requires NextApproved(w.jobs).value != j
    ensures NextApproved(w.jobs).value in Ahead(w.jobs, j)
    ensures j in Step(setup, w, e).jobs && NextApproved(w.jobs).value !in Ahead(Step(setup, w, e).jobs, j)
  {
    var next := NextApproved(w.jobs).value;
    assert j in WithStatus(w.jobs, Approved);
    assert Older(w.jobs, next, j);
  }

  /**
   While j stays approved and newly created jobs sort after it, the claims that go to other jobs number
   at most the queued and approved jobs that had smaller keys when the run began.
   */
  lemma {:induction false} OvertakesAreBounded(setup: Setup, w: World, events: seq<Event>, j: string)
    requires Inv(setup, w) && j in w.jobs && w.jobs[j].status == Approved
    requires forall i | 0 <= i < |events| :: SortsAfter(events[i], j, w.jobs[j].createdAt)
    requires j in After(setup, w, events).jobs && After(setup, w, events).jobs[j].status == Approved
    ensures After(setup, w, events).jobs[j] == w.jobs[j]
    ensures ClaimCount(setup, w, events) + |Ahead(After(setup, w, events).jobs, j)| <= |Ahead(w.jobs, j)|
  {
    hide Inv, SortsAfter;
    if events != [] {
      var before, last := events[..|events| - 1], events[|events| - 1];
      var v := After(setup, w, before);
      RunKeepsInv(setup, w, before);
      HistoryIsForward(setup, w, before, j);
      StepFollows(setup, v, last, j);
      OvertakesAreBounded(setup, w, before, j);
      NobodyGetsAhead(setup, v, last, j);
      var ahead, rest := Ahead(v.jobs, j), Ahead(After(setup, w, events).jobs, j);
      SubsetSize(rest, ahead);
      if Claims(v, last) {
        var next := NextApproved(v.jobs).value;
        assert next != j;
        ClaimTakesFromAhead(setup, v, last, j);
        SubsetSize(rest, ahead - {next});
      }
    }
  }

  /** When nobody is ahead of an approved job, the next claim takes it. */
  lemma FrontOfQueueIsNext(w: World, j: string)
    requires j in w.jobs && w.jobs[j].status == Approved && Ahead(w.jobs, j) == {}
    ensures NextApproved(w.jobs) == Some(j)
  {
    assert j in WithStatus(w.jobs, Approved);
    var next := NextApproved(w.jobs).value;
    assert forall id | id in WithStatus(w.jobs, Approved) && Older(w.jobs, id, j) :: id in Ahead(w.jobs, j);
  }

  // ---------------------------------------------------------------- when a later job sorts ahead

  /** The order of the queue, on two keys. */
  predicate KeyBefore(createdAt: string, id: string, otherCreatedAt: string, other: string)
  {
    Less(createdAt, otherCreatedAt) || (createdAt == otherCreatedAt && Less(id, other))
  }

  /** A job created no earlier sorts ahead exactly if the two times are confusable, or equal and its id is smaller. */
  lemma LaterKeyIsBeforeIff(early: Timestamps.Instant, late: Timestamps.Instant, first: string, second: string)
    requires early <= late && Timestamps.FourDigitYear(late)
    ensures KeyBefore(Timestamps.Text(late), second, Timestamps.Text(early), first)
       <==> Timestamps.Confusable(early, late) || (early == late && Less(second, first))
  {
    Irreflexive(Timestamps.Text(early));
    if early < late {
      Timestamps.TextOrderOfInstants(early, late);
      if Timestamps.SameSecond(early, late) {
        Timestamps.LaterFractionIsNoPrefix(early, late);
      }
    }
    hide Timestamps.Text;
  }

  lemma {:induction false} KeyStays(setup: Setup, events: seq<Event>, n: nat, id: string)
    requires n <= |events| && id in Reached(setup, events[..n]).jobs
    ensures id in Reached(setup, events).jobs
    ensures Reached(setup, events).jobs[id].createdAt == Reached(setup, events[..n]).jobs[id].createdAt
    decreases |events|
  {
    if n < |events| {
      var before := events[..|events| - 1];
      assert before[..n] == events[..n];
      KeyStays(setup, before, n, id);
      StepKeepsKey(setup, Reached(setup, before), events[|events| - 1], id);
      hide Step;
    } else {
      assert events[..n] == events;
    }
  }

  ghost predicate Creates(setup: Setup, events: seq<Event>, i: nat)
    requires i < |events|
  {
    events[i].ControlRequest? && Handlers.Admissible(events[i].request, setup.allowlist)
    && events[i].freshId !in Reached(setup, events[..i]).jobs
  }

  lemma CreatedRow(setup: Setup, events: seq<Event>, i: nat)
    requires i < |events| && Creates(setup, events, i)
    ensures events[i].freshId in Reached(setup, events).jobs
    ensures Reached(setup, events).jobs[events[i].freshId].createdAt == Timestamps.Text(events[i].at)
  {
    assert events[..i + 1][..i] == events[..i];
    assert Reached(setup, events[..i + 1]) == Step(setup, Reached(setup, events[..i]), events[i]);
    KeyStays(setup, events, i + 1, events[i].freshId);
  }

  /** In any run whose clock does not go back: a job sorts ahead of one that was created before it exactly so. */
  lemma LaterJobSortsAheadIff(setup: Setup, events: seq<Event>, i: nat, m: nat)
    requires i < m < |events| && Creates(setup, events, i) && Creates(setup, events, m)
    requires events[i].at <= events[m].at && Timestamps.FourDigitYear(events[m].at)
    ensures events[i].freshId in Reached(setup, events).jobs && events[m].freshId in Reached(setup, events).jobs
    ensures Older(Reached(setup, events).jobs, events[m].freshId, events[i].freshId)
       <==> Timestamps.Confusable(events[i].at, events[m].at)
            || (events[i].at == events[m].at && Less(events[m].freshId, events[i].freshId))
  {
    CreatedRow(setup, events, i);
    CreatedRow(setup, events, m);
    hide Reached, Creates, Timestamps.Text;
    LaterKeyIsBeforeIff(events[i].at, events[m].at, events[i].freshId, events[m].freshId);
  }

  /** Requests that come a second or more after an approved job was created cannot delay it. */
  lemma OvertakesAreBoundedBySpacing(setup: Setup, w: World, events: seq<Event>, j: string, created: Timestamps.Instant)
    requires Inv(setup, w) && j in w.jobs && w.jobs[j].status == Approved && w.jobs[j].createdAt == Timestamps.Text(created)
    requires forall i | 0 <= i < |events| && events[i].ControlRequest? ::
               created + Timestamps.SECOND <= events[i].at && Timestamps.FourDigitYear(events[i].at)
    requires j in After(setup, w, events).jobs && After(setup, w, events).jobs[j].status == Approved
    ensures ClaimCount(setup, w, events) + |Ahead(After(setup, w, events).jobs, j)| <= |Ahead(w.jobs, j)|
  {
    forall i | 0 <= i < |events| ensures SortsAfter(events[i], j, w.jobs[j].createdAt) {
      if events[i].ControlRequest? {
        SecondLaterSortsAfter(created, events[i].at);
      }
    }
    hide SortsAfter, Inv, After;
    OvertakesAreBounded(setup, w, events, j);
  }

  lemma SecondLaterSortsAfter(created: Timestamps.Instant, at: Timestamps.Instant)
    requires created + Timestamps.SECOND <= at && Timestamps.FourDigitYear(at)
    ensures Less(Timestamps.Text(created), Timestamps.Text(at))
  {
    Timestamps.OneSecondApartAgrees(created, at);
  }

  const EARLY := "early"
  const LATE := "late"

  function Overtaking(request: Agent.Request): seq<Event>
  {
    [ControlRequest(request, None, "", EARLY, 0), ControlRequest(request, None, "", LATE, Timestamps.SECOND - 1),
     DecisionRequest(EARLY, true, 1, "", "", Timestamps.SECOND), DecisionRequest(LATE, true, 1, "", "", Timestamps.SECOND)]
  }

  /** A run in which the next claim takes a job created almost a second after another approved one. */
  lemma LaterJobIsClaimedFirst(setup: Setup, request: Agent.Request)
    requires Handlers.Admissible(request, setup.allowlist)
    ensures var jobs := Reached(setup, Overtaking(request)).jobs;
            && jobs.Keys == {EARLY, LATE} && jobs[EARLY].status == jobs[LATE].status == Approved
            && NextApproved(jobs) == Some(LATE)
  {
    OvertakingRows(setup, request);
    Timestamps.OneSecondIsNeeded();
    Irreflexive(Timestamps.Text(0));
    hide Reached, Timestamps.Text, Overtaking;
    var jobs := Reached(setup, Overtaking(request)).jobs;
    Trichotomy(Timestamps.Text(0), Timestamps.Text(Timestamps.SECOND - 1));
    assert WithStatus(jobs, Approved) == {EARLY, LATE};
    assert Older(jobs, LATE, EARLY);
    OldestIsUnique(jobs, WithStatus(jobs, Approved), LATE, NextApproved(jobs).value);
  }

  lemma OvertakingRows(setup: Setup, request: Agent.Request)
    requires Handlers.Admissible(request, setup.allowlist)
    ensures var jobs := Reached(setup, Overtaking(request)).jobs;
            && jobs.Keys == {EARLY, LATE} && jobs[EARLY].status == jobs[LATE].status == Approved
            && jobs[EARLY].createdAt == Timestamps.Text(0) && jobs[LATE].createdAt == Timestamps.Text(Timestamps.SECOND - 1)
  {
    var e := Overtaking(request);
    assert EARLY != LATE by { assert |EARLY| != |LATE|; }
    hide Timestamps.Text, Handlers.Admissible;
    assert e[..3] == [e[0], e[1], e[2]] && e[..3][..2] == [e[0], e[1]] && e[..3][..2][..1] == [e[0]] && [e[0]][..0] == [];
    assert After(setup, START, []) == START;
    var w1 := Step(setup, START, e[0]);
    assert Reached(setup, [e[0]]) == w1;
    var w2 := Step(setup, w1, e[1]);
    assert Reached(setup, e[..3][..2]) == w2;
    var w3 := Step(setup, w2, e[2]);
    assert Reached(setup, e[..3]) == w3;
    var w4 := Step(setup, w3, e[3]);
    assert Reached(setup, e) == w4;
  }
}
