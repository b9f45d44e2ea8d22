/** Which jobs can still come to an end: all but those whose worker died with them in hand. */
module JobProgress {
  import opened Wrappers
  import opened Jobs
  import opened JobRuns
  import opened JobSafety
  import opened JobTurns
  import Agent
  import Command
  import Worker
  import Handlers

  ghost predicate EndsAfter(setup: Setup, w: World, events: seq<Event>, id: string)
  {
    var v := After(setup, w, events);
    id in v.jobs && Terminal(v.jobs[id])
  }

  ghost predicate FinishesAfter(setup: Setup, w: World, events: seq<Event>, id: string)
  {
    var v := After(setup, w, events);
    id in v.jobs && v.jobs[id].status in {Completed, Failed}
  }

  predicate HeldAlive(w: World, id: string)
  {
    exists i :: 0 <= i < |w.threads| && w.threads[i].alive && Holds(w.threads[i].next, id)
  }

  const QUIET_PROCESS := Command.Started([], [], false, false)

  /** A living holder finishes its job if nothing disturbs it. */
  lemma HolderFinishes(setup: Setup, w: World, i: nat, id: string) returns (events: seq<Event>)
    requires Inv(setup, w) && i < |w.threads| && w.threads[i].alive && Holds(w.threads[i].next, id)
    ensures FinishesAfter(setup, w, events, id)
  {
    var e := Proceed(i, Agent.Delivered, QUIET_PROCESS);
    var n: nat;
    if w.threads[i].next.Call? {
      n := TurnCompletes(setup, w, e);
      var request := Worker.AgentRequestForJob(w.threads[i].next.job).value;
      Worker.VerdictsAreWellFormed(Agent.Call(setup.executor, request, e.delivery, e.process));
    } else {
      VerdictFits(setup, w, i);
      n := VerdictIsWritten(setup, w, e);
    }
    events := Again(e, n);
    assert Go(setup, w, e, n) == After(setup, w, events);
    hide After;
    hide Agent.Call;
    hide Worker.AgentRequestForJob;
  }

  /** Worker turns reach every approved job. */
  lemma {:induction false} TurnsReachApproved(setup: Setup, w: World, id: string) returns (events: seq<Event>)
    requires Inv(setup, w) && id in w.jobs && w.jobs[id].status == Approved
    ensures Inv(setup, After(setup, w, events)) && HeldAlive(After(setup, w, events), id)
    decreases |WithStatus(w.jobs, Approved)|
  {
    assert id in WithStatus(w.jobs, Approved);
    var turn := WorkerTurn(0);
    var next, v := NextApproved(w.jobs).value, Step(setup, w, turn);
    StepKeepsInv(setup, w, turn);
    ClaimShape(setup, w, 0);
    assert [turn][..0] == [] && After(setup, w, []) == w;
    assert After(setup, w, [turn]) == v;
    if next == id {
      events := [turn];
      assert v.threads[|w.threads|].alive && Holds(v.threads[|w.threads|].next, id);
    } else {
      assert WithStatus(v.jobs, Approved) == WithStatus(w.jobs, Approved) - {next};
      var rest := TurnsReachApproved(setup, v, id);
      events := [turn] + rest;
      AfterSplits(setup, w, [turn], rest);
    }
  }

  lemma QueuedCanBeRejected(setup: Setup, w: World, id: string) returns (events: seq<Event>)
    requires id in w.jobs && w.jobs[id].status == Queued
    ensures EndsAfter(setup, w, events, id)
  {
    events := [DecisionRequest(id, false, 0, "", "", 0)];
    assert events[..0] == [] && After(setup, w, []) == w;
  }

  /**
   In every reachable state a running job can come to completed or failed if and only if a living thread
   holds it.
   */
  lemma RunningEndsIffHeld(setup: Setup, events: seq<Event>, id: string)
    requires id in Reached(setup, events).jobs && Reached(setup, events).jobs[id].status == Running
    ensures (exists more :: FinishesAfter(setup, Reached(setup, events), more, id)) <==> HeldAlive(Reached(setup, events), id)
    ensures HeldAlive(Reached(setup, events), id) <==> !Abandoned(Reached(setup, events), id)
  {
    ReachedInv(setup, events);
    var w := Reached(setup, events);
    if HeldAlive(w, id) {
      var i :| 0 <= i < |w.threads| && w.threads[i].alive && Holds(w.threads[i].next, id);
      var more := HolderFinishes(setup, w, i, id);
    }
    if more :| FinishesAfter(setup, w, more, id) && Abandoned(w, id) {
      AbandonedForever(setup, w, more, id);
    }
  }

  /** So every job, whatever its status, can come to an end exactly if it is not abandoned. */
  lemma EndsIffNotAbandoned(setup: Setup, events: seq<Event>, id: string)
    requires id in Reached(setup, events).jobs
    ensures (exists more :: EndsAfter(setup, Reached(setup, events), more, id)) <==> !Abandoned(Reached(setup, events), id)
  {
    ReachedInv(setup, events);
    var w := Reached(setup, events);
    StatusDeterminesRecord(setup, events, id);
    var status := w.jobs[id].status;
    assert After(setup, w, []) == w;
    assert Terminal(w.jobs[id]) ==> EndsAfter(setup, w, [], id);
    if status == Running {
      RunningEndsIffHeld(setup, events, id);
      if more :| FinishesAfter(setup, w, more, id) {
        assert EndsAfter(setup, w, more, id);
      }
      if more :| EndsAfter(setup, w, more, id) {
        HistoryIsForward(setup, w, more, id);
        assert FinishesAfter(setup, w, more, id);
      }
    } else if status == Queued {
      var more := QueuedCanBeRejected(setup, w, id);
    } else if status == Approved {
      var first := TurnsReachApproved(setup, w, id);
      var v := After(setup, w, first);
      var i :| 0 <= i < |v.threads| && v.threads[i].alive && Holds(v.threads[i].next, id);
      var second := HolderFinishes(setup, v, i, id);
      AfterSplits(setup, w, first, second);
      assert FinishesAfter(setup, v, second, id);
      assert EndsAfter(setup, w, first + second, id);
    }
  }

  // ---------------------------------------------------------------- a run to the agent's door

  const JOB := "j"

  function Opening(request: Agent.Request): seq<Event>
  {
    [ControlRequest(request, None, "", JOB, 0), DecisionRequest(JOB, true, 1, "", "", 0), WorkerTurn(0)]
  }

  /** A request that is admitted, approved and claimed: the worker is about to report the start and call the agent. */
  lemma OpeningClaims(setup: Setup, request: Agent.Request)
    requires Handlers.Admissible(request, setup.allowlist)
    ensures var w := Reached(setup, Opening(request));
            && w.jobs.Keys == {JOB} && w.jobs[JOB].status == Running && w.handed == []
            && |w.threads| == 3 && w.threads[2].alive && w.threads[2].next == Call(JOB, w.jobs[JOB])
            && Worker.AgentRequestForJob(w.jobs[JOB]) == Some(request)
  {
    var events := Opening(request);
    assert events[..2] == [events[0], events[1]] && events[..2][..1] == [events[0]] && [events[0]][..0] == [];
    var w1 := Step(setup, START, events[0]);
    assert After(setup, START, []) == START;
    assert Reached(setup, [events[0]]) == w1;
    Worker.StoredRequestComesBack(w1.jobs[JOB], request);
    var w2 := Step(setup, w1, events[1]);
    assert Reached(setup, events[..2]) == w2;
    assert WithStatus(w2.jobs, Approved) == {JOB};
    assert NextApproved(w2.jobs) == Some(JOB);
    ClaimShape(setup, w2, 0);
  }

  /** A run that abandons a job: the worker dies before it calls the agent. */
  lemma AbandoningRun(setup: Setup, request: Agent.Request)
    requires Handlers.Admissible(request, setup.allowlist)
    ensures Abandoned(Reached(setup, Opening(request) + [Die(2)]), JOB)
    ensures !exists more :: EndsAfter(setup, Reached(setup, Opening(request) + [Die(2)]), more, JOB)
  {
    OpeningClaims(setup, request);
    ReachedInv(setup, Opening(request));
    var w, events := Reached(setup, Opening(request)), Opening(request) + [Die(2)];
    assert events[..|events| - 1] == Opening(request);
    DeathAbandons(setup, w, 2, JOB);
    assert Reached(setup, events) == Step(setup, w, Die(2));
    hide Step;
    EndsIffNotAbandoned(setup, events, JOB);
  }
}
