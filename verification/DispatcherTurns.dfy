/** What one tick of the dispatcher starts. */
module DispatcherTurns {
  import opened Common
  import opened ExtractionJobs

  // ----- only due jobs

  // The row of a job that waits for its first attempt or a further one, and may be tried now.
  predicate MayStart(s: State, id: JobId) {
    && id in s.rows && (s.rows[id].status == Pending || s.rows[id].status == Retrying)
    && (s.rows[id].dueAt.Some? ==> s.rows[id].dueAt.value <= s.clock)
  }

  /** At some tick of the run this job's row was waiting and due. */
  ghost predicate WasDue(s: State, steps: seq<Step>, id: JobId) {
    exists k :: 0 <= k < |steps| && steps[k].Tick? && MayStart(Run(s, steps[..k]), id)
  }

  lemma {:induction false} RunSnoc(s: State, steps: seq<Step>, last: Step)
    ensures Run(s, steps + [last]) == After(Run(s, steps), last)
  {
    RunConcat(s, steps, [last]);
    assert [last][1..] == [];
  }

  lemma {:induction false} WasDueSnoc(s: State, steps: seq<Step>, last: Step, id: JobId)
    requires WasDue(s, steps, id) || (last.Tick? && MayStart(Run(s, steps), id))
    ensures WasDue(s, steps + [last], id)
  {
    var all := steps + [last];
    if WasDue(s, steps, id) {
      var k :| 0 <= k < |steps| && steps[k].Tick? && MayStart(Run(s, steps[..k]), id);
      assert all[..k] == steps[..k] && all[k] == steps[k];
    } else {
      assert all[..|steps|] == steps && all[|steps|] == last;
    }
  }

  // What the dispatcher still has to look at was due at its tick, and so was what is in flight.
  ghost predicate AllWereDue(s: State, start: State, past: seq<Step>) {
    && (s.dispatcher.Dispatching? ==> forall id :: id in s.dispatcher.due ==> WasDue(start, past, id))
    && (forall id :: id in s.inFlight ==> WasDue(start, past, id))
  }

  lemma {:induction false} StepStartsDue(start: State, past: seq<Step>, step: Step)
    requires AllWereDue(Run(start, past), start, past)
    ensures AllWereDue(After(Run(start, past), step), start, past + [step])
  {
    var s, s' := Run(start, past), After(Run(start, past), step);
    forall id | (s'.dispatcher.Dispatching? && id in s'.dispatcher.due) || id in s'.inFlight
      ensures WasDue(start, past + [step], id)
    {
      if step.Tick? && s.dispatcher.Sleeping? && s'.dispatcher.Dispatching? && id in step.due {
        assert MayStart(s, id);
      }
      WasDueSnoc(start, past, step, id);
    }
  }

  lemma {:induction false} FlightsWereDue(clock: Time, steps: seq<Step>)
    ensures AllWereDue(Run(Initial(clock), steps), Initial(clock), steps)
    decreases |steps|
  {
    if steps != [] {
      var n := |steps| - 1;
      assert steps == steps[..n] + [steps[n]];
      FlightsWereDue(clock, steps[..n]);
      StepStartsDue(Initial(clock), steps[..n], steps[n]);
      RunSnoc(Initial(clock), steps[..n], steps[n]);
    }
  }

  /** Over every run: a job has a task only if its row was waiting and due at some tick. */
  lemma {:induction false} OnlyDueJobsStart(clock: Time, steps: seq<Step>, task: TaskId)
    requires task in Run(Initial(clock), steps).tasks
    ensures WasDue(Initial(clock), steps, Run(Initial(clock), steps).tasks[task].id)
  {
    var s := Run(Initial(clock), steps);
    RunKeeps(Initial(clock), steps);
    assert GoodTask(s.tasks[task], s);
    FlightsWereDue(clock, steps);
  }

  // ----- all that fit

  lemma {:induction false} FreshTask(ids: set<TaskId>) returns (task: TaskId)
    ensures forall id :: id in ids ==> id < task
  {
    task := 0;
    if ids != {} {
      var id :| id in ids;
      var rest := FreshTask(ids - {id});
      task := if id < rest then rest else id + 1;
      forall other | other in ids
        ensures other < task
      {
        assert other == id || other in ids - {id};
      }
    }
  }

  /** The turns of one tick: the dispatcher comes to rest, having changed nothing but what is in
      flight. It started due jobs only, and all of them unless the ceiling is reached. */
  lemma {:induction false} TickStartsWhatFits(s: State) returns (turns: seq<Step>)
    requires s.dispatcher.Dispatching?
    ensures forall k :: 0 <= k < |turns| ==> turns[k].Dispatch?
    ensures var s', due := Run(s, turns), s.dispatcher.due;
      && s'.dispatcher == Sleeping && s'.rows == s.rows && s'.claims == s.claims && s'.clock == s.clock
      && s.inFlight <= s'.inFlight && (forall id :: id in s'.inFlight ==> id in s.inFlight || id in due)
      && ((forall id :: id in due ==> id in s'.inFlight) || |s'.inFlight| >= s.dispatcher.concurrency)
    decreases |s.dispatcher.due|
  {
    var task := FreshTask(s.tasks.Keys);
    assert task !in s.tasks;
    var next := After(s, Dispatch(task));
    if next.dispatcher == Sleeping {
      turns := [Dispatch(task)] + [];
      RunFirst(s, Dispatch(task), []);
    } else {
      var rest := TickStartsWhatFits(next);
      turns := [Dispatch(task)] + rest;
      RunFirst(s, Dispatch(task), rest);
      assert s.dispatcher.due == [s.dispatcher.due[0]] + next.dispatcher.due;
    }
  }

  // Four jobs of four runs, queued.
  function FourQueued(clock: Time): seq<Step> {
    [Enqueue(0, 0, clock), Enqueue(1, 1, clock), Enqueue(2, 2, clock), Enqueue(3, 3, clock)]
  }

  lemma {:induction false} FourRows(clock: Time)
    ensures var s := Run(Initial(clock), FourQueued(clock));
      s.dispatcher == Sleeping && s.inFlight == {} && s.clock == clock && s.rows.Keys == {0, 1, 2, 3}
      && forall id :: 0 <= id < 4 ==> s.rows[id] == Row(id, Pending, 0, Some(clock))
  {
    RunOfFour(Initial(clock), Enqueue(0, 0, clock), Enqueue(1, 1, clock), Enqueue(2, 2, clock),
      Enqueue(3, 3, clock), []);
    assert FourQueued(clock) + [] == FourQueued(clock);
  }

  lemma {:induction false} FourOfFour(flights: set<JobId>)
    requires forall id :: id in flights ==> id in [0, 1, 2, 3]
    requires (forall id :: id in [0, 1, 2, 3] ==> id in flights) || |flights| >= 4
    ensures |flights| == 4
  {
    var all: set<JobId> := {0, 1, 2, 3};
    SubsetIsSmaller(flights, all);
    if forall id :: id in [0, 1, 2, 3] ==> id in flights {
      assert 0 in [0, 1, 2, 3] && 1 in [0, 1, 2, 3] && 2 in [0, 1, 2, 3] && 3 in [0, 1, 2, 3];
      assert flights == all;
    }
  }

  /** The ceiling is reached: there is a run from the start after which four jobs are in flight. */
  lemma {:induction false} FourTogether(clock: Time) returns (steps: seq<Step>)
    ensures |Run(Initial(clock), steps).inFlight| == 4
  {
    var queued, tick := FourQueued(clock), Tick([0, 1, 2, 3], false);
    var s := Run(Initial(clock), queued);
    FourRows(clock);
    var ticked := After(s, tick);
    assert ticked == s.(dispatcher := Dispatching([0, 1, 2, 3], MAX_CONCURRENT_JOBS));
    var turns := TickStartsWhatFits(ticked);
    steps := queued + ([tick] + turns);
    RunConcat(Initial(clock), queued, [tick] + turns);
    RunFirst(s, tick, turns);
    FourOfFour(Run(ticked, turns).inFlight);
  }
}
