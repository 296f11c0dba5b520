/** One extraction job as its task runs it, from load to mark: the straight-line code behind
    the steps of `ExtractionJobs`. */
module JobRunner {
  import opened Common
  import opened ExtractionJobs

  /** What the world answers: whether reads and writes succeed, whether there is a plan and
      the setting is on, whether the extraction is applied, and how long it takes. */
  datatype World = World(readable: bool, planned: bool, enabled: bool, claimed: bool,
                         applied: bool, elapsed: nat, marked: bool)

  datatype Outcome =
    | Gone
    | NotDue
    | Skipped
    | Applied
    | RetryScheduled(attempts: nat)
    | Failed(attempts: nat)

  const ME: TaskId := 0

  /** The steps of the protocol that an outcome stands for. */
  function Trace(outcome: Outcome, w: World): seq<Step> {
    var plan := Plan(ME, w.planned && w.enabled);
    match outcome
    case Gone => [Load(ME, w.readable)]
    case NotDue => [Load(ME, w.readable), plan, Claim(ME, w.claimed)]
    case Skipped => [Load(ME, w.readable), plan, Skip(ME, w.marked)]
    case _ =>
      [Load(ME, w.readable), plan, Claim(ME, w.claimed), Advance(w.elapsed), Extract(ME, w.applied), Mark(ME, w.marked)]
  }

  function StatusOf(outcome: Outcome): Status {
    match outcome
    case RetryScheduled(_) => Retrying
    case Failed(_) => Status.Failed
    case _ => Completed
  }

  function OutcomeOf(attempts: nat, applied: bool): Outcome {
    if applied then Applied
    else if attempts >= MAX_ATTEMPTS then Outcome.Failed(attempts)
    else RetryScheduled(attempts)
  }

  lemma {:induction false} RunOfThree(s: State, a: Step, b: Step, c: Step)
    ensures Run(s, [a, b, c]) == After(After(After(s, a), b), c)
  {
    RunFirst(s, a, [b, c]);
    RunFirst(After(s, a), b, [c]);
    RunFirst(After(After(s, a), b), c, []);
    assert [a] + [b, c] == [a, b, c] && [b] + [c] == [b, c] && [c] + [] == [c];
  }

  lemma {:induction false} RunNext(s: State, first: Step, rest: seq<Step>, next: State)
    requires After(s, first) == next
    ensures Run(s, [first] + rest) == Run(next, rest)
  {
    RunFirst(s, first, rest);
  }

  // The runs of the three longer traces, step by step.
  lemma {:induction false} SkippedRun(s: State, w: World)
    ensures Run(s, Trace(Outcome.Skipped, w)) ==
            AfterSkip(AfterPlan(AfterLoad(s, ME, w.readable), ME, w.planned && w.enabled), ME, w.marked)
  {
    RunOfThree(s, Load(ME, w.readable), Plan(ME, w.planned && w.enabled), Skip(ME, w.marked));
  }

  lemma {:induction false} NotDueRun(s: State, w: World)
    ensures Run(s, Trace(NotDue, w)) ==
            AfterClaim(AfterPlan(AfterLoad(s, ME, w.readable), ME, w.planned && w.enabled), ME, w.claimed)
  {
    RunOfThree(s, Load(ME, w.readable), Plan(ME, w.planned && w.enabled), Claim(ME, w.claimed));
  }

  function AfterWait(s: State, span: nat): State {
    s.(clock := s.clock + span)
  }

  function LastThree(w: World): seq<Step> {
    [Advance(w.elapsed), Extract(ME, w.applied), Mark(ME, w.marked)]
  }

  lemma {:induction false} FinishRun(s: State, w: World)
    ensures Run(s, LastThree(w)) == AfterMark(AfterExtract(AfterWait(s, w.elapsed), ME, w.applied), ME, w.marked)
  {
    var waited := AfterWait(s, w.elapsed);
    var extracted := AfterExtract(waited, ME, w.applied);
    RunNext(s, Advance(w.elapsed), [Extract(ME, w.applied), Mark(ME, w.marked)], waited);
    RunNext(waited, Extract(ME, w.applied), [Mark(ME, w.marked)], extracted);
    RunNext(extracted, Mark(ME, w.marked), [], AfterMark(extracted, ME, w.marked));
    assert [Mark(ME, w.marked)] + [] == [Mark(ME, w.marked)];
    assert [Extract(ME, w.applied)] + [Mark(ME, w.marked)] == [Extract(ME, w.applied), Mark(ME, w.marked)];
    assert [Advance(w.elapsed)] + [Extract(ME, w.applied), Mark(ME, w.marked)] == LastThree(w);
  }

  lemma {:induction false} FullRun(s: State, w: World, outcome: Outcome)
    requires !outcome.Gone? && !outcome.NotDue? && !outcome.Skipped?
    ensures Run(s, Trace(outcome, w)) ==
            var chosen := AfterPlan(AfterLoad(s, ME, w.readable), ME, w.planned && w.enabled);
            AfterMark(AfterExtract(AfterWait(AfterClaim(chosen, ME, w.claimed), w.elapsed), ME, w.applied),
                      ME, w.marked)
  {
    var plan := Plan(ME, w.planned && w.enabled);
    var loaded := AfterLoad(s, ME, w.readable);
    var chosen := AfterPlan(loaded, ME, w.planned && w.enabled);
    var rest := [Claim(ME, w.claimed)] + LastThree(w);
    RunNext(s, Load(ME, w.readable), [plan] + rest, loaded);
    RunNext(loaded, plan, rest, chosen);
    RunNext(chosen, Claim(ME, w.claimed), LastThree(w), AfterClaim(chosen, ME, w.claimed));
    FinishRun(AfterClaim(chosen, ME, w.claimed), w);
    assert [Load(ME, w.readable)] + ([plan] + rest) == Trace(outcome, w);
  }

  /** The protocol's state with one task and nothing else under way. */
  function Alone(rows: map<JobId, Row>, clock: Time, claims: map<JobId, seq<Time>>, task: Task): State {
    State(rows, map[ME := task], {task.id}, Sleeping, clock, claims)
  }

  lemma {:induction false} Replaced(a: Task, b: Task)
    ensures map[ME := a][ME := b] == map[ME := b]
  {
  }

  lemma {:induction false} LoadAlone(rows: map<JobId, Row>, clock: Time, claims: map<JobId, seq<Time>>, id: JobId,
                                     readable: bool)
    ensures AfterLoad(Alone(rows, clock, claims, Loading(id)), ME, readable) ==
            Alone(rows, clock, claims,
              if readable && id in rows && rows[id].Claimable() && rows[id].IsDue(clock) then Planning(id, rows[id])
              else Leaving(id))
  {
    Replaced(Loading(id), Leaving(id));
    if id in rows {
      Replaced(Loading(id), Planning(id, rows[id]));
    }
  }

  lemma {:induction false} PlanAlone(rows: map<JobId, Row>, clock: Time, claims: map<JobId, seq<Time>>, id: JobId,
                                     job: Row, go: bool)
    ensures AfterPlan(Alone(rows, clock, claims, Planning(id, job)), ME, go) ==
            Alone(rows, clock, claims, if go then Claiming(id, job) else Skipping(id, job))
  {
    Replaced(Planning(id, job), if go then Claiming(id, job) else Skipping(id, job));
  }

  predicate Takes(rows: map<JobId, Row>, clock: Time, id: JobId, w: World) {
    w.readable && id in rows && rows[id].Claimable() && rows[id].IsDue(clock)
  }

  // A row that cannot be taken up: the task leaves, and no step but its last follows.
  lemma {:induction false} NotTaken(rows: map<JobId, Row>, clock: Time, claims: map<JobId, seq<Time>>, id: JobId,
                                    w: World)
    requires !Takes(rows, clock, id, w)
    ensures var s, t := Alone(rows, clock, claims, Loading(id)), Alone(rows, clock, claims, Leaving(id));
            Run(s, Trace(Gone, w)) == t && Run(s, Trace(NotDue, w)) == t
  {
    var s := Alone(rows, clock, claims, Loading(id));
    LoadAlone(rows, clock, claims, id, w.readable);
    RunFirst(s, Load(ME, w.readable), []);
    NotDueRun(s, w);
  }

  lemma {:induction false} Taken(rows: map<JobId, Row>, clock: Time, claims: map<JobId, seq<Time>>, id: JobId, w: World)
    requires Takes(rows, clock, id, w)
    ensures AfterPlan(AfterLoad(Alone(rows, clock, claims, Loading(id)), ME, w.readable), ME, w.planned && w.enabled) ==
            Alone(rows, clock, claims,
              if w.planned && w.enabled then Claiming(id, rows[id]) else Skipping(id, rows[id]))
  {
    LoadAlone(rows, clock, claims, id, w.readable);
    PlanAlone(rows, clock, claims, id, rows[id], w.planned && w.enabled);
  }

  function MarkingAs(id: JobId, job: Row, now: Time, applied: bool): Task {
    if applied then Marking(id, job, Completed, job.dueAt)
    else if job.attempts + 1 >= MAX_ATTEMPTS then Marking(id, job, Status.Failed, job.dueAt)
    else Marking(id, job, Retrying, Some(now + Backoff(job.attempts + 1)))
  }

  lemma {:induction false} ExtractAlone(rows: map<JobId, Row>, clock: Time, claims: map<JobId, seq<Time>>,
                                        id: JobId, job: Row, w: World)
    ensures AfterExtract(AfterWait(Alone(rows, clock, claims, Extracting(id, job)), w.elapsed), ME, w.applied) ==
            Alone(rows, clock + w.elapsed, claims, MarkingAs(id, job, clock + w.elapsed, w.applied))
  {
    Replaced(Extracting(id, job), MarkingAs(id, job, clock + w.elapsed, w.applied));
  }

  lemma {:induction false} MarkAlone(rows: map<JobId, Row>, clock: Time, claims: map<JobId, seq<Time>>, t: Task,
                                     written: bool)
    requires t.Marking?
    ensures AfterMark(Alone(rows, clock, claims, t), ME, written) ==
            Alone(if written && t.id in rows then rows[t.id := rows[t.id].(status := t.status, dueAt := t.dueAt)]
                  else rows,
                  clock, claims, Leaving(t.id))
  {
    Replaced(t, Leaving(t.id));
  }

  lemma {:induction false} SkipAlone(rows: map<JobId, Row>, clock: Time, claims: map<JobId, seq<Time>>, id: JobId,
                                     job: Row, written: bool)
    ensures AfterSkip(Alone(rows, clock, claims, Skipping(id, job)), ME, written) ==
            Alone(if written && id in rows then rows[id := rows[id].(status := Status.Skipped, dueAt := job.dueAt)]
                  else rows,
                  clock, claims, Leaving(id))
  {
    Replaced(Skipping(id, job), Leaving(id));
  }

  // The row can be read, and waits for its first attempt or a further one.
  predicate Waits(rows: map<JobId, Row>, id: JobId, w: World) {
    w.readable && id in rows && (rows[id].status == Pending || rows[id].status == Retrying)
  }

  // Its next attempt is for later.
  predicate ForLater(row: Row, now: Time) {
    row.dueAt.Some? && now < row.dueAt.value
  }

  /** Which answer says that nothing was done, and why. */
  ghost predicate Declined(outcome: Outcome, rows: map<JobId, Row>, id: JobId, now: Time, w: World) {
    && (outcome.Gone? <==> !Waits(rows, id, w))
    && (Waits(rows, id, w) ==>
          && (outcome.NotDue? <==> ForLater(rows[id], now) || (w.planned && w.enabled && !w.claimed))
          && (outcome.Skipped? <==> !ForLater(rows[id], now) && !(w.planned && w.enabled)))
  }

  class Runner {
    var rows: map<JobId, Row>
    var clock: Time
    ghost var claims: map<JobId, seq<Time>>

    constructor (clock: Time)
      ensures rows == map[] && claims == map[] && this.clock == clock
    {
      this.rows, this.clock, this.claims := map[], clock, map[];
    }

    ghost function With(task: Task): State
      reads this
    {
      Alone(rows, clock, claims, task)
    }

    /** Insert a job for a run that exists, unless it has one. */
    method Enqueue(run: RunId, runExists: bool, newId: JobId) returns (inserted: bool)
      requires newId !in claims && rows.Keys <= claims.Keys
      modifies this
      ensures inserted <==> runExists && forall id :: id in old(rows) ==> old(rows)[id].run != run
      ensures forall task ::
        With(task) == if runExists then AfterEnqueue(old(With(task)), run, newId, clock) else old(With(task))
    {
      if !runExists {
        return false;
      }
      if HasJob(rows, run) {
        return false;
      }
      rows := rows[newId := Row(run, Pending, 0, Some(clock))];
      claims := claims[newId := []];
      return true;
    }

    /** Compare-and-set from claimable to running. */
    method TryClaim(job: Row, id: JobId, reachable: bool) returns (ok: bool)
      requires rows.Keys <= claims.Keys
      modifies this`rows, this`claims
      ensures ok <==> reachable && id in old(rows) && old(rows)[id].Claimable()
      ensures With(if ok then Extracting(id, job) else Leaving(id)) ==
              AfterClaim(old(With(Claiming(id, job))), ME, reachable)
    {
      Replaced(Claiming(id, job), Leaving(id));
      Replaced(Claiming(id, job), Extracting(id, job));
      if !reachable || id !in rows || !rows[id].Claimable() {
        return false;
      }
      rows := rows[id := rows[id].(status := Running, attempts := rows[id].attempts + 1)];
      claims := claims[id := claims[id] + [clock]];
      return true;
    }

    /** The best-effort write of the next state. */
    method MarkRow(id: JobId, status: Status, dueAt: Option<Time>, reachable: bool)
      modifies this`rows
      ensures rows == if reachable && id in old(rows)
                      then old(rows)[id := old(rows)[id].(status := status, dueAt := dueAt)] else old(rows)
    {
      if reachable && id in rows {
        rows := rows[id := rows[id].(status := status, dueAt := dueAt)];
      }
    }

    predicate Marked(id: JobId, status: Status, written: bool)
      reads this
    {
      id in rows && (written ==> rows[id].status == status)
    }

    // A job without a plan, or with the setting off.
    method SkipRow(id: JobId, job: Row, w: World)
      modifies this`rows
      ensures With(Leaving(id)) == AfterSkip(old(With(Skipping(id, job))), ME, w.marked)
    {
      SkipAlone(rows, clock, claims, id, job, w.marked);
      MarkRow(id, Status.Skipped, job.dueAt, w.marked);
    }

    // From a claimed job to its outcome.
    method Finish(id: JobId, job: Row, w: World) returns (outcome: Outcome)
      requires id in rows && rows[id].attempts == job.attempts + 1
      modifies this`rows, this`clock
      ensures outcome == OutcomeOf(job.attempts + 1, w.applied)
      ensures With(Leaving(id)) ==
              AfterMark(AfterExtract(AfterWait(old(With(Extracting(id, job))), w.elapsed), ME, w.applied), ME, w.marked)
      ensures Marked(id, StatusOf(outcome), w.marked) && rows[id].attempts == old(rows)[id].attempts
      ensures w.marked && outcome.RetryScheduled? ==> rows[id].dueAt == Some(clock + Backoff(job.attempts + 1))
    {
      ExtractAlone(rows, clock, claims, id, job, w);
      clock := clock + w.elapsed;
      MarkAlone(rows, clock, claims, MarkingAs(id, job, clock, w.applied), w.marked);
      var attempts := job.attempts + 1;
      if w.applied {
        MarkRow(id, Completed, job.dueAt, w.marked);
        return Applied;
      } else if attempts >= MAX_ATTEMPTS {
        MarkRow(id, Status.Failed, job.dueAt, w.marked);
        return Outcome.Failed(attempts);
      } else {
        MarkRow(id, Retrying, Some(clock + Backoff(attempts)), w.marked);
        return RetryScheduled(attempts);
      }
    }

    // From a planned job to its outcome.
    method Attempt(id: JobId, job: Row, w: World) returns (outcome: Outcome)
      requires rows.Keys <= claims.Keys && id in rows && rows[id] == job
      modifies this
      ensures job.Claimable() ==> (outcome.NotDue? <==> !w.claimed)
      ensures outcome.NotDue? || outcome == OutcomeOf(job.attempts + 1, w.applied)
      ensures outcome.NotDue? ==>
        rows == old(rows) && With(Leaving(id)) == AfterClaim(old(With(Claiming(id, job))), ME, w.claimed)
      ensures !outcome.NotDue? ==>
        && With(Leaving(id)) ==
           AfterMark(AfterExtract(AfterWait(AfterClaim(old(With(Claiming(id, job))), ME, w.claimed), w.elapsed),
             ME, w.applied), ME, w.marked)
        && Marked(id, StatusOf(outcome), w.marked) && rows[id].attempts == job.attempts + 1
      ensures w.marked && outcome.RetryScheduled? ==> rows[id].dueAt == Some(clock + Backoff(job.attempts + 1))
    {
      var claimed := TryClaim(job, id, w.claimed);
      if !claimed {
        return NotDue;
      }
      outcome := Finish(id, job, w);
    }

    method Work(id: JobId, w: World) returns (outcome: Outcome)
      requires rows.Keys <= claims.Keys
      modifies this
      ensures With(Leaving(id)) == Run(old(With(Loading(id))), Trace(outcome, w))
      ensures outcome.Gone? || outcome.NotDue? ==> rows == old(rows)
      ensures Declined(outcome, old(rows), id, old(clock), w)
      ensures outcome.Applied? ==> w.applied && Marked(id, Completed, w.marked)
      ensures outcome.RetryScheduled? ==>
        && !w.applied && Marked(id, Retrying, w.marked) && 1 <= rows[id].attempts == outcome.attempts < MAX_ATTEMPTS
        && (w.marked ==> rows[id].dueAt == Some(clock + Backoff(outcome.attempts)))
      ensures outcome.Failed? ==>
        !w.applied && Marked(id, Status.Failed, w.marked) && rows[id].attempts == outcome.attempts >= MAX_ATTEMPTS
    {
      ghost var start := With(Loading(id));
      if !w.readable || id !in rows || !rows[id].Claimable() {
        NotTaken(rows, clock, claims, id, w);
        return Gone;
      }
      var job := rows[id];
      if !job.IsDue(clock) {
        NotTaken(rows, clock, claims, id, w);
        return NotDue;
      }
      Taken(rows, clock, claims, id, w);
      if !w.planned || !w.enabled {
        SkipRow(id, job, w);
        SkippedRun(start, w);
        return Outcome.Skipped;
      }
      outcome := Attempt(id, job, w);
      if outcome.NotDue? {
        NotDueRun(start, w);
      } else {
        FullRun(start, w, outcome);
      }
    }

    /** Load, check, plan, claim, extract and mark. What the task does is a run of the
        protocol's steps, so the invariant holds when it leaves. */
    method ProcessJob(id: JobId, w: World) returns (outcome: Outcome)
      requires Inv(With(Loading(id)))
      modifies this
      ensures With(Leaving(id)) == Run(old(With(Loading(id))), Trace(outcome, w)) && Inv(With(Leaving(id)))
      ensures outcome.Gone? || outcome.NotDue? ==> rows == old(rows)
      ensures Declined(outcome, old(rows), id, old(clock), w)
      ensures outcome.Applied? ==> w.applied && Marked(id, Completed, w.marked)
      ensures outcome.RetryScheduled? ==>
        && !w.applied && Marked(id, Retrying, w.marked) && 1 <= rows[id].attempts == outcome.attempts < MAX_ATTEMPTS
        && (w.marked ==> rows[id].dueAt == Some(clock + Backoff(outcome.attempts)))
      ensures outcome.Failed? ==>
        !w.applied && Marked(id, Status.Failed, w.marked) && rows[id].attempts == outcome.attempts == MAX_ATTEMPTS
    {
      ghost var start := With(Loading(id));
      outcome := Work(id, w);
      RunKeeps(start, Trace(outcome, w));
    }
  }
}
