/** The durable extraction-job protocol: a table of job rows, a dispatcher that spawns at
    most four tasks, and tasks that claim, call a provider and write back, all interleaved
    with enqueues, passing time and writes that may be lost. */
module ExtractionJobs {
  import opened Common

  type JobId = nat
  type RunId = nat
  type TaskId = nat
  // Nanoseconds.
  type Time = int

  const SECOND: Time := 1_000_000_000
  const MAX_ATTEMPTS: nat := 3
  const RETRY_BASE_SECS: nat := 30
  const MAX_CONCURRENT_JOBS: nat := 4

  datatype Status = Pending | Running | Retrying | Completed | Failed | Skipped

  datatype Row = Row(run: RunId, status: Status, attempts: nat, dueAt: Option<Time>) {
    predicate Claimable() { status == Pending || status == Retrying }
    predicate Settled() { status == Completed || status == Failed || status == Skipped }
    // Is the backoff window, or the first attempt, open?
    predicate IsDue(now: Time) { dueAt.None? || dueAt.value <= now }
  }

  /** Where a spawned task stands. `job` is the row it loaded, as it was then. */
  datatype Task =
    | Loading(id: JobId)
    | Planning(id: JobId, job: Row)
    | Skipping(id: JobId, job: Row)
    | Claiming(id: JobId, job: Row)
    | Extracting(id: JobId, job: Row)
    | Marking(id: JobId, job: Row, status: Status, dueAt: Option<Time>)
    | Leaving(id: JobId)

  datatype Dispatcher = Sleeping | Dispatching(due: seq<JobId>, concurrency: nat)

  /** `claims` records when each job was claimed, also a deleted one; the program does not keep
      it. */
  datatype State = State(
    rows: map<JobId, Row>,
    tasks: map<TaskId, Task>,
    inFlight: set<JobId>,
    dispatcher: Dispatcher,
    clock: Time,
    claims: map<JobId, seq<Time>>)

  // The wait after the `attempts`-th attempt has failed.
  function Backoff(attempts: nat): Time
    requires attempts >= 1
  {
    RETRY_BASE_SECS * Power2(attempts - 1) * SECOND
  }

  /** Half a minute after the first attempt, and twice the last wait after each further one. */
  lemma {:induction false} BackoffDoubles(attempts: nat)
    requires attempts >= 1
    ensures Backoff(1) == 30 * 1_000_000_000
    ensures Backoff(attempts + 1) == 2 * Backoff(attempts)
  {
  }

  // ----- steps

  /** One atomic action of the process or its environment. `readable` and `written` are
      the database's answers, `go`, `foreground` and `applied` those of the settings, the
      engine and the provider. */
  datatype Step =
    | Enqueue(run: RunId, newId: JobId, stamp: Time)
    | Advance(span: nat)
    | Tick(due: seq<JobId>, foreground: bool)
    | Dispatch(task: TaskId)
    | Load(task: TaskId, readable: bool)
    | Plan(task: TaskId, go: bool)
    | Skip(task: TaskId, written: bool)
    | Claim(task: TaskId, written: bool)
    | Extract(task: TaskId, applied: bool)
    | Mark(task: TaskId, written: bool)
    | Leave(task: TaskId)
    | Delete(id: JobId)

  // A run is deleted with its job, whatever the job's task is doing.
  function AfterDelete(s: State, id: JobId): State {
    s.(rows := s.rows - {id})
  }

  predicate HasJob(rows: map<JobId, Row>, run: RunId) {
    exists id :: id in rows && rows[id].run == run
  }

  // Insert a job for a run, unless the unique run index refuses it. No id is used twice.
  function AfterEnqueue(s: State, run: RunId, newId: JobId, stamp: Time): State {
    if newId in s.claims || HasJob(s.rows, run) then s
    else s.(rows := s.rows[newId := Row(run, Pending, 0, Some(stamp))], claims := s.claims[newId := []])
  }

  // Read the due rows and fix the ceiling for this tick.
  function AfterTick(s: State, due: seq<JobId>, foreground: bool): State {
    if s.dispatcher.Sleeping?
      && (forall k :: 0 <= k < |due| ==>
            && due[k] in s.rows && s.rows[due[k]].Claimable()
            && s.rows[due[k]].IsDue(s.clock))
    then s.(dispatcher := Dispatching(due, if foreground then 1 else MAX_CONCURRENT_JOBS))
    else s
  }

  // One turn of the loop over the due rows.
  function AfterDispatch(s: State, task: TaskId): State {
    if s.dispatcher.Sleeping? || task in s.tasks then s
    else if s.dispatcher.due == [] || |s.inFlight| >= s.dispatcher.concurrency then s.(dispatcher := Sleeping)
    else
      var id, rest := s.dispatcher.due[0], s.dispatcher.(due := s.dispatcher.due[1..]);
      if id in s.inFlight then s.(dispatcher := rest)
      else s.(dispatcher := rest, inFlight := s.inFlight + {id}, tasks := s.tasks[task := Loading(id)])
  }

  function AfterLoad(s: State, task: TaskId, readable: bool): State {
    if task !in s.tasks || !s.tasks[task].Loading? then s
    else
      var id := s.tasks[task].id;
      if readable && id in s.rows && s.rows[id].Claimable() && s.rows[id].IsDue(s.clock)
      then s.(tasks := s.tasks[task := Planning(id, s.rows[id])])
      else s.(tasks := s.tasks[task := Leaving(id)])
  }

  function AfterPlan(s: State, task: TaskId, go: bool): State {
    if task !in s.tasks || !s.tasks[task].Planning? then s
    else
      var t := s.tasks[task];
      s.(tasks := s.tasks[task := if go then Claiming(t.id, t.job) else Skipping(t.id, t.job)])
  }

  // The best-effort write of a row's next state.
  function Written(s: State, id: JobId, status: Status, dueAt: Option<Time>, written: bool): map<JobId, Row> {
    if written && id in s.rows then s.rows[id := s.rows[id].(status := status, dueAt := dueAt)] else s.rows
  }

  function AfterSkip(s: State, task: TaskId, written: bool): State {
    if task !in s.tasks || !s.tasks[task].Skipping? then s
    else
      var t := s.tasks[task];
      s.(rows := Written(s, t.id, Skipped, t.job.dueAt, written), tasks := s.tasks[task := Leaving(t.id)])
  }

  // Compare-and-set `pending`/`retrying` to `running`, spending one attempt.
  function AfterClaim(s: State, task: TaskId, written: bool): State {
    if task !in s.tasks || !s.tasks[task].Claiming? then s
    else
      var t := s.tasks[task];
      if written && t.id in s.rows && s.rows[t.id].Claimable() && t.id in s.claims then
        var row := s.rows[t.id];
        s.(rows := s.rows[t.id := row.(status := Running, attempts := row.attempts + 1)],
           claims := s.claims[t.id := s.claims[t.id] + [s.clock]],
           tasks := s.tasks[task := Extracting(t.id, t.job)])
      else s.(tasks := s.tasks[task := Leaving(t.id)])
  }

  // The provider's answer decides the row's next state.
  function AfterExtract(s: State, task: TaskId, applied: bool): State {
    if task !in s.tasks || !s.tasks[task].Extracting? then s
    else
      var t := s.tasks[task];
      var attempts := t.job.attempts + 1;
      var next :=
        if applied then Marking(t.id, t.job, Completed, t.job.dueAt)
        else if attempts >= MAX_ATTEMPTS then Marking(t.id, t.job, Failed, t.job.dueAt)
        else Marking(t.id, t.job, Retrying, Some(s.clock + Backoff(attempts)));
      s.(tasks := s.tasks[task := next])
  }

  function AfterMark(s: State, task: TaskId, written: bool): State {
    if task !in s.tasks || !s.tasks[task].Marking? then s
    else
      var t := s.tasks[task];
      s.(rows := Written(s, t.id, t.status, t.dueAt, written), tasks := s.tasks[task := Leaving(t.id)])
  }

  function AfterLeave(s: State, task: TaskId): State {
    if task !in s.tasks || !s.tasks[task].Leaving? then s
    else s.(inFlight := s.inFlight - {s.tasks[task].id}, tasks := s.tasks - {task})
  }

  function After(s: State, step: Step): State {
    match step
    case Enqueue(run, newId, stamp) => AfterEnqueue(s, run, newId, stamp)
    case Advance(span) => s.(clock := s.clock + span)
    case Tick(due, foreground) => AfterTick(s, due, foreground)
    case Dispatch(task) => AfterDispatch(s, task)
    case Load(task, readable) => AfterLoad(s, task, readable)
    case Plan(task, go) => AfterPlan(s, task, go)
    case Skip(task, written) => AfterSkip(s, task, written)
    case Claim(task, written) => AfterClaim(s, task, written)
    case Extract(task, applied) => AfterExtract(s, task, applied)
    case Mark(task, written) => AfterMark(s, task, written)
    case Leave(task) => AfterLeave(s, task)
    case Delete(id) => AfterDelete(s, id)
  }

  // ----- what every step keeps

  ghost predicate Spaced(claims: seq<Time>, clock: Time) {
    && |claims| <= MAX_ATTEMPTS
    && (forall k :: 0 <= k < |claims| ==> claims[k] <= clock)
    && (forall k :: 0 < k < |claims| ==> claims[k] - claims[k - 1] >= Backoff(k))
  }

  /** One row and its claim history. */
  ghost predicate GoodRow(row: Row, claims: seq<Time>, clock: Time) {
    && |claims| == row.attempts
    && Spaced(claims, clock)
    && (row.status == Pending ==> row.attempts == 0)
    && (row.status == Retrying ==>
          && 1 <= row.attempts < MAX_ATTEMPTS
          && row.dueAt.Some? && row.dueAt.value >= claims[row.attempts - 1] + Backoff(row.attempts))
    && (row.status == Failed ==> row.attempts == MAX_ATTEMPTS)
  }

  ghost predicate Owned(s: State, id: JobId, job: Row) {
    && id in s.claims && job.Claimable() && job.IsDue(s.clock)
    && (id in s.rows ==> s.rows[id] == job)
  }

  ghost predicate Claimed(s: State, id: JobId, job: Row) {
    && id in s.claims && |s.claims[id]| == job.attempts + 1
    && (id in s.rows ==> s.rows[id].status == Running && s.rows[id].attempts == job.attempts + 1)
  }

  /** What a task knows of its row: nobody else changes it meanwhile, short of deleting it. */
  ghost predicate GoodTask(task: Task, s: State) {
    match task
    case Loading(id) => true
    case Leaving(id) => true
    case Planning(id, job) => Owned(s, id, job)
    case Skipping(id, job) => Owned(s, id, job)
    case Claiming(id, job) => Owned(s, id, job)
    case Extracting(id, job) => Claimed(s, id, job)
    case Marking(id, job, status, dueAt) =>
      && Claimed(s, id, job)
      && (status == Completed || status == Failed || status == Retrying)
      && (status == Failed ==> job.attempts + 1 == MAX_ATTEMPTS)
      && (status == Retrying ==>
            && job.attempts + 1 < MAX_ATTEMPTS
            && dueAt.Some? && dueAt.value >= s.claims[id][job.attempts] + Backoff(job.attempts + 1))
  }

  ghost predicate OneTaskPerJob(s: State) {
    && (forall t :: t in s.tasks ==> s.tasks[t].id in s.inFlight)
    && (forall id :: id in s.inFlight ==> exists t :: t in s.tasks && s.tasks[t].id == id)
    && (forall t, u :: t in s.tasks && u in s.tasks && s.tasks[t].id == s.tasks[u].id ==> t == u)
  }

  ghost predicate OneJobPerRun(s: State) {
    forall a, b :: a in s.rows && b in s.rows && s.rows[a].run == s.rows[b].run ==> a == b
  }

  ghost predicate Inv(s: State) {
    && s.rows.Keys <= s.claims.Keys
    && (forall id :: id in s.claims ==> Spaced(s.claims[id], s.clock))
    && (forall id :: id in s.rows ==> GoodRow(s.rows[id], s.claims[id], s.clock))
    && (forall t :: t in s.tasks ==> GoodTask(s.tasks[t], s))
    && OneTaskPerJob(s) && OneJobPerRun(s)
    && |s.inFlight| <= MAX_CONCURRENT_JOBS
    && (s.dispatcher.Dispatching? ==> s.dispatcher.concurrency <= MAX_CONCURRENT_JOBS)
  }

  // ----- each step keeps the invariant

  // Replacing a task by one for the same job keeps one task per job in flight.
  lemma {:induction false} StillOnePerJob(s: State, s': State, task: TaskId, next: Task)
    requires OneTaskPerJob(s) && task in s.tasks && next.id == s.tasks[task].id
    requires s'.tasks == s.tasks[task := next] && s'.inFlight == s.inFlight
    ensures OneTaskPerJob(s')
  {
    forall id | id in s'.inFlight
      ensures exists t :: t in s'.tasks && s'.tasks[t].id == id
    {
      var t :| t in s.tasks && s.tasks[t].id == id;
      assert t in s'.tasks && s'.tasks[t].id == id;
    }
  }

  // A task's standing depends on the rows, the history and the clock alone.
  lemma {:induction false} SameForTask(task: Task, s: State, s': State)
    requires GoodTask(task, s) && s'.rows == s.rows && s'.claims == s.claims && s'.clock == s.clock
    ensures GoodTask(task, s')
  {
  }

  // A task moves on without touching its row.
  lemma {:induction false} TaskMoves(s: State, task: TaskId, next: Task)
    requires Inv(s) && task in s.tasks && next.id == s.tasks[task].id && GoodTask(next, s)
    ensures Inv(s.(tasks := s.tasks[task := next]))
  {
    var s' := s.(tasks := s.tasks[task := next]);
    StillOnePerJob(s, s', task, next);
    forall t | t in s'.tasks
      ensures GoodTask(s'.tasks[t], s')
    {
      SameForTask(s'.tasks[t], s, s');
    }
  }

  // Another task's row and history are not the ones that moved.
  lemma {:induction false} OtherTask(s: State, other: Task, id: JobId, row: Row, claims: seq<Time>)
    requires GoodTask(other, s) && other.id != id
    ensures GoodTask(other, s.(rows := s.rows[id := row], claims := s.claims[id := claims]))
  {
  }

  lemma {:induction false} SameRuns(s: State, s': State, id: JobId, row: Row)
    requires OneJobPerRun(s) && id in s.rows && row.run == s.rows[id].run && s'.rows == s.rows[id := row]
    ensures OneJobPerRun(s')
  {
  }

  lemma {:induction false} StillGoodTask(s: State, task: TaskId, row: Row, claims: seq<Time>, next: Task, t: TaskId)
    requires OneTaskPerJob(s) && task in s.tasks && next.id == s.tasks[task].id
    requires t == task || (t in s.tasks && GoodTask(s.tasks[t], s))
    requires GoodTask(next, s.(rows := s.rows[next.id := row], claims := s.claims[next.id := claims]))
    ensures GoodTask(if t == task then next else s.tasks[t],
      s.(rows := s.rows[next.id := row], claims := s.claims[next.id := claims], tasks := s.tasks[task := next]))
  {
    var moved := s.(rows := s.rows[next.id := row], claims := s.claims[next.id := claims]);
    if t != task {
      OtherTask(s, s.tasks[t], next.id, row, claims);
    }
    SameForTask(if t == task then next else s.tasks[t], moved, moved.(tasks := s.tasks[task := next]));
  }

  // A task's row, and with it the row's history, changes under that task alone.
  lemma {:induction false} RowMoves(s: State, task: TaskId, row: Row, claims: seq<Time>, next: Task)
    requires Inv(s) && task in s.tasks && s.tasks[task].id in s.rows
    requires row.run == s.rows[s.tasks[task].id].run && GoodRow(row, claims, s.clock)
    requires next.id == s.tasks[task].id
    requires GoodTask(next, s.(rows := s.rows[next.id := row], claims := s.claims[next.id := claims]))
    ensures Inv(s.(rows := s.rows[next.id := row], claims := s.claims[next.id := claims],
                   tasks := s.tasks[task := next]))
  {
    var id := next.id;
    var s' := s.(rows := s.rows[id := row], claims := s.claims[id := claims], tasks := s.tasks[task := next]);
    StillOnePerJob(s, s', task, next);
    SameRuns(s, s', id, row);
    forall t | t in s'.tasks
      ensures GoodTask(s'.tasks[t], s')
    {
      StillGoodTask(s, task, row, claims, next, t);
    }
  }

  lemma {:induction false} EnqueueKeeps(s: State, run: RunId, newId: JobId, stamp: Time)
    requires Inv(s)
    ensures Inv(AfterEnqueue(s, run, newId, stamp))
  {
    var s' := AfterEnqueue(s, run, newId, stamp);
    if s' != s {
      forall t | t in s'.tasks
        ensures GoodTask(s'.tasks[t], s')
      {
        assert GoodTask(s.tasks[t], s);
      }
    }
  }

  lemma {:induction false} DeleteKeeps(s: State, id: JobId)
    requires Inv(s)
    ensures Inv(AfterDelete(s, id))
  {
    var s' := AfterDelete(s, id);
    forall t | t in s'.tasks
      ensures GoodTask(s'.tasks[t], s')
    {
      assert GoodTask(s.tasks[t], s);
    }
  }

  lemma {:induction false} AdvanceKeeps(s: State, span: nat)
    requires Inv(s)
    ensures Inv(s.(clock := s.clock + span))
  {
    var s' := s.(clock := s.clock + span);
    forall t | t in s'.tasks
      ensures GoodTask(s'.tasks[t], s')
    {
      assert GoodTask(s.tasks[t], s);
    }
  }

  lemma {:induction false} SpawnedOnce(s: State, s': State, task: TaskId, id: JobId)
    requires OneTaskPerJob(s) && task !in s.tasks && id !in s.inFlight
    requires s'.tasks == s.tasks[task := Loading(id)] && s'.inFlight == s.inFlight + {id}
    ensures OneTaskPerJob(s')
  {
    forall other | other in s'.inFlight
      ensures exists t :: t in s'.tasks && s'.tasks[t].id == other
    {
      if other == id {
        assert s'.tasks[task].id == other;
      } else {
        var t :| t in s.tasks && s.tasks[t].id == other;
        assert t in s'.tasks && s'.tasks[t].id == other;
      }
    }
  }

  // A task spawned for a job that has none.
  lemma {:induction false} SpawnKeeps(s: State, task: TaskId, id: JobId)
    requires Inv(s) && task !in s.tasks && id !in s.inFlight && |s.inFlight| < MAX_CONCURRENT_JOBS
    ensures Inv(s.(inFlight := s.inFlight + {id}, tasks := s.tasks[task := Loading(id)]))
  {
    var s' := s.(inFlight := s.inFlight + {id}, tasks := s.tasks[task := Loading(id)]);
    forall t | t in s'.tasks
      ensures GoodTask(s'.tasks[t], s')
    {
      assert t in s.tasks ==> GoodTask(s.tasks[t], s);
    }
    SpawnedOnce(s, s', task, id);
  }

  // The dispatcher's own position says nothing about the rows and tasks.
  lemma {:induction false} DispatcherMoves(s: State, d: Dispatcher)
    requires Inv(s) && (d.Dispatching? ==> d.concurrency <= MAX_CONCURRENT_JOBS)
    ensures Inv(s.(dispatcher := d))
  {
    var s' := s.(dispatcher := d);
    forall t | t in s'.tasks
      ensures GoodTask(s'.tasks[t], s')
    {
      assert GoodTask(s.tasks[t], s);
    }
  }

  lemma {:induction false} DispatchKeeps(s: State, task: TaskId)
    requires Inv(s)
    ensures Inv(AfterDispatch(s, task))
  {
    if s.dispatcher.Dispatching? && task !in s.tasks {
      var d := s.dispatcher;
      if d.due == [] || |s.inFlight| >= d.concurrency {
        DispatcherMoves(s, Sleeping);
      } else {
        DispatcherMoves(s, d.(due := d.due[1..]));
        if d.due[0] !in s.inFlight {
          SpawnKeeps(s.(dispatcher := d.(due := d.due[1..])), task, d.due[0]);
        }
      }
    }
  }

  lemma {:induction false} TickKeeps(s: State, due: seq<JobId>, foreground: bool)
    requires Inv(s)
    ensures Inv(AfterTick(s, due, foreground))
  {
    var s' := AfterTick(s, due, foreground);
    if s' != s {
      DispatcherMoves(s, s'.dispatcher);
    }
  }

  lemma {:induction false} LeaveKeeps(s: State, task: TaskId)
    requires Inv(s)
    ensures Inv(AfterLeave(s, task))
  {
    if task in s.tasks && s.tasks[task].Leaving? {
      var s' := AfterLeave(s, task);
      forall t | t in s'.tasks
        ensures GoodTask(s'.tasks[t], s')
      {
        assert GoodTask(s.tasks[t], s);
      }
      forall other | other in s'.inFlight
        ensures exists t :: t in s'.tasks && s'.tasks[t].id == other
      {
        var t :| t in s.tasks && s.tasks[t].id == other;
        assert t in s'.tasks && s'.tasks[t].id == other;
      }
    }
  }

  lemma {:induction false} SkipKeeps(s: State, task: TaskId, written: bool)
    requires Inv(s)
    ensures Inv(AfterSkip(s, task, written))
  {
    if task in s.tasks && s.tasks[task].Skipping? {
      var t := s.tasks[task];
      assert GoodTask(t, s);
      if written && t.id in s.rows {
        var row := s.rows[t.id].(status := Skipped, dueAt := t.job.dueAt);
        assert GoodRow(s.rows[t.id], s.claims[t.id], s.clock);
        RowMoves(s, task, row, s.claims[t.id], Leaving(t.id));
        assert s.claims[t.id := s.claims[t.id]] == s.claims;
      } else {
        TaskMoves(s, task, Leaving(t.id));
      }
    }
  }

  // A claim of a due row is spaced from the one before.
  lemma {:induction false} GoodClaim(row: Row, claims: seq<Time>, clock: Time)
    requires GoodRow(row, claims, clock) && row.Claimable() && row.IsDue(clock)
    ensures GoodRow(row.(status := Running, attempts := row.attempts + 1), claims + [clock], clock)
  {
  }

  lemma {:induction false} ClaimKeeps(s: State, task: TaskId, written: bool)
    requires Inv(s)
    ensures Inv(AfterClaim(s, task, written))
  {
    if task in s.tasks && s.tasks[task].Claiming? {
      var t := s.tasks[task];
      assert GoodTask(t, s);
      if written && t.id in s.rows {
        var row, claims := s.rows[t.id], s.claims[t.id];
        assert GoodRow(row, claims, s.clock);
        var claimed := row.(status := Running, attempts := row.attempts + 1);
        GoodClaim(row, claims, s.clock);
        RowMoves(s, task, claimed, claims + [s.clock], Extracting(t.id, t.job));
      } else {
        TaskMoves(s, task, Leaving(t.id));
      }
    }
  }

  lemma {:induction false} ExtractKeeps(s: State, task: TaskId, applied: bool)
    requires Inv(s)
    ensures Inv(AfterExtract(s, task, applied))
  {
    if task in s.tasks && s.tasks[task].Extracting? {
      var t := s.tasks[task];
      assert GoodTask(t, s);
      TaskMoves(s, task, AfterExtract(s, task, applied).tasks[task]);
    }
  }

  lemma {:induction false} MarkKeeps(s: State, task: TaskId, written: bool)
    requires Inv(s)
    ensures Inv(AfterMark(s, task, written))
  {
    if task in s.tasks && s.tasks[task].Marking? {
      var t := s.tasks[task];
      assert GoodTask(t, s);
      if written && t.id in s.rows {
        var row := s.rows[t.id].(status := t.status, dueAt := t.dueAt);
        assert GoodRow(s.rows[t.id], s.claims[t.id], s.clock);
        RowMoves(s, task, row, s.claims[t.id], Leaving(t.id));
        assert s.claims[t.id := s.claims[t.id]] == s.claims;
      } else {
        TaskMoves(s, task, Leaving(t.id));
      }
    }
  }

  lemma {:induction false} LoadKeeps(s: State, task: TaskId, readable: bool)
    requires Inv(s)
    ensures Inv(AfterLoad(s, task, readable))
  {
    if task in s.tasks && s.tasks[task].Loading? {
      TaskMoves(s, task, AfterLoad(s, task, readable).tasks[task]);
    }
  }

  lemma {:induction false} PlanKeeps(s: State, task: TaskId, go: bool)
    requires Inv(s)
    ensures Inv(AfterPlan(s, task, go))
  {
    if task in s.tasks && s.tasks[task].Planning? {
      assert GoodTask(s.tasks[task], s);
      TaskMoves(s, task, AfterPlan(s, task, go).tasks[task]);
    }
  }

  /** Every step keeps the invariant. */
  lemma {:induction false} DispatcherStepKeeps(s: State, step: Step)
    requires Inv(s) && (step.Tick? || step.Dispatch?)
    ensures Inv(After(s, step))
  {
    match step
    case Tick(due, foreground) => TickKeeps(s, due, foreground);
    case Dispatch(task) => DispatchKeeps(s, task);
  }

  lemma {:induction false} TaskStepKeeps(s: State, step: Step)
    requires Inv(s) && !step.Enqueue? && !step.Advance? && !step.Tick? && !step.Dispatch? && !step.Delete?
    ensures Inv(After(s, step))
  {
    match step
    case Load(task, readable) => LoadKeeps(s, task, readable);
    case Plan(task, go) => PlanKeeps(s, task, go);
    case Skip(task, written) => SkipKeeps(s, task, written);
    case Claim(task, written) => ClaimKeeps(s, task, written);
    case Extract(task, applied) => ExtractKeeps(s, task, applied);
    case Mark(task, written) => MarkKeeps(s, task, written);
    case Leave(task) => LeaveKeeps(s, task);
  }

  lemma {:induction false} StepKeeps(s: State, step: Step)
    requires Inv(s)
    ensures Inv(After(s, step))
  {
    if step.Enqueue? {
      EnqueueKeeps(s, step.run, step.newId, step.stamp);
    } else if step.Advance? {
      AdvanceKeeps(s, step.span);
    } else if step.Delete? {
      DeleteKeeps(s, step.id);
    } else if step.Tick? || step.Dispatch? {
      DispatcherStepKeeps(s, step);
    } else {
      TaskStepKeeps(s, step);
    }
  }

  // ----- whole runs

  function Run(s: State, steps: seq<Step>): State
    decreases |steps|
  {
    if steps == [] then s else Run(After(s, steps[0]), steps[1..])
  }

  function Initial(clock: Time): State {
    State(map[], map[], {}, Sleeping, clock, map[])
  }

  lemma {:induction false} RunKeeps(s: State, steps: seq<Step>)
    requires Inv(s)
    ensures Inv(Run(s, steps))
    decreases |steps|
  {
    if steps != [] {
      StepKeeps(s, steps[0]);
      RunKeeps(After(s, steps[0]), steps[1..]);
    }
  }

  lemma {:induction false} TasksCounted(tasks: map<TaskId, Task>, ids: set<JobId>)
    requires forall t :: t in tasks ==> tasks[t].id in ids
    requires forall t, u :: t in tasks && u in tasks && tasks[t].id == tasks[u].id ==> t == u
    ensures |tasks| <= |ids|
    decreases |tasks|
  {
    if tasks != map[] {
      var t :| t in tasks;
      var rest, others := tasks - {t}, ids - {tasks[t].id};
      assert |rest| == |tasks| - 1;
      TasksCounted(rest, others);
    }
  }

  /** Safety of every run, whatever the interleaving, the answers and the lost writes. */
  lemma {:induction false} EveryRunIsSafe(clock: Time, steps: seq<Step>)
    ensures var s := Run(Initial(clock), steps);
            && |s.tasks| <= 4
            && (forall t, u :: t in s.tasks && u in s.tasks && s.tasks[t].id == s.tasks[u].id ==> t == u)
            && s.rows.Keys <= s.claims.Keys
            && (forall id :: id in s.claims ==>
                  && |s.claims[id]| <= 3
                  && (|s.claims[id]| > 1 ==> s.claims[id][1] - s.claims[id][0] >= 30 * 1_000_000_000)
                  && (|s.claims[id]| > 2 ==> s.claims[id][2] - s.claims[id][1] >= 60 * 1_000_000_000))
            && (forall id :: id in s.rows ==>
                  && s.rows[id].attempts == |s.claims[id]|
                  && (s.rows[id].status == Failed ==> s.rows[id].attempts == 3))
            && (forall a, b :: a in s.rows && b in s.rows && s.rows[a].run == s.rows[b].run ==> a == b)
  {
    RunKeeps(Initial(clock), steps);
    var s := Run(Initial(clock), steps);
    TasksCounted(s.tasks, s.inFlight);
    forall id | id in s.rows
      ensures GoodRow(s.rows[id], s.claims[id], s.clock)
    {
    }
    forall id | id in s.claims
      ensures Spaced(s.claims[id], s.clock)
    {
    }
  }

  /** The row stands as given or is gone; no task is about to write it, and none can come to
      claim it. */
  ghost predicate Frozen(s: State, id: JobId, row: Row) {
    && id in s.claims && !row.Claimable() && (id in s.rows ==> s.rows[id] == row)
    && forall t :: t in s.tasks && s.tasks[t].id == id ==> s.tasks[t].Loading? || s.tasks[t].Leaving?
  }

  // A task for another job moves that job's row.
  lemma {:induction false} FrozenElsewhere(s: State, s': State, id: JobId, row: Row, task: TaskId)
    requires Frozen(s, id, row) && task in s.tasks && task in s'.tasks && s'.tasks[task].id == s.tasks[task].id != id
    requires s'.tasks == s.tasks[task := s'.tasks[task]] && id in s'.claims
    requires id in s'.rows ==> id in s.rows && s'.rows[id] == s.rows[id]
    ensures Frozen(s', id, row)
  {
  }

  lemma {:induction false} FrozenWrite(s: State, task: TaskId, written: bool, id: JobId, row: Row)
    requires Frozen(s, id, row)
    ensures Frozen(AfterSkip(s, task, written), id, row) && Frozen(AfterMark(s, task, written), id, row)
    ensures id in s.rows <==> id in AfterSkip(s, task, written).rows
    ensures id in s.rows <==> id in AfterMark(s, task, written).rows
  {
    if task in s.tasks && s.tasks[task].Skipping? {
      FrozenElsewhere(s, AfterSkip(s, task, written), id, row, task);
    }
    if task in s.tasks && s.tasks[task].Marking? {
      FrozenElsewhere(s, AfterMark(s, task, written), id, row, task);
    }
  }

  lemma {:induction false} FrozenClaim(s: State, task: TaskId, written: bool, id: JobId, row: Row)
    requires Frozen(s, id, row)
    ensures Frozen(AfterClaim(s, task, written), id, row)
    ensures id in s.rows <==> id in AfterClaim(s, task, written).rows
  {
    if task in s.tasks && s.tasks[task].Claiming? {
      assert s.tasks[task].id != id;
      FrozenElsewhere(s, AfterClaim(s, task, written), id, row, task);
    }
  }

  lemma {:induction false} FrozenStep(s: State, step: Step, id: JobId, row: Row)
    requires Frozen(s, id, row)
    ensures Frozen(After(s, step), id, row)
    ensures id in After(s, step).rows <==> id in s.rows && step != Delete(id)
  {
    match step
    case Claim(task, written) => FrozenClaim(s, task, written, id, row);
    case Skip(task, written) => FrozenWrite(s, task, written, id, row);
    case Mark(task, written) => FrozenWrite(s, task, written, id, row);
    case _ =>
  }

  /** Such a row changes no more; it is there until it is deleted, and then never again. */
  lemma {:induction false} FrozenRun(s: State, steps: seq<Step>, id: JobId, row: Row)
    requires Frozen(s, id, row)
    ensures id in Run(s, steps).rows <==> id in s.rows && Delete(id) !in steps
    ensures id in Run(s, steps).rows ==> Run(s, steps).rows[id] == row
    decreases |steps|
  {
    if steps != [] {
      FrozenStep(s, steps[0], id, row);
      FrozenRun(After(s, steps[0]), steps[1..], id, row);
      assert steps == [steps[0]] + steps[1..];
    }
  }

  /** Completed, failed and skipped rows never change again, short of being deleted. */
  lemma {:induction false} SettledForever(s: State, steps: seq<Step>, id: JobId)
    requires Inv(s) && id in s.rows
    requires s.rows[id].status == Completed || s.rows[id].status == Failed || s.rows[id].status == Skipped
    ensures id in Run(s, steps).rows <==> Delete(id) !in steps
    ensures id in Run(s, steps).rows ==> Run(s, steps).rows[id] == s.rows[id]
  {
    forall t | t in s.tasks && s.tasks[t].id == id
      ensures s.tasks[t].Loading? || s.tasks[t].Leaving?
    {
      assert GoodTask(s.tasks[t], s);
    }
    FrozenRun(s, steps, id, s.rows[id]);
  }

  /** The price of a best-effort write: a claimed row whose outcome was not written stays
      `running` until it is deleted, neither retried nor settled - and only such a row does, since
      a written outcome settles it or opens it for a retry. */
  lemma {:induction false} LostOutcomeStrandsRow(s: State, task: TaskId, written: bool, steps: seq<Step>)
    requires Inv(s) && task in s.tasks && s.tasks[task].Marking?
    ensures var id := s.tasks[task].id;
            var marked := After(s, Mark(task, written));
            && (id in marked.rows <==> id in s.rows)
            && (id in s.rows ==> (written <==> marked.rows[id].status != Running))
            && (id in s.rows && written ==> marked.rows[id].Settled() || marked.rows[id].status == Retrying)
            && (!written ==>
                  && (id in Run(marked, steps).rows <==> id in s.rows && Delete(id) !in steps)
                  && (id in Run(marked, steps).rows ==> Run(marked, steps).rows[id] == s.rows[id]))
  {
    var id := s.tasks[task].id;
    var marked := After(s, Mark(task, written));
    assert GoodTask(s.tasks[task], s);
    if !written {
      var row := if id in s.rows then s.rows[id] else Row(0, Running, 0, None);
      assert Frozen(marked, id, row);
      FrozenRun(marked, steps, id, row);
    }
  }

  // A job is queued, taken up, claimed and extracted.
  function ToOutcome(clock: Time, run: RunId, id: JobId, task: TaskId): seq<Step> {
    [Enqueue(run, id, clock)] +
    ([Tick([id], false), Dispatch(task), Load(task, true), Plan(task, true)] + [Claim(task, true), Extract(task, true)])
  }

  lemma {:induction false} QueuedFirst(clock: Time, run: RunId, id: JobId)
    ensures After(Initial(clock), Enqueue(run, id, clock)) ==
            Initial(clock).(rows := map[id := Row(run, Pending, 0, Some(clock))], claims := map[id := []])
  {
  }

  lemma {:induction false} RunConcat(s: State, a: seq<Step>, b: seq<Step>)
    ensures Run(s, a + b) == Run(Run(s, a), b)
    decreases |a|
  {
    if a == [] {
      assert a + b == b;
    } else {
      assert (a + b)[1..] == a[1..] + b;
      RunConcat(After(s, a[0]), a[1..], b);
    }
  }

  lemma {:induction false} RunFirst(s: State, first: Step, rest: seq<Step>)
    ensures Run(s, [first] + rest) == Run(After(s, first), rest)
  {
    assert ([first] + rest)[1..] == rest;
  }

  lemma {:induction false} RunOfFour(s: State, a: Step, b: Step, c: Step, d: Step, rest: seq<Step>)
    ensures Run(s, [a, b, c, d] + rest) == Run(After(After(After(After(s, a), b), c), d), rest)
  {
    RunFirst(s, a, [b, c, d] + rest);
    RunFirst(After(s, a), b, [c, d] + rest);
    RunFirst(After(After(s, a), b), c, [d] + rest);
    RunFirst(After(After(After(s, a), b), c), d, rest);
    assert [a, b, c, d] + rest == [a] + ([b, c, d] + rest);
    assert [b, c, d] + rest == [b] + ([c, d] + rest);
    assert [c, d] + rest == [c] + ([d] + rest);
  }

  // An idle process takes up a due row.
  lemma {:induction false} TakesUp(s: State, id: JobId, task: TaskId)
    requires id in s.rows && s.rows[id].Claimable() && s.rows[id].IsDue(s.clock)
    requires s.dispatcher == Sleeping && s.tasks == map[] && s.inFlight == {}
    ensures Run(s, [Tick([id], false), Dispatch(task), Load(task, true), Plan(task, true)]) ==
            s.(dispatcher := Dispatching([], MAX_CONCURRENT_JOBS), inFlight := {id},
               tasks := map[task := Claiming(id, s.rows[id])])
  {
    RunOfFour(s, Tick([id], false), Dispatch(task), Load(task, true), Plan(task, true), []);
    assert [Tick([id], false), Dispatch(task), Load(task, true), Plan(task, true)] + [] ==
           [Tick([id], false), Dispatch(task), Load(task, true), Plan(task, true)];
    var s1 := After(s, Tick([id], false));
    assert s1 == s.(dispatcher := Dispatching([id], MAX_CONCURRENT_JOBS));
    var s2 := After(s1, Dispatch(task));
    assert [id][1..] == [] && s.inFlight + {id} == {id};
    assert s.tasks[task := Loading(id)] == map[task := Loading(id)];
    assert s2 == s.(dispatcher := Dispatching([], MAX_CONCURRENT_JOBS), inFlight := {id},
                    tasks := map[task := Loading(id)]);
  }

  lemma {:induction false} ClaimedAndExtracted(s: State, id: JobId, task: TaskId, job: Row)
    requires id in s.rows && id in s.claims && s.rows[id].Claimable()
    requires s.tasks == map[task := Claiming(id, job)]
    ensures Run(s, [Claim(task, true), Extract(task, true)]).tasks ==
            map[task := Marking(id, job, Completed, job.dueAt)]
    ensures id in Run(s, [Claim(task, true), Extract(task, true)]).rows
  {
    var s1 := After(s, Claim(task, true));
    var s2 := After(s1, Extract(task, true));
    assert s1.tasks[task] == Extracting(id, job);
    RunFirst(s, Claim(task, true), [Extract(task, true)]);
    RunFirst(s1, Extract(task, true), []);
    assert [Claim(task, true)] + [Extract(task, true)] == [Claim(task, true), Extract(task, true)];
    assert [Extract(task, true)] + [] == [Extract(task, true)];
  }

  lemma {:induction false} ReachesOutcome(clock: Time, run: RunId, id: JobId, task: TaskId)
    ensures var s := Run(Initial(clock), ToOutcome(clock, run, id, task));
            task in s.tasks && s.tasks[task].Marking? && s.tasks[task].id == id && id in s.rows
  {
    var take := [Tick([id], false), Dispatch(task), Load(task, true), Plan(task, true)];
    var finish := [Claim(task, true), Extract(task, true)];
    var queued := After(Initial(clock), Enqueue(run, id, clock));
    RunFirst(Initial(clock), Enqueue(run, id, clock), take + finish);
    QueuedFirst(clock, run, id);
    TakesUp(queued, id, task);
    RunConcat(queued, take, finish);
    ClaimedAndExtracted(Run(queued, take), id, task, queued.rows[id]);
  }

  /** A lost outcome, from the start of the process: the job has been extracted, and the write
      of its outcome fails. Whatever follows, its row stays `running` until it is deleted. */
  lemma {:induction false} OutcomeCanBeLost(clock: Time, run: RunId, id: JobId, task: TaskId, later: seq<Step>)
    ensures var s := After(Run(Initial(clock), ToOutcome(clock, run, id, task)), Mark(task, false));
            && (id in Run(s, later).rows <==> Delete(id) !in later)
            && (id in Run(s, later).rows ==> Run(s, later).rows[id].status == Running)
  {
    var past := ToOutcome(clock, run, id, task);
    ReachesOutcome(clock, run, id, task);
    RunKeeps(Initial(clock), past);
    LostOutcomeStrandsRow(Run(Initial(clock), past), task, false, later);
  }

  // ----- the foreground ceiling

  // The dispatcher, if it is at work, was told of a run in the foreground.
  ghost predicate Yielding(s: State) {
    s.dispatcher.Dispatching? ==> s.dispatcher.concurrency == 1
  }

  lemma {:induction false} YieldingStep(s: State, step: Step)
    requires Yielding(s) && (step.Tick? ==> step.foreground)
    ensures Yielding(After(s, step))
    ensures After(s, step).inFlight <= s.inFlight || (s.inFlight == {} && |After(s, step).inFlight| == 1)
  {
    if step.Dispatch? && After(s, step).inFlight != s.inFlight {
      assert s.inFlight == {};
      assert After(s, step).inFlight == {s.dispatcher.due[0]};
    }
  }

  lemma {:induction false} SubsetIsSmaller(a: set<JobId>, b: set<JobId>)
    requires a <= b
    ensures |a| <= |b|
  {
    assert b == a + (b - a);
  }

  lemma {:induction false} YieldingRun(s: State, steps: seq<Step>)
    requires Yielding(s) && forall k :: 0 <= k < |steps| && steps[k].Tick? ==> steps[k].foreground
    ensures Yielding(Run(s, steps)) && |Run(s, steps).inFlight| <= if s.inFlight == {} then 1 else |s.inFlight|
    decreases |steps|
  {
    if steps != [] {
      var next := After(s, steps[0]);
      YieldingStep(s, steps[0]);
      YieldingRun(next, steps[1..]);
      if next.inFlight <= s.inFlight {
        SubsetIsSmaller(next.inFlight, s.inFlight);
      }
    }
  }

  // Every job in flight has a task.
  lemma {:induction false} FlightsCounted(tasks: map<TaskId, Task>, ids: set<JobId>)
    requires forall id :: id in ids ==> exists t :: t in tasks && tasks[t].id == id
    ensures |ids| <= |tasks|
    decreases |ids|
  {
    if ids != {} {
      var id :| id in ids;
      var t :| t in tasks && tasks[t].id == id;
      forall other | other in ids - {id}
        ensures exists u :: u in tasks - {t} && (tasks - {t})[u].id == other
      {
        var u :| u in tasks && tasks[u].id == other;
        assert u in tasks - {t} && (tasks - {t})[u].id == other;
      }
      FlightsCounted(tasks - {t}, ids - {id});
    }
  }

  /** While a run is in the foreground no task is started beside another: from any reachable
      state in which the dispatcher sleeps, steps whose ticks all see the foreground leave no
      more tasks than there were, or one. */
  lemma {:induction false} ForegroundComesFirst(clock: Time, past: seq<Step>, steps: seq<Step>)
    requires Run(Initial(clock), past).dispatcher == Sleeping
    requires forall k :: 0 <= k < |steps| && steps[k].Tick? ==> steps[k].foreground
    ensures var s := Run(Initial(clock), past);
            |Run(s, steps).tasks| <= if s.tasks == map[] then 1 else |s.tasks|
  {
    var s := Run(Initial(clock), past);
    RunKeeps(Initial(clock), past);
    RunKeeps(s, steps);
    YieldingRun(s, steps);
    TasksCounted(Run(s, steps).tasks, Run(s, steps).inFlight);
    FlightsCounted(s.tasks, s.inFlight);
  }

  // A claimed row whose provider answers is completed.
  lemma {:induction false} SeesThrough(s: State, id: JobId, task: TaskId, job: Row)
    requires id in s.rows && id in s.claims && s.rows[id].Claimable()
    requires s.tasks == map[task := Claiming(id, job)] && s.inFlight == {id}
    ensures var s' := Run(s, [Claim(task, true), Extract(task, true), Mark(task, true), Leave(task)]);
            id in s'.rows && s'.rows[id].status == Completed && s'.tasks == map[] && s'.inFlight == {}
  {
    var s2 := After(After(s, Claim(task, true)), Extract(task, true));
    assert s2.tasks[task] == Marking(id, job, Completed, job.dueAt);
    RunOfFour(s, Claim(task, true), Extract(task, true), Mark(task, true), Leave(task), []);
    assert [Claim(task, true), Extract(task, true), Mark(task, true), Leave(task)] + [] ==
           [Claim(task, true), Extract(task, true), Mark(task, true), Leave(task)];
  }

  /** A due row with attempts left can always be completed: a free process, one provider
      answer and one written outcome are enough. */
  lemma {:induction false} DueRowCanComplete(s: State, id: JobId, task: TaskId)
    requires Inv(s) && id in s.rows && s.rows[id].Claimable() && s.rows[id].IsDue(s.clock)
    requires s.dispatcher == Sleeping && s.tasks == map[]
    ensures var s1 := Run(s, [Tick([id], false), Dispatch(task), Load(task, true), Plan(task, true)]);
            var s2 := Run(s1, [Claim(task, true), Extract(task, true), Mark(task, true), Leave(task)]);
            id in s2.rows && s2.rows[id].status == Completed && s2.tasks == map[] && s2.inFlight == {}
  {
    assert s.inFlight == {};
    TakesUp(s, id, task);
    SeesThrough(Run(s, [Tick([id], false), Dispatch(task), Load(task, true), Plan(task, true)]), id, task, s.rows[id]);
  }
}
