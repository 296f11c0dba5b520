/** Claiming cron occurrences: the minute tick and the start-up reconciliation, over one
    table of occurrence rows. */
module ScheduleStore {
  import opened Common
  import opened CronTable

  const RECONCILE_HORIZON: nat := 30 * 24 * 60
  const MAX_RECONCILE_OCCURRENCES: nat := 5000
  const MAX_MISSED_ROWS: nat := 200

  type JobId = nat

  /** `cron` is none when the stored expression or zone does not parse; `createdAt` is a
      time in seconds. */
  datatype Job = Job(id: JobId, enabled: bool, cron: Option<Cron>, createdAt: int, catchUp: bool)

  datatype Status = Pending | Running | Retrying | Completed | Failed | Skipped | Missed

  datatype Row = Row(job: JobId, at: Minute, status: Status)

  datatype TickResult = NotDue | AlreadyClaimed | SkippedBusy | Launched | RolledBack | LaunchFailed

  predicate Taken(rows: seq<Row>, job: JobId, at: Minute) {
    exists k :: 0 <= k < |rows| && rows[k].job == job && rows[k].at == at
  }

  predicate Active(rows: seq<Row>, job: JobId) {
    exists k :: 0 <= k < |rows| && rows[k].job == job &&
      (rows[k].status == Pending || rows[k].status == Running || rows[k].status == Retrying)
  }

  // The last occurrence a job has a row for.
  function Latest(rows: seq<Row>, job: JobId): Option<Minute> {
    if rows == [] then None
    else
      var rest := Latest(rows[1..], job);
      if rows[0].job == job && (rest.None? || rows[0].at > rest.value) then Some(rows[0].at) else rest
  }

  lemma {:induction false} LatestIsLast(rows: seq<Row>, job: JobId)
    ensures forall k :: 0 <= k < |rows| && rows[k].job == job ==>
      Latest(rows, job).Some? && rows[k].at <= Latest(rows, job).value
    ensures Latest(rows, job).Some? ==> Taken(rows, job, Latest(rows, job).value)
  {
    if rows != [] {
      LatestIsLast(rows[1..], job);
      forall k | 0 < k < |rows|
        ensures rows[k] == rows[1..][k - 1]
      {
      }
      if Latest(rows, job).Some? && Latest(rows, job) == Latest(rows[1..], job) {
        var k :| 0 <= k < |rows| - 1 && rows[1..][k].job == job && rows[1..][k].at == Latest(rows, job).value;
        assert rows[k + 1] == rows[1..][k];
      }
    }
  }

  function FirstN(minutes: seq<Minute>, n: nat): seq<Minute> {
    if |minutes| <= n then minutes else minutes[..n]
  }

  function LastN(minutes: seq<Minute>, n: nat): seq<Minute> {
    if |minutes| <= n then minutes else minutes[|minutes| - n..]
  }

  // Where the look-back of a job starts.
  function Cursor(rows: seq<Row>, job: Job, current: Minute): Minute {
    var last := match Latest(rows, job.id) case Some(at) => at case None => job.createdAt / 60;
    if last >= current - RECONCILE_HORIZON then last else current - RECONCILE_HORIZON
  }

  lemma {:induction false} TakeNext(occurrences: seq<Minute>, cron: Cron, clock: Minute -> Local, from: Minute,
                                    next: Minute, current: Minute)
    requires from <= next < current && Matches(cron, clock, next)
    requires forall m :: from <= m < next ==> !Matches(cron, clock, m)
    ensures occurrences + MatchingMinutes(cron, clock, from, current) ==
            (occurrences + [next]) + MatchingMinutes(cron, clock, next + 1, current)
  {
    SkipToMatch(cron, clock, from, next, current);
    var rest := MatchingMinutes(cron, clock, next + 1, current);
    assert occurrences + ([next] + rest) == (occurrences + [next]) + rest;
  }

  lemma {:induction false} NothingLeft(cron: Cron, clock: Minute -> Local, from: Minute, current: Minute)
    requires forall m :: from <= m < current ==> !Matches(cron, clock, m)
    ensures MatchingMinutes(cron, clock, from, current) == []
  {
    if from < current {
      SkipToMatch(cron, clock, from, current, current);
    }
  }

  /** The occurrences reconciliation considers: the matching minutes strictly between the
      cursor and now, cut to the first 5000. The bounded search never misses one. */
  method Occurrences(cron: Cron, clock: Minute -> Local, start: Minute, current: Minute)
    returns (occurrences: seq<Minute>)
    requires start >= current - 30 * 24 * 60
    ensures occurrences == FirstN(MatchingMinutes(cron, clock, start + 1, current), 5000)
  {
    var cursor := start;
    occurrences := [];
    ghost var all := MatchingMinutes(cron, clock, start + 1, current);
    while |occurrences| < MAX_RECONCILE_OCCURRENCES
      invariant cursor >= start && |occurrences| <= MAX_RECONCILE_OCCURRENCES
      invariant occurrences + MatchingMinutes(cron, clock, cursor + 1, current) == all
      decreases MAX_RECONCILE_OCCURRENCES - |occurrences|
    {
      var candidate := Next(cron, clock, cursor * 60);
      if candidate.None? || candidate.value >= current {
        NothingLeft(cron, clock, cursor + 1, current);
        break;
      }
      TakeNext(occurrences, cron, clock, cursor + 1, candidate.value, current);
      occurrences := occurrences + [candidate.value];
      cursor := candidate.value;
    }
  }

  // The rows written for the considered occurrences.
  function RowsFor(job: JobId, minutes: seq<Minute>, chosen: Option<Minute>): seq<Row> {
    if minutes == [] then []
    else RowsFor(job, minutes[..|minutes| - 1], chosen) +
         [Row(job, minutes[|minutes| - 1], if chosen == Some(minutes[|minutes| - 1]) then Running else Missed)]
  }

  /** The matching minutes a job has missed: strictly between its cursor and now. */
  function MissedMinutes(rows: seq<Row>, job: Job, clock: Minute -> Local, current: Minute): seq<Minute> {
    if !job.enabled || job.cron.None? then []
    else MatchingMinutes(job.cron.value, clock, Cursor(rows, job, current) + 1, current)
  }

  // Those that the search gets to.
  function Considered(rows: seq<Row>, job: Job, clock: Minute -> Local, current: Minute): seq<Minute> {
    FirstN(MissedMinutes(rows, job, clock, current), MAX_RECONCILE_OCCURRENCES)
  }

  // The occurrence to catch up.
  function Choice(rows: seq<Row>, job: Job, clock: Minute -> Local, current: Minute): Option<Minute> {
    var considered := Considered(rows, job, clock, current);
    if job.catchUp && considered != [] then Some(considered[|considered| - 1]) else None
  }

  function Reconciled(rows: seq<Row>, job: Job, clock: Minute -> Local, current: Minute): seq<Row> {
    rows + RowsFor(job.id, LastN(Considered(rows, job, clock, current), MAX_MISSED_ROWS),
                   Choice(rows, job, clock, current))
  }

  /** The table after the first `n` jobs have been reconciled, one after another. */
  function RowsAfter(rows: seq<Row>, jobs: seq<Job>, n: nat, clock: Minute -> Local, current: Minute): seq<Row>
    requires n <= |jobs|
  {
    if n == 0 then rows else Reconciled(RowsAfter(rows, jobs, n - 1, clock, current), jobs[n - 1], clock, current)
  }

  // The minute is the last of the first 5000 that a job missed which is to be caught up.
  ghost predicate CaughtUp(rows: seq<Row>, job: Job, clock: Minute -> Local, current: Minute, at: Minute) {
    var missed := MissedMinutes(rows, job, clock, current);
    job.catchUp && missed != [] && at == missed[if |missed| <= 5000 then |missed| - 1 else 4999]
  }

  ghost predicate JobCaughtUp(rows: seq<Row>, jobs: seq<Job>, i: int, clock: Minute -> Local, current: Minute,
                              id: JobId, at: Minute)
  {
    0 <= i < |jobs| && jobs[i].id == id && CaughtUp(rows, jobs[i], clock, current, at)
  }

  function ChosenFor(job: JobId, choice: Option<Minute>): seq<(JobId, Minute)> {
    if choice.None? then [] else [(job, choice.value)]
  }

  /** The occurrences they catch up, in order. */
  function Chosen(rows: seq<Row>, jobs: seq<Job>, n: nat, clock: Minute -> Local, current: Minute): seq<(JobId, Minute)>
    requires n <= |jobs|
  {
    if n == 0 then []
    else
      var choice := Choice(RowsAfter(rows, jobs, n - 1, clock, current), jobs[n - 1], clock, current);
      Chosen(rows, jobs, n - 1, clock, current) + ChosenFor(jobs[n - 1].id, choice)
  }

  // The enqueue of this job's catch-up raises.
  ghost predicate Refused(rows: seq<Row>, jobs: seq<Job>, clock: Minute -> Local, current: Minute,
                          enqueues: JobId -> bool, i: int)
  {
    && 0 <= i < |jobs| && !enqueues(jobs[i].id)
    && Choice(RowsAfter(rows, jobs, i, clock, current), jobs[i], clock, current).Some?
  }

  lemma {:induction false} TakenInPrefix(rows: seq<Row>, more: seq<Row>)
    requires rows <= more
    ensures forall job, at :: Taken(rows, job, at) ==> Taken(more, job, at)
  {
    forall job, at | Taken(rows, job, at)
      ensures Taken(more, job, at)
    {
      var k :| 0 <= k < |rows| && rows[k].job == job && rows[k].at == at;
      assert more[k] == rows[k];
    }
  }

  lemma {:induction false} TakenInConcat(a: seq<Row>, b: seq<Row>, job: JobId, at: Minute)
    ensures Taken(a + b, job, at) <==> Taken(a, job, at) || Taken(b, job, at)
  {
    if Taken(a, job, at) {
      TakenInPrefix(a, a + b);
    }
    if Taken(b, job, at) {
      var k :| 0 <= k < |b| && b[k].job == job && b[k].at == at;
      assert (a + b)[|a| + k] == b[k];
    }
  }

  lemma {:induction false} RowsForAre(job: JobId, minutes: seq<Minute>, chosen: Option<Minute>)
    ensures |RowsFor(job, minutes, chosen)| == |minutes|
    ensures forall k :: 0 <= k < |minutes| ==>
      RowsFor(job, minutes, chosen)[k] == Row(job, minutes[k], if chosen == Some(minutes[k]) then Running else Missed)
  {
    if minutes != [] {
      RowsForAre(job, minutes[..|minutes| - 1], chosen);
    }
  }

  // A choice is among the rows written with it.
  lemma {:induction false} ChoiceTaken(rows: seq<Row>, job: Job, clock: Minute -> Local, current: Minute)
    requires Choice(rows, job, clock, current).Some?
    ensures Taken(Reconciled(rows, job, clock, current), job.id, Choice(rows, job, clock, current).value)
  {
    var minutes := LastN(Considered(rows, job, clock, current), MAX_MISSED_ROWS);
    var choice := Choice(rows, job, clock, current);
    var added := RowsFor(job.id, minutes, choice);
    RowsForAre(job.id, minutes, choice);
    assert added[|minutes| - 1].job == job.id && added[|minutes| - 1].at == choice.value;
    TakenInConcat(rows, added, job.id, choice.value);
  }

  // A choice is one of the jobs before, or the last job's.
  lemma {:induction false} ChosenAt(rows: seq<Row>, jobs: seq<Job>, n: nat, clock: Minute -> Local, current: Minute,
                                    k: nat)
    requires 0 < n <= |jobs| && k < |Chosen(rows, jobs, n, clock, current)|
    ensures var before := Chosen(rows, jobs, n - 1, clock, current);
            var choice := Choice(RowsAfter(rows, jobs, n - 1, clock, current), jobs[n - 1], clock, current);
            var chosen := Chosen(rows, jobs, n, clock, current);
            if k < |before| then chosen[k] == before[k]
            else k == |before| && choice.Some? && chosen[k] == (jobs[n - 1].id, choice.value)
  {
  }

  // Job `i` is caught up, as the table stands when its turn comes.
  predicate ChosenAtTurn(rows: seq<Row>, jobs: seq<Job>, i: int, clock: Minute -> Local, current: Minute, id: JobId,
                         at: Minute)
  {
    && 0 <= i < |jobs| && jobs[i].id == id
    && Choice(RowsAfter(rows, jobs, i, clock, current), jobs[i], clock, current) == Some(at)
  }

  lemma {:induction false} InChosen(rows: seq<Row>, jobs: seq<Job>, n: nat, clock: Minute -> Local, current: Minute,
                                    id: JobId, at: Minute)
    requires 0 < n <= |jobs|
    ensures (id, at) in Chosen(rows, jobs, n, clock, current) <==>
      (id, at) in Chosen(rows, jobs, n - 1, clock, current)
      || ChosenAtTurn(rows, jobs, n - 1, clock, current, id, at)
  {
    var before := Chosen(rows, jobs, n - 1, clock, current);
    var choice := Choice(RowsAfter(rows, jobs, n - 1, clock, current), jobs[n - 1], clock, current);
    var own := ChosenFor(jobs[n - 1].id, choice);
    assert Chosen(rows, jobs, n, clock, current) == before + own;
    assert (id, at) in own <==> jobs[n - 1].id == id && choice == Some(at);
  }

  ghost predicate ChosenByTurn(rows: seq<Row>, jobs: seq<Job>, n: nat, clock: Minute -> Local, current: Minute,
                               id: JobId, at: Minute)
  {
    exists i :: i < n && ChosenAtTurn(rows, jobs, i, clock, current, id, at)
  }

  lemma {:induction false} OneMoreTurn(rows: seq<Row>, jobs: seq<Job>, n: nat, clock: Minute -> Local,
                                       current: Minute, id: JobId, at: Minute)
    requires 0 < n <= |jobs|
    ensures ChosenByTurn(rows, jobs, n, clock, current, id, at) <==>
      ChosenByTurn(rows, jobs, n - 1, clock, current, id, at) || ChosenAtTurn(rows, jobs, n - 1, clock, current, id, at)
  {
    if ChosenByTurn(rows, jobs, n, clock, current, id, at) {
      var i :| i < n && ChosenAtTurn(rows, jobs, i, clock, current, id, at);
      assert i == n - 1 || i < n - 1;
    }
  }

  lemma {:induction false} ChosenIff(rows: seq<Row>, jobs: seq<Job>, n: nat, clock: Minute -> Local, current: Minute,
                                     id: JobId, at: Minute)
    requires n <= |jobs|
    ensures (id, at) in Chosen(rows, jobs, n, clock, current) <==>
      ChosenByTurn(rows, jobs, n, clock, current, id, at)
  {
    if n > 0 {
      ChosenIff(rows, jobs, n - 1, clock, current, id, at);
      InChosen(rows, jobs, n, clock, current, id, at);
      OneMoreTurn(rows, jobs, n, clock, current, id, at);
    }
  }

  lemma {:induction false} ChosenTaken(rows: seq<Row>, jobs: seq<Job>, n: nat, clock: Minute -> Local, current: Minute)
    requires n <= |jobs|
    ensures var chosen := Chosen(rows, jobs, n, clock, current);
      forall k :: 0 <= k < |chosen| ==> Taken(RowsAfter(rows, jobs, n, clock, current), chosen[k].0, chosen[k].1)
  {
    if n > 0 {
      var job := jobs[n - 1];
      var now := RowsAfter(rows, jobs, n - 1, clock, current);
      ChosenTaken(rows, jobs, n - 1, clock, current);
      TakenInPrefix(now, Reconciled(now, job, clock, current));
      if Choice(now, job, clock, current).Some? {
        ChoiceTaken(now, job, clock, current);
      }
      var before, chosen := Chosen(rows, jobs, n - 1, clock, current), Chosen(rows, jobs, n, clock, current);
      forall k | 0 <= k < |chosen|
        ensures Taken(RowsAfter(rows, jobs, n, clock, current), chosen[k].0, chosen[k].1)
      {
        ChosenAt(rows, jobs, n, clock, current, k);
      }
    }
  }

  // A job's rows are its own, and its choice lies after all it had and before now.
  lemma {:induction false} ChoiceIsNew(rows: seq<Row>, job: Job, clock: Minute -> Local, current: Minute)
    requires Choice(rows, job, clock, current).Some?
    ensures var at := Choice(rows, job, clock, current).value;
            at < current && !Taken(rows, job.id, at)
  {
    var cursor := Cursor(rows, job, current);
    MatchingMinutesAre(job.cron.value, clock, cursor + 1, current);
    LatestIsLast(rows, job.id);
    var considered := Considered(rows, job, clock, current);
    assert considered[|considered| - 1] in MissedMinutes(rows, job, clock, current);
  }

  // Reconciling a job adds rows of that job alone.
  lemma {:induction false} OthersUntouched(rows: seq<Row>, job: Job, clock: Minute -> Local, current: Minute)
    ensures rows <= Reconciled(rows, job, clock, current)
    ensures forall id, at :: id != job.id ==>
      (Taken(Reconciled(rows, job, clock, current), id, at) <==> Taken(rows, id, at))
  {
    var minutes := LastN(Considered(rows, job, clock, current), MAX_MISSED_ROWS);
    var choice := Choice(rows, job, clock, current);
    RowsForAre(job.id, minutes, choice);
    forall id, at | id != job.id
      ensures Taken(Reconciled(rows, job, clock, current), id, at) <==> Taken(rows, id, at)
    {
      TakenInConcat(rows, RowsFor(job.id, minutes, choice), id, at);
    }
  }

  lemma {:induction false} OthersUntouchedByAll(rows: seq<Row>, jobs: seq<Job>, n: nat, clock: Minute -> Local,
                                                current: Minute, id: JobId)
    requires n <= |jobs| && forall k :: 0 <= k < n ==> jobs[k].id != id
    ensures rows <= RowsAfter(rows, jobs, n, clock, current)
    ensures forall at :: Taken(RowsAfter(rows, jobs, n, clock, current), id, at) <==> Taken(rows, id, at)
  {
    if n > 0 {
      OthersUntouchedByAll(rows, jobs, n - 1, clock, current, id);
      OthersUntouched(RowsAfter(rows, jobs, n - 1, clock, current), jobs[n - 1], clock, current);
    }
  }

  lemma {:induction false} ChosenIsNew(rows: seq<Row>, jobs: seq<Job>, n: nat, clock: Minute -> Local,
                                       current: Minute, k: nat)
    returns (i: nat)
    requires n <= |jobs| && forall j, k :: 0 <= j < k < |jobs| ==> jobs[j].id != jobs[k].id
    requires k < |Chosen(rows, jobs, n, clock, current)|
    ensures var chosen := Chosen(rows, jobs, n, clock, current)[k];
            i < n && chosen.0 == jobs[i].id && !Taken(rows, chosen.0, chosen.1) && chosen.1 < current
  {
    ChosenAt(rows, jobs, n, clock, current, k);
    if k < |Chosen(rows, jobs, n - 1, clock, current)| {
      i := ChosenIsNew(rows, jobs, n - 1, clock, current, k);
    } else {
      i := n - 1;
      OthersUntouchedByAll(rows, jobs, n - 1, clock, current, jobs[i].id);
      ChoiceIsNew(RowsAfter(rows, jobs, n - 1, clock, current), jobs[i], clock, current);
    }
  }

  lemma {:induction false} ChosenDiffer(rows: seq<Row>, jobs: seq<Job>, n: nat, clock: Minute -> Local,
                                        current: Minute, j: nat, k: nat)
    requires n <= |jobs| && forall j, k :: 0 <= j < k < |jobs| ==> jobs[j].id != jobs[k].id
    requires j < k < |Chosen(rows, jobs, n, clock, current)|
    ensures Chosen(rows, jobs, n, clock, current)[j].0 != Chosen(rows, jobs, n, clock, current)[k].0
  {
    ChosenAt(rows, jobs, n, clock, current, j);
    ChosenAt(rows, jobs, n, clock, current, k);
    if k < |Chosen(rows, jobs, n - 1, clock, current)| {
      ChosenDiffer(rows, jobs, n - 1, clock, current, j, k);
    } else {
      var i := ChosenIsNew(rows, jobs, n - 1, clock, current, j);
      assert i < n - 1;
    }
  }

  lemma {:induction false} SameLatest(rows: seq<Row>, more: seq<Row>, id: JobId)
    requires forall at :: Taken(more, id, at) <==> Taken(rows, id, at)
    ensures Latest(more, id) == Latest(rows, id)
  {
    LatestIsLast(rows, id);
    LatestIsLast(more, id);
    if Latest(rows, id).Some? {
      assert Taken(more, id, Latest(rows, id).value);
    }
    if Latest(more, id).Some? {
      assert Taken(rows, id, Latest(more, id).value);
    }
  }

  lemma {:induction false} ChoiceIsOwn(rows: seq<Row>, jobs: seq<Job>, i: nat, clock: Minute -> Local, current: Minute)
    requires i < |jobs| && forall j, k :: 0 <= j < k < |jobs| ==> jobs[j].id != jobs[k].id
    ensures Choice(RowsAfter(rows, jobs, i, clock, current), jobs[i], clock, current) ==
            Choice(rows, jobs[i], clock, current)
  {
    OthersUntouchedByAll(rows, jobs, i, clock, current, jobs[i].id);
    SameLatest(rows, RowsAfter(rows, jobs, i, clock, current), jobs[i].id);
  }

  lemma {:induction false} TurnIsOwn(rows: seq<Row>, jobs: seq<Job>, i: nat, clock: Minute -> Local, current: Minute,
                                     id: JobId, at: Minute)
    requires i < |jobs| && forall j, k :: 0 <= j < k < |jobs| ==> jobs[j].id != jobs[k].id
    ensures ChosenAtTurn(rows, jobs, i, clock, current, id, at) <==>
      JobCaughtUp(rows, jobs, i, clock, current, id, at)
  {
    ChoiceIsOwn(rows, jobs, i, clock, current);
  }

  /** What a reconciliation catches up: for every job that asks for it and has missed a minute, the
      last of its first 5000 missed minutes, and nothing else. */
  lemma {:induction false} CatchUpsAre(rows: seq<Row>, jobs: seq<Job>, clock: Minute -> Local, current: Minute,
                                       id: JobId, at: Minute)
    requires forall j, k :: 0 <= j < k < |jobs| ==> jobs[j].id != jobs[k].id
    ensures (id, at) in Chosen(rows, jobs, |jobs|, clock, current) <==>
      exists i :: JobCaughtUp(rows, jobs, i, clock, current, id, at)
  {
    ChosenIff(rows, jobs, |jobs|, clock, current, id, at);
    if ChosenByTurn(rows, jobs, |jobs|, clock, current, id, at) {
      var i :| i < |jobs| && ChosenAtTurn(rows, jobs, i, clock, current, id, at);
      TurnIsOwn(rows, jobs, i, clock, current, id, at);
    }
    if i :| JobCaughtUp(rows, jobs, i, clock, current, id, at) {
      TurnIsOwn(rows, jobs, i, clock, current, id, at);
      assert ChosenByTurn(rows, jobs, |jobs|, clock, current, id, at);
    }
  }

  /** What a reconciliation catches up: at most one occurrence of each job, each of them past
      and never claimed before. */
  lemma {:induction false} ChosenAreNew(rows: seq<Row>, jobs: seq<Job>, clock: Minute -> Local, current: Minute)
    requires forall j, k :: 0 <= j < k < |jobs| ==> jobs[j].id != jobs[k].id
    ensures var chosen := Chosen(rows, jobs, |jobs|, clock, current);
      && (forall k :: 0 <= k < |chosen| ==> !Taken(rows, chosen[k].0, chosen[k].1) && chosen[k].1 < current)
      && (forall j, k :: 0 <= j < k < |chosen| ==> chosen[j].0 != chosen[k].0)
  {
    var chosen := Chosen(rows, jobs, |jobs|, clock, current);
    forall k | 0 <= k < |chosen|
      ensures !Taken(rows, chosen[k].0, chosen[k].1) && chosen[k].1 < current
    {
      var i := ChosenIsNew(rows, jobs, |jobs|, clock, current, k);
    }
    forall j, k | 0 <= j < k < |chosen|
      ensures chosen[j].0 != chosen[k].0
    {
      ChosenDiffer(rows, jobs, |jobs|, clock, current, j, k);
    }
  }

  lemma {:induction false} TakenGrows(rows: seq<Row>, row: Row)
    ensures forall job, at :: Taken(rows + [row], job, at) <==> Taken(rows, job, at) || (job == row.job && at == row.at)
  {
    var more := rows + [row];
    assert more[|rows|] == row;
    forall job, at
      ensures Taken(more, job, at) <==> Taken(rows, job, at) || (job == row.job && at == row.at)
    {
      if Taken(rows, job, at) {
        var k :| 0 <= k < |rows| && rows[k].job == job && rows[k].at == at;
        assert more[k] == rows[k];
      }
    }
  }

  // What is considered lies after the cursor, in order, and ends where the occurrences do.
  lemma {:induction false} LaterMinutes(all: seq<Minute>, occurrences: seq<Minute>, minutes: seq<Minute>,
                                        cursor: Minute, current: Minute)
    requires Increasing(all) && forall m :: m in all ==> cursor < m < current
    requires occurrences == FirstN(all, MAX_RECONCILE_OCCURRENCES) && occurrences != []
    requires minutes == LastN(occurrences, MAX_MISSED_ROWS)
    ensures Increasing(minutes) && forall k :: 0 <= k < |minutes| ==> cursor < minutes[k] < current
    ensures minutes != [] && minutes[|minutes| - 1] == occurrences[|occurrences| - 1]
  {
    assert forall k :: 0 <= k < |occurrences| ==> occurrences[k] == all[k] && all[k] in all;
  }

  // Rows of the job so far end at the cursor, and the new ones are earlier occurrences.
  lemma {:induction false} NotYetTaken(before: seq<Row>, job: JobId, minutes: seq<Minute>, k: nat,
                                       launch: Option<Minute>, cursor: Minute)
    requires forall i :: 0 <= i < |before| && before[i].job == job ==> before[i].at <= cursor
    requires Increasing(minutes) && k < |minutes| && forall i :: 0 <= i < |minutes| ==> cursor < minutes[i]
    ensures !Taken(before + RowsFor(job, minutes[..k], launch), job, minutes[k])
  {
    RowsForAre(job, minutes[..k], launch);
  }

  /** The catch-up is the latest missed occurrence exactly when no more than 5000 were
      missed. */
  lemma {:induction false} CatchUpIsLatest(rows: seq<Row>, job: Job, clock: Minute -> Local, current: Minute)
    requires job.catchUp && MissedMinutes(rows, job, clock, current) != []
    ensures var missed := MissedMinutes(rows, job, clock, current);
            Choice(rows, job, clock, current) == Some(missed[|missed| - 1]) <==> |missed| <= 5000
  {
    MatchingMinutesAre(job.cron.value, clock, Cursor(rows, job, current) + 1, current);
  }

  /** What counts as missed: for an enabled job with a readable expression, the matching minutes of
      the last thirty days before now, behind every row of the job, or behind its making if it has
      none. */
  lemma {:induction false} MissedAre(rows: seq<Row>, job: Job, clock: Minute -> Local, current: Minute, m: Minute)
    ensures m in MissedMinutes(rows, job, clock, current) <==>
      && job.enabled && job.cron.Some? && Matches(job.cron.value, clock, m)
      && current - 30 * 24 * 60 < m < current
      && (forall k :: 0 <= k < |rows| && rows[k].job == job.id ==> rows[k].at < m)
      && ((forall k :: 0 <= k < |rows| ==> rows[k].job != job.id) ==> job.createdAt / 60 < m)
  {
    LatestIsLast(rows, job.id);
    if job.cron.Some? {
      MatchingMinutesAre(job.cron.value, clock, Cursor(rows, job, current) + 1, current);
    }
  }

  function Least(a: nat, b: nat): nat {
    if a <= b then a else b
  }

  /** The rows a job gets: for the last 200 of its first 5000 missed minutes, in order, all of them
      `missed` but the last one of a job that catches up. */
  lemma {:induction false} ReconciledRows(rows: seq<Row>, job: Job, clock: Minute -> Local, current: Minute)
    ensures var missed, after := MissedMinutes(rows, job, clock, current), Reconciled(rows, job, clock, current);
      var considered := Least(|missed|, 5000);
      var added := Least(considered, 200);
      && |after| == |rows| + added && rows <= after
      && forall i :: |rows| <= i < |after| ==>
           after[i] == Row(job.id, missed[considered - |after| + i],
                           if job.catchUp && i == |after| - 1 then Running else Missed)
  {
    var missed := MissedMinutes(rows, job, clock, current);
    var minutes := LastN(Considered(rows, job, clock, current), MAX_MISSED_ROWS);
    if job.cron.Some? {
      MatchingMinutesAre(job.cron.value, clock, Cursor(rows, job, current) + 1, current);
    }
    RowsForAre(job.id, minutes, Choice(rows, job, clock, current));
  }

  // The first `n` jobs have been reconciled, and none of them refused.
  ghost predicate UpTo(before: seq<Row>, jobs: seq<Job>, n: nat, clock: Minute -> Local, current: Minute,
                       enqueues: JobId -> bool, rows: seq<Row>, toLaunch: seq<(JobId, Minute)>)
  {
    && n <= |jobs| && rows == RowsAfter(before, jobs, n, clock, current)
    && toLaunch == Chosen(before, jobs, n, clock, current)
    && forall k :: 0 <= k < n ==> !Refused(before, jobs, clock, current, enqueues, k)
  }

  lemma {:induction false} OneMoreJob(before: seq<Row>, jobs: seq<Job>, n: nat, clock: Minute -> Local,
                                      current: Minute, enqueues: JobId -> bool, rows: seq<Row>,
                                      toLaunch: seq<(JobId, Minute)>, launch: Option<Minute>)
    requires n < |jobs| && UpTo(before, jobs, n, clock, current, enqueues, rows, toLaunch)
    requires launch == Choice(rows, jobs[n], clock, current) && (launch.Some? ==> enqueues(jobs[n].id))
    ensures UpTo(before, jobs, n + 1, clock, current, enqueues, Reconciled(rows, jobs[n], clock, current),
                 toLaunch + ChosenFor(jobs[n].id, launch))
  {
  }

  class Store {
    var rows: seq<Row>
    // Every first call of `launch` for an occurrence, in order, also one that raised.
    var launches: seq<(JobId, Minute)>

    /** No two rows and no two launches share an occurrence, and only claimed occurrences
        are launched. */
    ghost predicate Valid()
      reads this
    {
      && (forall j, k :: 0 <= j < k < |rows| ==> rows[j].job != rows[k].job || rows[j].at != rows[k].at)
      && (forall j, k :: 0 <= j < k < |launches| ==> launches[j] != launches[k])
      && (forall k :: 0 <= k < |launches| ==> Taken(rows, launches[k].0, launches[k].1))
    }

    constructor ()
      ensures Valid() && rows == [] && launches == []
    {
      rows, launches := [], [];
    }

    // The unique index decides.
    method Claim(job: JobId, at: Minute) returns (ok: bool)
      requires Valid()
      modifies this`rows
      ensures Valid()
      ensures ok <==> !Taken(old(rows), job, at)
      ensures rows == if ok then old(rows) + [Row(job, at, Pending)] else old(rows)
    {
      ok := !Taken(rows, job, at);
      if ok {
        TakenGrows(rows, Row(job, at, Pending));
        rows := rows + [Row(job, at, Pending)];
      }
    }

    // The engine moves an occurrence's run along.
    method Progress(k: nat, status: Status)
      requires Valid() && k < |rows|
      modifies this`rows
      ensures Valid() && rows == old(rows)[k := old(rows)[k].(status := status)]
    {
      ghost var before := rows;
      rows := rows[k := rows[k].(status := status)];
      forall job, at
        ensures Taken(before, job, at) <==> Taken(rows, job, at)
      {
        if Taken(before, job, at) {
          var i :| 0 <= i < |before| && before[i].job == job && before[i].at == at;
          assert rows[i].job == job && rows[i].at == at;
        }
        if Taken(rows, job, at) {
          var i :| 0 <= i < |rows| && rows[i].job == job && rows[i].at == at;
          assert before[i].job == job && before[i].at == at;
        }
      }
    }

    /** One job of the minute tick. A run that cannot be enqueued takes its claim with it
        when the transaction rolls back; one that is enqueued but not launched leaves a failed
        row. */
    method TickJob(job: Job, clock: Minute -> Local, current: Minute, enqueues: bool, launchReturns: bool)
      returns (result: TickResult)
      requires Valid()
      modifies this
      ensures Valid()
      ensures result == NotDue <==> !job.enabled || job.cron.None? || !Matches(job.cron.value, clock, current)
      ensures result == AlreadyClaimed ==> Taken(old(rows), job.id, current)
      ensures result != NotDue && result != AlreadyClaimed ==> !Taken(old(rows), job.id, current)
      ensures result == SkippedBusy ==> exists row ::
        && row in old(rows) && row.job == job.id
        && (row.status == Pending || row.status == Running || row.status == Retrying)
      ensures result == Launched || result == RolledBack || result == LaunchFailed ==>
        && (forall row :: row in old(rows) && row.job == job.id ==>
              row.status != Pending && row.status != Running && row.status != Retrying)
        && (result == RolledBack <==> !enqueues) && (result == LaunchFailed <==> enqueues && !launchReturns)
      ensures rows == match result
        case SkippedBusy => old(rows) + [Row(job.id, current, Skipped)]
        case Launched => old(rows) + [Row(job.id, current, Running)]
        case LaunchFailed => old(rows) + [Row(job.id, current, Failed)]
        case _ => old(rows)
      ensures launches == if result == Launched || result == LaunchFailed then old(launches) + [(job.id, current)]
                          else old(launches)
    {
      if !job.enabled || job.cron.None? || !Matches(job.cron.value, clock, current) {
        return NotDue;
      }
      var before := rows;
      var ok := Claim(job.id, current);
      if !ok {
        return AlreadyClaimed;
      }
      TakenGrows(before, Row(job.id, current, Skipped));
      if Active(before, job.id) {
        rows := before + [Row(job.id, current, Skipped)];
        return SkippedBusy;
      }
      if !enqueues {
        rows := before;
        return RolledBack;
      }
      TakenGrows(before, Row(job.id, current, Running));
      TakenGrows(before, Row(job.id, current, Failed));
      rows := before + [Row(job.id, current, Running)];
      launches := launches + [(job.id, current)];
      if !launchReturns {
        rows := before + [Row(job.id, current, Failed)];
        return LaunchFailed;
      }
      return Launched;
    }

    // One row for each of the occurrences, all of them later than any row of the job.
    method WriteRows(job: JobId, minutes: seq<Minute>, launch: Option<Minute>, ghost cursor: Minute)
      requires Valid() && minutes != [] && Increasing(minutes)
      requires forall k :: 0 <= k < |minutes| ==> cursor < minutes[k]
      requires forall i :: 0 <= i < |rows| && rows[i].job == job ==> rows[i].at <= cursor
      modifies this`rows
      ensures Valid() && rows == old(rows) + RowsFor(job, minutes, launch)
      ensures !Taken(old(rows), job, minutes[|minutes| - 1]) && Taken(rows, job, minutes[|minutes| - 1])
    {
      ghost var before := rows;
      for k := 0 to |minutes|
        invariant Valid()
        invariant rows == before + RowsFor(job, minutes[..k], launch)
      {
        NotYetTaken(before, job, minutes, k, launch, cursor);
        var ok := Claim(job, minutes[k]);
        Progress(|rows| - 1, if Some(minutes[k]) != launch then Missed else Running);
        assert minutes[..k + 1][..k] == minutes[..k];
      }
      assert minutes[..|minutes|] == minutes;
      RowsForAre(job, minutes, launch);
      assert rows[|rows| - 1] == RowsFor(job, minutes, launch)[|minutes| - 1];
    }

    /** One job of the reconciliation. Each considered occurrence among the last 200 gets
        its row, none being claimed already; the catch-up, if wanted, is the last of them. An
        enqueue that raises takes the job's rows with it. */
    method ReconcileJob(job: Job, clock: Minute -> Local, current: Minute, enqueues: bool)
      returns (launch: Option<Minute>, raised: bool)
      requires Valid()
      modifies this`rows
      ensures Valid()
      ensures raised <==> Choice(old(rows), job, clock, current).Some? && !enqueues
      ensures launch == if raised then None else Choice(old(rows), job, clock, current)
      ensures rows == if raised then old(rows) else Reconciled(old(rows), job, clock, current)
      ensures !raised && job.catchUp && MissedMinutes(old(rows), job, clock, current) != [] ==>
        var missed := MissedMinutes(old(rows), job, clock, current);
        launch == Some(missed[|missed| - 1]) <==> |missed| <= 5000
    {
      launch, raised := None, false;
      if job.catchUp && MissedMinutes(rows, job, clock, current) != [] {
        CatchUpIsLatest(rows, job, clock, current);
      }
      if !job.enabled || job.cron.None? {
        return;
      }
      ghost var before := rows;
      var cron := job.cron.value;
      var cursor := Cursor(rows, job, current);
      LatestIsLast(rows, job.id);
      var occurrences := Occurrences(cron, clock, cursor, current);
      MatchingMinutesAre(cron, clock, cursor + 1, current);
      if occurrences == [] {
        return;
      }
      launch := if job.catchUp then Some(occurrences[|occurrences| - 1]) else None;
      if launch.Some? && !enqueues {
        return None, true;
      }
      var minutes := LastN(occurrences, MAX_MISSED_ROWS);
      LaterMinutes(MatchingMinutes(cron, clock, cursor + 1, current), occurrences, minutes, cursor, current);
      WriteRows(job.id, minutes, launch, cursor);
    }

    // One turn of the loop over the jobs.
    method ReconcileNext(jobs: seq<Job>, i: nat, clock: Minute -> Local, current: Minute, enqueues: JobId -> bool,
                         toLaunch0: seq<(JobId, Minute)>, ghost before: seq<Row>)
      returns (toLaunch: seq<(JobId, Minute)>, failed: bool)
      requires Valid() && i < |jobs| && UpTo(before, jobs, i, clock, current, enqueues, rows, toLaunch0)
      modifies this`rows
      ensures Valid()
      ensures failed ==>
        rows == old(rows) && toLaunch == toLaunch0 && Refused(before, jobs, clock, current, enqueues, i)
      ensures !failed ==> UpTo(before, jobs, i + 1, clock, current, enqueues, rows, toLaunch)
    {
      ghost var now := rows;
      toLaunch := toLaunch0;
      var launch;
      launch, failed := ReconcileJob(jobs[i], clock, current, enqueues(jobs[i].id));
      if !failed {
        OneMoreJob(before, jobs, i, clock, current, enqueues, now, toLaunch, launch);
        toLaunch := toLaunch + ChosenFor(jobs[i].id, launch);
      }
    }

    // Every job's rows, until an enqueue raises; `done` jobs are reconciled.
    method ReconcileAll(jobs: seq<Job>, clock: Minute -> Local, current: Minute, enqueues: JobId -> bool)
      returns (toLaunch: seq<(JobId, Minute)>, done: nat)
      requires Valid()
      modifies this`rows
      ensures Valid()
      ensures done <= |jobs| && rows == RowsAfter(old(rows), jobs, done, clock, current)
      ensures toLaunch == Chosen(old(rows), jobs, done, clock, current)
      ensures forall k :: 0 <= k < done ==> !Refused(old(rows), jobs, clock, current, enqueues, k)
      ensures done < |jobs| ==> Refused(old(rows), jobs, clock, current, enqueues, done)
    {
      toLaunch := [];
      ghost var before := rows;
      for i := 0 to |jobs|
        invariant Valid() && UpTo(before, jobs, i, clock, current, enqueues, rows, toLaunch)
      {
        var failed;
        toLaunch, failed := ReconcileNext(jobs, i, clock, current, enqueues, toLaunch, before);
        if failed {
          return toLaunch, i;
        }
      }
      done := |jobs|;
    }

    // Launch in order until one raises.
    method LaunchAll(toLaunch: seq<(JobId, Minute)>, returning: nat) returns (raised: bool)
      requires Valid() && forall k :: 0 <= k < |toLaunch| ==> Taken(rows, toLaunch[k].0, toLaunch[k].1)
      requires forall j, k :: 0 <= j < k < |toLaunch| ==> toLaunch[j] != toLaunch[k]
      requires forall j, k :: 0 <= j < |launches| && 0 <= k < |toLaunch| ==> launches[j] != toLaunch[k]
      modifies this`launches
      ensures Valid()
      ensures raised <==> returning < |toLaunch|
      ensures launches == old(launches) + if raised then toLaunch[..returning + 1] else toLaunch
    {
      for k := 0 to |toLaunch|
        invariant Valid() && k <= returning
        invariant launches == old(launches) + toLaunch[..k]
      {
        assert toLaunch[..k + 1] == toLaunch[..k] + [toLaunch[k]];
        launches := launches + [toLaunch[k]];
        if k == returning {
          return true;
        }
      }
      assert toLaunch[..|toLaunch|] == toLaunch;
      return false;
    }

    /** The whole reconciliation: job after job, then the launches. An enqueue that raises
        ends it with the rows of the jobs before it and without a launch; a launch that raises
        ends it there. `returning` launches return. */
    method Reconcile(jobs: seq<Job>, clock: Minute -> Local, current: Minute, enqueues: JobId -> bool, returning: nat)
      returns (raised: bool, done: nat)
      requires Valid() && forall j, k :: 0 <= j < k < |jobs| ==> jobs[j].id != jobs[k].id
      modifies this
      ensures Valid()
      ensures done <= |jobs| && rows == RowsAfter(old(rows), jobs, done, clock, current)
      ensures done < |jobs| <==> exists i :: Refused(old(rows), jobs, clock, current, enqueues, i)
      ensures done < |jobs| ==>
        raised && launches == old(launches) && Refused(old(rows), jobs, clock, current, enqueues, done)
      ensures done == |jobs| ==>
        var chosen := Chosen(old(rows), jobs, |jobs|, clock, current);
        && (raised <==> returning < |chosen|)
        && launches == old(launches) + if raised then chosen[..returning + 1] else chosen
    {
      ghost var before := rows;
      var toLaunch;
      toLaunch, done := ReconcileAll(jobs, clock, current, enqueues);
      if done < |jobs| {
        return true, done;
      }
      ChosenAreNew(before, jobs, clock, current);
      ChosenTaken(before, jobs, |jobs|, clock, current);
      raised := LaunchAll(toLaunch, returning);
    }
  }

  // `* * * * *`
  const EVERY_MINUTE: Cron :=
    Cron(set v | 0 <= v <= 59, set v | 0 <= v <= 23, set v | 1 <= v <= 31, set v | 1 <= v <= 12, set v | 0 <= v <= 6)

  predicate IsCalendar(at: Local) {
    0 <= at.minute <= 59 && 0 <= at.hour <= 23 && 1 <= at.day <= 31 && 1 <= at.month <= 12 && 0 <= at.weekday <= 6
  }

  lemma {:induction false} EveryMinuteMatches(clock: Minute -> Local, from: Minute, until: Minute)
    requires from <= until && forall m :: IsCalendar(clock(m))
    ensures MatchingMinutes(EVERY_MINUTE, clock, from, until) == seq(until - from, k => from + k)
    decreases until - from
  {
    if from < until {
      assert IsCalendar(clock(from));
      EveryMinuteMatches(clock, from + 1, until);
    }
  }

  /** An outage past the cap: a job that runs every minute and was down for more than 5000
      minutes, but no more than 30 days, catches up the 5000th of them and not the last. */
  lemma {:induction false} LongOutageCatchesUpEarly(id: JobId, clock: Minute -> Local, created: Minute, current: Minute)
    requires forall m :: IsCalendar(clock(m))
    requires created + 5001 < current <= created + 30 * 24 * 60
    ensures var job := Job(id, true, Some(EVERY_MINUTE), created * 60, true);
            && MissedMinutes([], job, clock, current) == seq(current - created - 1, k => created + 1 + k)
            && Choice([], job, clock, current) == Some(created + 5000)
            && created + 5000 < current - 1
  {
    EveryMinuteMatches(clock, created + 1, current);
  }

  lemma {:induction false} OneMissed(rows: seq<Row>, job: Job, clock: Minute -> Local)
    requires forall m :: IsCalendar(clock(m))
    requires job == Job(job.id, true, Some(EVERY_MINUTE), 0, true)
    requires forall k :: 0 <= k < |rows| ==> rows[k].job != job.id
    ensures Choice(rows, job, clock, 2) == Some(1)
    ensures Reconciled(rows, job, clock, 2) == rows + [Row(job.id, 1, Running)]
  {
    LatestIsLast(rows, job.id);
    EveryMinuteMatches(clock, 1, 2);
    assert MissedMinutes(rows, job, clock, 2) == [1];
    assert RowsFor(job.id, [1], Some(1)) == [Row(job.id, 1, Running)] by {
      assert [1][..0] == [];
    }
  }

  /** A launch lost: of two jobs that each missed one minute the second cannot be enqueued. The
      first keeps its running row, and nothing is launched. */
  method LaunchLost(clock: Minute -> Local) returns (rows: seq<Row>, launches: seq<(JobId, Minute)>)
    requires forall m :: IsCalendar(clock(m))
    ensures rows == [Row(0, 1, Running)] && launches == []
  {
    var store := new Store();
    var jobs := [Job(0, true, Some(EVERY_MINUTE), 0, true), Job(1, true, Some(EVERY_MINUTE), 0, true)];
    OneMissed([], jobs[0], clock);
    OneMissed([Row(0, 1, Running)], jobs[1], clock);
    assert RowsAfter([], jobs, 0, clock, 2) == [];
    assert RowsAfter([], jobs, 1, clock, 2) == [Row(0, 1, Running)];
    assert !Refused([], jobs, clock, 2, id => id == 0, 0);
    assert Refused([], jobs, clock, 2, id => id == 0, 1);
    var raised, done := store.Reconcile(jobs, clock, 2, id => id == 0, 2);
    rows, launches := store.rows, store.launches;
  }
}
