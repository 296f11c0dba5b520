/** Notifications deferred to the end of a database transaction. */
module SessionMarks {
  import opened Common

  type RunId = string

  datatype Channel = Scheduler | Memory | Other

  datatype Signal = RunSignal(run: RunId) | SchedulerSignal | MemorySignal

  datatype Pending = Pending(runs: set<RunId>, scheduler: bool, memory: bool)

  datatype Event = Marked(channel: Channel, run: Option<RunId>) | Committed | RolledBack

  // The signals one mark asks for.
  function Asked(event: Event): set<Signal> {
    match event
    case Marked(channel, run) =>
      (if run.Some? && run.value != "" then {RunSignal(run.value)} else {}) +
      (match channel case Scheduler => {SchedulerSignal} case Memory => {MemorySignal} case Other => {})
    case _ => {}
  }

  // Event `i` belongs to the transaction that is open after `history`.
  ghost predicate InOpenTransaction(history: seq<Event>, i: int) {
    0 <= i < |history| && forall k :: i <= k < |history| ==> history[k].Marked?
  }

  ghost predicate Deferred(history: seq<Event>, signal: Signal) {
    exists i :: InOpenTransaction(history, i) && signal in Asked(history[i])
  }

  function Signals(info: Option<Pending>): set<Signal> {
    match info
    case None => {}
    case Some(p) =>
      (set run | run in p.runs :: RunSignal(run)) +
      (if p.scheduler then {SchedulerSignal} else {}) + (if p.memory then {MemorySignal} else {})
  }

  lemma {:induction false} DeferredAfterMark(history: seq<Event>, mark: Event, signal: Signal)
    requires mark.Marked?
    ensures Deferred(history + [mark], signal) <==> Deferred(history, signal) || signal in Asked(mark)
  {
    var longer := history + [mark];
    if Deferred(history, signal) {
      var i :| InOpenTransaction(history, i) && signal in Asked(history[i]);
      assert InOpenTransaction(longer, i) && longer[i] == history[i];
    }
    if signal in Asked(mark) {
      assert InOpenTransaction(longer, |history|);
    }
    if Deferred(longer, signal) && !(signal in Asked(mark)) {
      var i :| InOpenTransaction(longer, i) && signal in Asked(longer[i]);
      assert i < |history| && forall k :: i <= k < |history| ==> history[k] == longer[k];
      assert InOpenTransaction(history, i);
    }
  }

  // After a commit or rollback nothing is deferred.
  lemma {:induction false} NothingOpen(history: seq<Event>)
    requires history != [] && !history[|history| - 1].Marked?
    ensures forall signal :: !Deferred(history, signal)
  {
  }

  class Session {
    var info: Option<Pending>
    ghost var history: seq<Event>

    /** What is pending is what the marks since the last commit or rollback asked for. */
    ghost predicate Valid()
      reads this
    {
      forall signal :: signal in Signals(info) <==> Deferred(history, signal)
    }

    constructor ()
      ensures Valid() && history == []
    {
      info, history := None, [];
    }

    method Mark(channel: Channel, run: Option<RunId>)
      requires Valid()
      modifies this
      ensures Valid() && history == old(history) + [Marked(channel, run)]
    {
      var pending := if info.Some? then info.value else Pending({}, false, false);
      if run.Some? && run.value != "" {
        pending := pending.(runs := pending.runs + {run.value});
      }
      if channel == Scheduler {
        pending := pending.(scheduler := true);
      } else if channel == Memory {
        pending := pending.(memory := true);
      }
      info := Some(pending);
      history := history + [Marked(channel, run)];
      forall signal
        ensures signal in Signals(info) <==> Deferred(history, signal)
      {
        DeferredAfterMark(old(history), Marked(channel, run), signal);
      }
    }

    // Sends what is pending, once.
    method Commit() returns (sent: set<Signal>)
      requires Valid()
      modifies this
      ensures Valid() && history == old(history) + [Committed]
      ensures forall signal :: signal in sent <==> Deferred(old(history), signal)
    {
      sent := Signals(info);
      info := None;
      history := history + [Committed];
      NothingOpen(history);
    }

    method RollBack()
      requires Valid()
      modifies this
      ensures Valid() && history == old(history) + [RolledBack]
    {
      info := None;
      history := history + [RolledBack];
      NothingOpen(history);
    }
  }
}
