/** The desktop schedule daemon: when a job is due, and what a run of ticks, manual runs
    and outages fires. */
module CatchUp {
  import opened Common
  import opened Remainders

  // Nanoseconds.
  type Time = int

  const SECOND: Time := 1_000_000_000
  const MINUTE: Time := 60 * SECOND
  const SEARCH_LIMIT: Time := 365 * 5 * 24 * 60 * MINUTE

  /** A parsed expression: five fields, or six with a leading seconds column. `matches`
      looks at a whole second's calendar fields. */
  datatype Schedule = Schedule(withSeconds: bool, matches: int -> bool)

  predicate Matches(s: Schedule, at: Time) {
    s.matches(at / SECOND)
  }

  function Step(s: Schedule): (step: Time)
    ensures step > 0
  {
    if s.withSeconds then SECOND else MINUTE
  }

  // Where the search for the next firing starts.
  function FirstCandidate(s: Schedule, from: Time): Time {
    if s.withSeconds then from + SECOND else from / MINUTE * MINUTE + MINUTE
  }

  /** A time the search from `from` would accept. */
  ghost predicate Occurs(s: Schedule, from: Time, at: Time) {
    && FirstCandidate(s, from) <= at <= from + SEARCH_LIMIT
    && (at - FirstCandidate(s, from)) % Step(s) == 0
    && Matches(s, at)
  }

  lemma {:induction false} FloorBelow(from: Time)
    ensures from / MINUTE * MINUTE <= from < from / MINUTE * MINUTE + MINUTE
    ensures (from / MINUTE * MINUTE) % MINUTE == 0
  {
  }

  lemma {:induction false} NextMinute(from: Time, at: Time)
    requires from < at && at % MINUTE == 0
    ensures from / MINUTE * MINUTE + MINUTE <= at
  {
    var gap := at / MINUTE - from / MINUTE;
    assert at == at / MINUTE * MINUTE;
    assert gap * MINUTE == at - from / MINUTE * MINUTE;
  }

  /** For five fields, the matching whole minutes strictly after `from`. */
  lemma {:induction false} OccursOnMinutes(s: Schedule, from: Time, at: Time)
    requires !s.withSeconds
    ensures Occurs(s, from, at) <==> from < at <= from + SEARCH_LIMIT && at % MINUTE == 0 && Matches(s, at)
  {
    FloorBelow(from);
    FloorBelow(at);
    var first := FirstCandidate(s, from);
    ModShift(first, MINUTE, MINUTE);
    ModShift(at, first, MINUTE);
    if from < at && at % MINUTE == 0 {
      NextMinute(from, at);
    }
  }

  /** For six fields, the matching times a whole number of seconds after `from`. */
  lemma {:induction false} OccursOnSeconds(s: Schedule, from: Time, at: Time)
    requires s.withSeconds
    ensures Occurs(s, from, at) <==>
      from < at <= from + SEARCH_LIMIT && at % SECOND == from % SECOND && Matches(s, at)
  {
    var gap := at / SECOND - from / SECOND;
    assert at - from == gap * SECOND + (at % SECOND - from % SECOND);
    if at % SECOND == from % SECOND {
      ModUnique(at - from - SECOND, SECOND, gap - 1, 0);
    }
    if (at - FirstCandidate(s, from)) % SECOND == 0 {
      var n := (at - FirstCandidate(s, from)) / SECOND + 1;
      ModUnique(at, SECOND, from / SECOND + n, from % SECOND);
    }
  }

  lemma {:induction false} NoneBetween(s: Schedule, from: Time, candidate: Time, t: Time)
    requires Occurs(s, from, t) && candidate <= t && t != candidate
    requires (candidate - FirstCandidate(s, from)) % Step(s) == 0
    ensures candidate + Step(s) <= t
  {
    var m, a, b := Step(s), t - FirstCandidate(s, from), candidate - FirstCandidate(s, from);
    ModShift(a, b, m);
    if t - candidate < m {
      ModUnique(t - candidate, m, 0, t - candidate);
    }
  }

  /** The first accepted time, by stepping; none exactly when there is none. */
  method NextAfter(s: Schedule, from: Time) returns (next: Option<Time>)
    ensures next.Some? ==> Occurs(s, from, next.value) && forall t :: Occurs(s, from, t) ==> next.value <= t
    ensures next.None? ==> forall t :: !Occurs(s, from, t)
  {
    var candidate := FirstCandidate(s, from);
    var limit := from + SEARCH_LIMIT;
    ghost var steps := 0;
    while candidate <= limit
      invariant candidate == FirstCandidate(s, from) + steps * Step(s) && steps >= 0
      invariant forall t :: Occurs(s, from, t) ==> candidate <= t
      decreases limit - candidate
    {
      ModUnique(candidate - FirstCandidate(s, from), Step(s), steps, 0);
      if Matches(s, candidate) {
        return Some(candidate);
      }
      forall t | Occurs(s, from, t)
        ensures candidate + Step(s) <= t
      {
        NoneBetween(s, from, candidate, t);
      }
      candidate := candidate + Step(s);
      steps := steps + 1;
    }
    return None;
  }

  // ----- slots

  /** A whole second at which the schedule asks for a run: for five fields, the start of a
      minute. */
  predicate Slot(s: Schedule, sec: int) {
    (s.withSeconds || sec % 60 == 0) && s.matches(sec)
  }

  // The second lies in the window (anchor, at].
  predicate InWindow(sec: int, anchor: Time, at: Time) {
    anchor / SECOND < sec <= at / SECOND
  }

  lemma {:induction false} LaterSecond(a: Time, b: Time)
    requires a <= b
    ensures a / SECOND <= b / SECOND
    ensures a + SECOND <= b ==> a / SECOND < b / SECOND
  {
  }

  lemma {:induction false} MinuteStart(t: Time)
    requires t % MINUTE == 0
    ensures t == t / SECOND * SECOND && t / SECOND % 60 == 0
  {
    var m := t / MINUTE;
    assert t == 60 * m * SECOND;
    ModUnique(t, SECOND, 60 * m, 0);
    assert t / SECOND == 60 * m;
  }

  /** What a search accepts is a slot after the second of its argument. */
  lemma {:induction false} AcceptedIsSlot(s: Schedule, from: Time, at: Time)
    requires Occurs(s, from, at)
    ensures Slot(s, at / SECOND) && from / SECOND < at / SECOND
  {
    if s.withSeconds {
      LaterSecond(from, at);
    } else {
      OccursOnMinutes(s, from, at);
      MinuteStart(at);
      LaterSecond(from, at);
    }
  }

  // ----- jobs

  /** The stored part of a job that firing depends on; `schedule` is none when it does not
      parse. */
  datatype Config = Config(schedule: Option<Schedule>, enabled: bool, promptBlank: bool, createdAt: Time)

  /** Something to do: a time falls due in (anchor, now]. */
  ghost predicate Due(config: Config, anchor: Time, now: Time) {
    && config.enabled && !config.promptBlank && config.schedule.Some?
    && anchor < now && exists t :: Occurs(config.schedule.value, anchor, t) && t <= now
  }

  // When the search from `anchor` meets a second: five fields meet it as it starts, six as far into
  // it as the anchor is into its own.
  function MetAt(s: Schedule, sec: int, anchor: Time): Time {
    sec * 1_000_000_000 + if s.withSeconds then anchor % 1_000_000_000 else 0
  }

  lemma {:induction false} MetSecond(s: Schedule, sec: int, anchor: Time)
    ensures var t := MetAt(s, sec, anchor);
      && t / SECOND == sec && t % SECOND == (if s.withSeconds then anchor % SECOND else 0)
      && (!s.withSeconds ==> (t % MINUTE == 0 <==> sec % 60 == 0))
  {
    var t := MetAt(s, sec, anchor);
    ModUnique(t, SECOND, sec, t - sec * SECOND);
    assert sec == sec / 60 * 60 + sec % 60;
    if !s.withSeconds {
      ModUnique(t, MINUTE, sec / 60, sec % 60 * SECOND);
    }
  }

  /** A job is due if and only if it is enabled, has a prompt and a schedule, and the search from its
      anchor meets a slot after the anchor and by now, within five years. */
  lemma {:induction false} DueIffSlot(config: Config, anchor: Time, now: Time)
    ensures Due(config, anchor, now) <==>
      && config.enabled && !config.promptBlank && config.schedule.Some?
      && exists sec ::
           Slot(config.schedule.value, sec)
           && anchor < MetAt(config.schedule.value, sec, anchor) <= now
           && MetAt(config.schedule.value, sec, anchor) <= anchor + 5 * 365 * 24 * 60 * 60 * 1_000_000_000
  {
    if config.schedule.Some? {
      var s := config.schedule.value;
      forall sec
        ensures Occurs(s, anchor, MetAt(s, sec, anchor)) <==>
          Slot(s, sec) && anchor < MetAt(s, sec, anchor) <= anchor + SEARCH_LIMIT
      {
        MetSecond(s, sec, anchor);
        if s.withSeconds {
          OccursOnSeconds(s, anchor, MetAt(s, sec, anchor));
        } else {
          OccursOnMinutes(s, anchor, MetAt(s, sec, anchor));
        }
      }
      forall t | Occurs(s, anchor, t)
        ensures MetAt(s, t / SECOND, anchor) == t && anchor < t
      {
        if s.withSeconds {
          OccursOnSeconds(s, anchor, t);
        } else {
          OccursOnMinutes(s, anchor, t);
          MinuteStart(t);
        }
      }
    }
  }

  // How an attempt to start the run went.
  datatype Attempt = NoConversation | Busy | Started | CouldNotStart

  /** An attempt to run the job, by a tick or by hand: the window it stood for, and whether
      the mark that ends the window was written. */
  datatype Attempted = Attempted(anchor: Time, at: Time, written: bool, byTick: bool)

  /** The anchor that a log of attempts leaves: the last written mark, or the creation time. */
  function AnchorAfter(config: Config, log: seq<Attempted>): Time {
    if log == [] then config.createdAt
    else if log[|log| - 1].written then log[|log| - 1].at
    else AnchorAfter(config, log[..|log| - 1])
  }

  /** Every attempt starts from the anchor that those before it leave, and a tick attempts
      only what is due. */
  ghost predicate Chained(config: Config, log: seq<Attempted>) {
    forall k :: 0 <= k < |log| ==>
      && log[k].anchor == AnchorAfter(config, log[..k])
      && (log[k].byTick ==> Due(config, log[k].anchor, log[k].at))
  }

  lemma {:induction false} ChainedOneMore(config: Config, log: seq<Attempted>, next: Attempted)
    requires Chained(config, log) && next.anchor == AnchorAfter(config, log)
    requires next.byTick ==> Due(config, next.anchor, next.at)
    ensures Chained(config, log + [next])
    ensures AnchorAfter(config, log + [next]) == if next.written then next.at else next.anchor
  {
    var more := log + [next];
    assert more[..|log|] == log;
    forall k | 0 <= k < |more|
      ensures more[k].anchor == AnchorAfter(config, more[..k])
      ensures more[k].byTick ==> Due(config, more[k].anchor, more[k].at)
    {
      if k < |log| {
        assert more[..k] == log[..k];
      }
    }
  }

  class Job {
    const config: Config
    var lastRunAt: Option<Time>
    // Every attempt so far, also those whose mark was lost.
    ghost var log: seq<Attempted>

    function Anchor(): Time
      reads this
    {
      match lastRunAt case Some(t) => t case None => config.createdAt
    }

    ghost predicate Valid()
      reads this
    {
      Chained(config, log) && Anchor() == AnchorAfter(config, log)
    }

    constructor (config: Config)
      ensures Valid() && log == [] && this.config == config && lastRunAt == None
    {
      this.config, lastRunAt, log := config, None, [];
    }

    method IsDue(now: Time) returns (due: bool)
      ensures due <==> Due(config, Anchor(), now)
    {
      if !config.enabled || config.promptBlank || config.schedule.None? {
        return false;
      }
      var anchor := Anchor();
      if now <= anchor {
        return false;
      }
      var next := NextAfter(config.schedule.value, anchor);
      due := next.Some? && next.value <= now;
    }

    // Move the anchor, if the write takes.
    method MarkRan(now: Time, written: bool, ghost byTick: bool)
      requires Valid() && (byTick ==> Due(config, Anchor(), now))
      modifies this
      ensures Valid()
      ensures lastRunAt == if written then Some(now) else old(lastRunAt)
      ensures log == old(log) + [Attempted(old(Anchor()), now, written, byTick)]
    {
      ghost var next := Attempted(Anchor(), now, written, byTick);
      ChainedOneMore(config, log, next);
      log := log + [next];
      if written {
        lastRunAt := Some(now);
      }
    }

    /** One tick. A due job that is not busy consumes its window whether or not its run
        could start - unless the best-effort write of the new anchor is lost. */
    method Tick(now: Time, attempt: Attempt, written: bool) returns (started: bool)
      requires Valid()
      modifies this
      ensures Valid()
      ensures started <==> Due(config, old(Anchor()), now) && attempt.Started?
      ensures lastRunAt == (if Due(config, old(Anchor()), now) && attempt != Busy && written then Some(now)
                            else old(lastRunAt))
      ensures log == if Due(config, old(Anchor()), now) && attempt != Busy
                     then old(log) + [Attempted(old(Anchor()), now, written, true)] else old(log)
    {
      started := false;
      var due := IsDue(now);
      if !due {
        return;
      }
      match attempt {
        case Busy =>
        case Started =>
          MarkRan(now, written, true);
          started := true;
        case NoConversation =>
          MarkRan(now, written, true);
        case CouldNotStart =>
          MarkRan(now, written, true);
      }
    }

    // "Run now": the same mark, whether or not the job was due.
    method RunNow(now: Time, dispatched: bool, written: bool) returns (started: bool)
      requires Valid()
      modifies this
      ensures Valid() && started == (dispatched && !config.promptBlank)
      ensures lastRunAt == if started && written then Some(now) else old(lastRunAt)
      ensures log == if started then old(log) + [Attempted(old(Anchor()), now, written, false)] else old(log)
    {
      started := dispatched && !config.promptBlank;
      if started {
        MarkRan(now, written, false);
      }
    }
  }

  // ----- what follows for whole runs

  // Attempts were made at times that do not decrease.
  ghost predicate Clocked(log: seq<Attempted>) {
    forall j, k :: 0 <= j < k < |log| ==> log[j].at <= log[k].at
  }

  ghost predicate WrittenBetween(log: seq<Attempted>, j: int, k: int) {
    exists i :: j <= i < k && 0 <= i < |log| && log[i].written
  }

  // What a chained log says of anchors, one attempt to the next.
  ghost predicate Steps(log: seq<Attempted>) {
    forall k :: 0 < k < |log| ==>
      log[k].anchor == if log[k - 1].written then log[k - 1].at else log[k - 1].anchor
  }

  lemma {:induction false} ChainedSteps(config: Config, log: seq<Attempted>)
    requires Chained(config, log)
    ensures Steps(log)
  {
    forall k | 0 < k < |log|
      ensures log[k].anchor == if log[k - 1].written then log[k - 1].at else log[k - 1].anchor
    {
      assert log[..k][..k - 1] == log[..k - 1];
    }
  }

  // Without a written mark in between, the anchor stays where it is.
  lemma {:induction false} AnchorStays(log: seq<Attempted>, j: nat, k: nat)
    requires Steps(log) && j <= k < |log| && !WrittenBetween(log, j, k)
    ensures log[k].anchor == log[j].anchor
    decreases k
  {
    if j < k {
      assert !log[k - 1].written;
      AnchorStays(log, j, k - 1);
    }
  }

  // After a written mark, the anchor is no earlier than the attempt it was written for.
  lemma {:induction false} AnchorMoves(log: seq<Attempted>, j: nat, k: nat)
    requires Steps(log) && Clocked(log) && j < k < |log| && WrittenBetween(log, j, k)
    ensures log[j].at <= log[k].anchor
    decreases k
  {
    if !log[k - 1].written {
      var i :| j <= i < k && log[i].written;
      assert WrittenBetween(log, j, k - 1);
      AnchorMoves(log, j, k - 1);
    }
  }

  /** One slot that both attempts stand for. */
  ghost predicate ShareSlot(s: Schedule, a: Attempted, b: Attempted) {
    exists sec :: Slot(s, sec) && InWindow(sec, a.anchor, a.at) && InWindow(sec, b.anchor, b.at)
  }

  // A due window holds a slot.
  lemma {:induction false} DueHoldsSlot(config: Config, anchor: Time, now: Time) returns (sec: int)
    requires Due(config, anchor, now)
    ensures Slot(config.schedule.value, sec) && InWindow(sec, anchor, now)
  {
    var t :| Occurs(config.schedule.value, anchor, t) && t <= now;
    AcceptedIsSlot(config.schedule.value, anchor, t);
    LaterSecond(t, now);
    sec := t / SECOND;
  }

  /** In every run with a clock that does not go back, two attempts of the daemon stand for
      the same slot if and only if no mark was written from the first up to the second. */
  lemma {:induction false} SlotSharedIffUnmarked(config: Config, log: seq<Attempted>, j: nat, k: nat)
    requires Chained(config, log) && Clocked(log)
    requires j < k < |log| && log[j].byTick && log[k].byTick
    ensures ShareSlot(config.schedule.value, log[j], log[k]) <==> !WrittenBetween(log, j, k)
  {
    ChainedSteps(config, log);
    if WrittenBetween(log, j, k) {
      AnchorMoves(log, j, k);
      LaterSecond(log[j].at, log[k].anchor);
    } else {
      AnchorStays(log, j, k);
      var sec := DueHoldsSlot(config, log[j].anchor, log[j].at);
      LaterSecond(log[j].at, log[k].at);
    }
  }

  /** After an attempt at `fired`, with no slot in (fired, now], the job is due again exactly
      when the new anchor was not written: an outage, however long, is made up for by one
      attempt, and the price of a lost write is a second one. */
  lemma {:induction false} CaughtUpOnce(config: Config, anchor: Time, fired: Time, now: Time, written: bool)
    requires Due(config, anchor, fired) && fired <= now
    requires forall sec :: InWindow(sec, fired, now) ==> !Slot(config.schedule.value, sec)
    ensures Due(config, if written then fired else anchor, now) <==> !written
  {
    if written && Due(config, fired, now) {
      var sec := DueHoldsSlot(config, fired, now);
      assert false;
    }
  }

  /** A later anchor leaves nothing due that lies before it: what is due after an attempt
      is a slot after that attempt. */
  lemma {:induction false} OnlyLaterSlotsRemain(config: Config, fired: Time, now: Time)
    requires Due(config, fired, now)
    ensures exists sec :: Slot(config.schedule.value, sec) && InWindow(sec, fired, now)
  {
    var sec := DueHoldsSlot(config, fired, now);
  }

  /** A busy skip consumes nothing: what was due stays due at every later time. */
  lemma {:induction false} SkippedStaysDue(config: Config, anchor: Time, now: Time, later: Time)
    requires Due(config, anchor, now) && now <= later
    ensures Due(config, anchor, later)
  {
    var t :| Occurs(config.schedule.value, anchor, t) && t <= now;
    assert t <= later;
  }

  /** A slot run twice: a due job whose first mark is lost is started again for the same slot. */
  method OneSlotTwice(config: Config, now: Time, later: Time) returns (first: bool, second: bool, job: Job)
    requires Due(config, config.createdAt, now) && now <= later
    ensures first && second && |job.log| == 2
    ensures ShareSlot(config.schedule.value, job.log[0], job.log[1])
  {
    job := new Job(config);
    SkippedStaysDue(config, config.createdAt, now, later);
    first := job.Tick(now, Started, false);
    second := job.Tick(later, Started, true);
    assert !WrittenBetween(job.log, 0, 1);
    SlotSharedIffUnmarked(config, job.log, 0, 1);
  }

  // `* * * * *`, in the second minute of the epoch.
  const EVERY_MINUTE: Config := Config(Some(Schedule(false, _ => true)), true, false, 0)

  lemma {:induction false} EveryMinuteIsDue()
    ensures Due(EVERY_MINUTE, EVERY_MINUTE.createdAt, MINUTE)
  {
    assert Occurs(EVERY_MINUTE.schedule.value, 0, MINUTE);
  }
}
