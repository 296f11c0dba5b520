/** The in-process wakeup channel: a revision counter and an event on one event loop,
    with waiters on the loop and notifiers on the loop or on other threads. A channel bound
    to the loop sets its event there; an unbound one sets it on the notifying thread. */
module WakeupChannel {
  import opened Common

  type WaiterId = nat
  type NotifierId = nat

  /** Where a waiter stands in `wait`. From `Checked` to suspension, and from resumption to
      return, it runs on the loop thread without yielding. */
  datatype Waiter =
    | Outside
    | Checked(seen: nat)   // found its revision current, about to test the event
    | Joining(seen: nat)   // found the event clear, about to join the sleepers
    | Asleep(seen: nat)    // suspended on the event
    | Ready(seen: nat)     // its future is done or its timer fired
    | Waking(seen: nat)    // running again, before the event is cleared
    | Cleared(seen: nat)   // about to read the revision and return it

  // Who is running on the loop thread between two yields.
  datatype Occupant = Nobody | AWaiter(w: WaiterId) | ANotifier

  /** `counted` are notifiers on other threads that have raised the revision and done no more;
      `scheduled` is the number of set callbacks queued on the loop; `sweeping` are notifiers on
      other threads that have set the event themselves and have yet to complete the sleepers. */
  datatype State = State(
    bound: bool,
    revision: nat,
    flag: bool,
    waiters: map<WaiterId, Waiter>,
    occupant: Occupant,
    counted: set<NotifierId>,
    scheduled: nat,
    sweeping: set<NotifierId>)

  datatype Step =
    | Enter(w: WaiterId, seen: nat)
    | Test(w: WaiterId)
    | Join(w: WaiterId)
    | Timeout(w: WaiterId)
    | Resume(w: WaiterId)
    | Clear(w: WaiterId)
    | Return(w: WaiterId)
    | Cancel(w: WaiterId)
    | Count(n: NotifierId)
    | Schedule(n: NotifierId)
    | Raise(n: NotifierId)
    | Sweep(n: NotifierId)
    | Callback
    | CountOnLoop
    | SetOnLoop

  function At(s: State, w: WaiterId): Waiter {
    if w in s.waiters then s.waiters[w] else Outside
  }

  function Moved(s: State, w: WaiterId, next: Waiter): State {
    s.(waiters := s.waiters[w := next])
  }

  // Completing the future of every sleeper there is.
  function Woken(s: State): State {
    s.(waiters := map w | w in s.waiters ::
         if s.waiters[w].Asleep? then Ready(s.waiters[w].seen) else s.waiters[w])
  }

  // Setting the event on the loop, in one piece; setting it twice does nothing.
  function Set(s: State): State {
    if s.flag then s else Woken(s).(flag := true)
  }

  function After(s: State, step: Step): State {
    match step
    case Enter(w, seen) =>
      // A stale caller returns at once; a current one goes on to await, still running.
      if s.occupant != Nobody || At(s, w) != Outside || s.revision != seen then s
      else Moved(s, w, Checked(seen)).(occupant := AWaiter(w))
    case Test(w) =>
      if !At(s, w).Checked? || s.occupant != AWaiter(w) then s
      else Moved(s, w, if s.flag then Waking(At(s, w).seen) else Joining(At(s, w).seen))
    case Join(w) =>
      if !At(s, w).Joining? || s.occupant != AWaiter(w) then s
      else Moved(s, w, Asleep(At(s, w).seen)).(occupant := Nobody)
    case Timeout(w) =>
      if !At(s, w).Asleep? || s.occupant != Nobody then s else Moved(s, w, Ready(At(s, w).seen))
    case Resume(w) =>
      if !At(s, w).Ready? || s.occupant != Nobody then s
      else Moved(s, w, Waking(At(s, w).seen)).(occupant := AWaiter(w))
    case Clear(w) =>
      if !At(s, w).Waking? || s.occupant != AWaiter(w) then s
      else Moved(s, w, Cleared(At(s, w).seen)).(flag := false)
    case Return(w) =>
      if !At(s, w).Cleared? || s.occupant != AWaiter(w) then s
      else Moved(s, w, Outside).(occupant := Nobody)
    case Cancel(w) =>
      if !(At(s, w).Asleep? || At(s, w).Ready?) || s.occupant != Nobody then s else Moved(s, w, Outside)
    case Count(n) =>
      if n in s.counted || n in s.sweeping then s else s.(revision := s.revision + 1, counted := s.counted + {n})
    case Schedule(n) =>
      if !s.bound || n !in s.counted then s else s.(counted := s.counted - {n}, scheduled := s.scheduled + 1)
    case Raise(n) =>
      if s.bound || n !in s.counted then s
      else if s.flag then s.(counted := s.counted - {n})
      else s.(counted := s.counted - {n}, flag := true, sweeping := s.sweeping + {n})
    case Sweep(n) =>
      if n !in s.sweeping then s else Woken(s).(sweeping := s.sweeping - {n})
    case Callback =>
      if s.scheduled == 0 || s.occupant != Nobody then s else Set(s).(scheduled := s.scheduled - 1)
    case CountOnLoop =>
      if s.occupant != Nobody then s else s.(revision := s.revision + 1, occupant := ANotifier)
    case SetOnLoop =>
      if s.occupant != ANotifier then s else Set(s).(occupant := Nobody)
  }

  // What a call of `wait` that ends with this step hands back.
  function Returned(s: State, step: Step): Option<nat> {
    match step
    case Enter(w, seen) =>
      if s.occupant == Nobody && At(s, w) == Outside && s.revision != seen then Some(s.revision) else None
    case Return(w) => if At(s, w).Cleared? && s.occupant == AWaiter(w) then Some(s.revision) else None
    case _ => None
  }

  // A set of the event is under way: counted, queued, or running on a thread.
  predicate SetPending(s: State) {
    s.counted != {} || s.scheduled > 0 || s.occupant == ANotifier || s.sweeping != {}
  }

  predicate Behind(waiter: Waiter, revision: nat) {
    (waiter.Asleep? || waiter.Checked? || waiter.Joining?) && waiter.seen != revision
  }

  predicate Running(waiter: Waiter) {
    waiter.Checked? || waiter.Joining? || waiter.Waking? || waiter.Cleared?
  }

  /** What holds as long as the event is set on the loop alone. */
  ghost predicate Inv(s: State) {
    && s.sweeping == {} && (!s.bound ==> s.counted == {})
    // Nobody sleeps on a set event, or is about to.
    && (forall w :: w in s.waiters && (s.waiters[w].Asleep? || s.waiters[w].Joining?) ==> !s.flag)
    // A waiter behind the revision, asleep or about to be, has a set coming.
    && (forall w :: w in s.waiters && Behind(s.waiters[w], s.revision) ==> SetPending(s))
    // Only the loop's occupant is between yields.
    && (forall w :: w in s.waiters && Running(s.waiters[w]) ==> s.occupant == AWaiter(w))
  }

  lemma {:induction false} StepKeeps(s: State, step: Step)
    requires Inv(s) && (step.Count? ==> s.bound)
    ensures Inv(After(s, step))
  {
  }

  function Run(s: State, steps: seq<Step>): State
    decreases |steps|
  {
    if steps == [] then s else Run(After(s, steps[0]), steps[1..])
  }

  function Initial(bound: bool): State {
    State(bound, 0, false, map[], Nobody, {}, 0, {})
  }

  /** How a channel is used: bound to the loop or not, with notifiers on other threads or not. */
  datatype Usage = Usage(bound: bool, offLoop: bool)

  // Bound to the loop, or notified on it alone.
  predicate OnLoop(usage: Usage) {
    usage.bound || !usage.offLoop
  }

  ghost predicate Fits(usage: Usage, steps: seq<Step>) {
    forall k :: 0 <= k < |steps| && steps[k].Count? ==> usage.offLoop
  }

  lemma {:induction false} RunKeeps(s: State, steps: seq<Step>)
    requires Inv(s) && (s.bound || Fits(Usage(false, false), steps))
    ensures Inv(Run(s, steps))
    decreases |steps|
  {
    if steps != [] {
      StepKeeps(s, steps[0]);
      RunKeeps(After(s, steps[0]), steps[1..]);
    }
  }

  // ----- no wakeup is lost

  /** Does this step carry out the counting of a notification? A notifier counts once for
      each notification, on its own thread or while it holds the loop. */
  predicate Notifies(s: State, step: Step) {
    match step
    case Count(n) => n !in s.counted && n !in s.sweeping
    case CountOnLoop => s.occupant == Nobody
    case _ => false
  }

  function Notifications(s: State, steps: seq<Step>): nat
    decreases |steps|
  {
    if steps == [] then 0
    else (if Notifies(s, steps[0]) then 1 else 0) + Notifications(After(s, steps[0]), steps[1..])
  }

  lemma {:induction false} RevisionCounts(s: State, steps: seq<Step>)
    ensures Run(s, steps).revision == s.revision + Notifications(s, steps)
    decreases |steps|
  {
    if steps != [] {
      RevisionCounts(After(s, steps[0]), steps[1..]);
    }
  }

  /** Every call of `wait` hands back the number of all notifications counted before it
      returned, however the channel is used. */
  lemma {:induction false} ReturnsCoverAll(bound: bool, steps: seq<Step>, last: Step)
    ensures var s := Run(Initial(bound), steps);
            Returned(s, last).Some? ==> Returned(s, last).value == Notifications(Initial(bound), steps)
  {
    RevisionCounts(Initial(bound), steps);
  }

  // Asleep, not told of every notification, and no set of the event on its way.
  predicate Lost(s: State, w: WaiterId) {
    At(s, w).Asleep? && At(s, w).seen != s.revision && !SetPending(s)
  }

  /** In every interleaving on a channel that is set on the loop alone, a sleeper that has
      not been told of every notification has a set coming. */
  lemma {:induction false} NoLostWakeup(usage: Usage, steps: seq<Step>, w: WaiterId)
    requires OnLoop(usage) && Fits(usage, steps)
    ensures var s := Run(Initial(usage.bound), steps);
            At(s, w).Asleep? && At(s, w).seen != Notifications(Initial(usage.bound), steps) ==> SetPending(s)
  {
    RunKeeps(Initial(usage.bound), steps);
    RevisionCounts(Initial(usage.bound), steps);
  }

  lemma {:induction false} RunTwo(s: State, first: Step, rest: seq<Step>)
    ensures Run(s, [first] + rest) == Run(After(s, first), rest)
  {
    assert ([first] + rest)[1..] == rest;
  }

  lemma {:induction false} RunNext(s: State, first: Step, rest: seq<Step>, next: State)
    requires After(s, first) == next
    ensures Run(s, [first] + rest) == Run(next, rest)
  {
    RunTwo(s, first, rest);
  }

  /** The run that loses one: between a waiter's test of the event and its joining the
      sleepers, another thread counts, sets the event and finds nobody to complete. */
  lemma {:induction false} UnboundLoses(w: WaiterId, n: NotifierId)
    ensures Lost(Run(Initial(false), [Enter(w, 0), Test(w), Count(n), Raise(n), Sweep(n), Join(w)]), w)
  {
    var s1 := Initial(false).(waiters := map[w := Checked(0)], occupant := AWaiter(w));
    var s2 := s1.(waiters := map[w := Joining(0)]);
    var s3 := s2.(revision := 1, counted := {n});
    var s4 := s3.(counted := {}, flag := true, sweeping := {n});
    var s5 := s4.(sweeping := {});
    var s6 := s5.(waiters := map[w := Asleep(0)], occupant := Nobody);
    assert After(s1, Test(w)) == s2 && After(s2, Count(n)) == s3;
    assert After(s3, Raise(n)) == s4 by { assert {n} - {n} == {}; }
    assert After(s4, Sweep(n)) == s5 by { assert Woken(s4).waiters == s4.waiters; }
    assert After(s5, Join(w)) == s6;
    RunNext(s5, Join(w), [], s6);
    RunNext(s4, Sweep(n), [Join(w)], s5);
    RunNext(s3, Raise(n), [Sweep(n), Join(w)], s4);
    RunNext(s2, Count(n), [Raise(n), Sweep(n), Join(w)], s3);
    RunNext(s1, Test(w), [Count(n), Raise(n), Sweep(n), Join(w)], s2);
    RunNext(Initial(false), Enter(w, 0), [Test(w), Count(n), Raise(n), Sweep(n), Join(w)], s1);
  }

  ghost predicate LosesNone(usage: Usage) {
    forall steps, w :: Fits(usage, steps) ==> !Lost(Run(Initial(usage.bound), steps), w)
  }

  /** No run loses a wakeup if and only if the channel is bound to the loop or every notifier
      is on it. */
  lemma {:induction false} LosesNoneIffOnLoop(usage: Usage)
    ensures LosesNone(usage) <==> OnLoop(usage)
  {
    if OnLoop(usage) {
      forall steps, w | Fits(usage, steps)
        ensures !Lost(Run(Initial(usage.bound), steps), w)
      {
        NoLostWakeup(usage, steps, w);
        RevisionCounts(Initial(usage.bound), steps);
      }
    } else {
      var steps := [Enter(0, 0), Test(0), Count(0), Raise(0), Sweep(0), Join(0)];
      UnboundLoses(0, 0);
      assert Fits(usage, steps);
    }
  }

  // Steps that neither notify, nor time out, nor start or cancel a wait.
  predicate Delivers(step: Step) {
    step.Test? || step.Join? || step.Clear? || step.Return? || step.Schedule? || step.Callback? || step.SetOnLoop?
  }

  // The waiter that holds the loop can always run to its next yield, and clears no set it owes.
  lemma {:induction false} LoopFrees(s: State, holder: WaiterId) returns (steps: seq<Step>)
    requires s.occupant == AWaiter(holder) && Running(At(s, holder))
    ensures forall k :: 0 <= k < |steps| ==> Delivers(steps[k])
    ensures var s' := Run(s, steps);
            && s'.occupant == Nobody && s'.scheduled == s.scheduled && s'.counted == s.counted
            && s'.revision == s.revision && s'.bound == s.bound && s'.sweeping == s.sweeping
            && forall w :: w != holder ==> At(s', w) == At(s, w)
  {
    match At(s, holder)
    case Cleared(_) =>
      steps := [Return(holder)];
      RunTwo(s, Return(holder), []);
    case Waking(_) =>
      steps := [Clear(holder), Return(holder)];
      RunTwo(s, Clear(holder), [Return(holder)]);
      RunTwo(After(s, Clear(holder)), Return(holder), []);
    case Checked(_) =>
      var s1 := After(s, Test(holder));
      if s.flag {
        steps := [Test(holder), Clear(holder), Return(holder)];
        RunTwo(s, Test(holder), [Clear(holder), Return(holder)]);
        RunTwo(s1, Clear(holder), [Return(holder)]);
        RunTwo(After(s1, Clear(holder)), Return(holder), []);
      } else {
        steps := [Test(holder), Join(holder)];
        RunTwo(s, Test(holder), [Join(holder)]);
        RunTwo(s1, Join(holder), []);
      }
    case Joining(_) =>
      steps := [Join(holder)];
      RunTwo(s, Join(holder), []);
    case _ =>
  }

  lemma {:induction false} RunConcat(s: State, a: seq<Step>, b: seq<Step>)
    ensures Run(s, a + b) == Run(Run(s, a), b)
    decreases |a|
  {
    if a == [] {
      assert a + b == b;
    } else {
      assert (a + b)[1..] == a[1..] + b;
      RunConcat(After(s, a[0]), a[1..], b);
    }
  }

  // Between yields the loop is held by a notifier or by a waiter that is running.
  ghost predicate Held(s: State) {
    s.occupant.AWaiter? ==> Running(At(s, s.occupant.w))
  }

  lemma {:induction false} HeldKeeps(s: State, step: Step)
    requires Held(s)
    ensures Held(After(s, step))
  {
  }

  lemma {:induction false} RunHeld(s: State, steps: seq<Step>)
    requires Inv(s) && Held(s) && (s.bound || Fits(Usage(false, false), steps))
    ensures Inv(Run(s, steps)) && Held(Run(s, steps))
    decreases |steps|
  {
    if steps != [] {
      StepKeeps(s, steps[0]);
      HeldKeeps(s, steps[0]);
      RunHeld(After(s, steps[0]), steps[1..]);
    }
  }

  // With the loop free, the set that is coming is at most two steps away.
  lemma {:induction false} PendingWakes(s: State, w: WaiterId) returns (steps: seq<Step>)
    requires Inv(s) && s.occupant == Nobody && SetPending(s) && At(s, w).Asleep?
    ensures forall k :: 0 <= k < |steps| ==> Delivers(steps[k])
    ensures At(Run(s, steps), w) == Ready(At(s, w).seen)
  {
    if s.scheduled > 0 {
      steps := [Callback];
      RunTwo(s, Callback, []);
    } else {
      var n :| n in s.counted;
      var s1 := After(s, Schedule(n));
      steps := [Schedule(n)] + [Callback];
      RunTwo(s, Schedule(n), [Callback]);
      RunTwo(s1, Callback, []);
      assert At(s1, w) == At(s, w) && !s1.flag;
    }
  }

  /** The set that is coming wakes the sleeper: from every reachable state in which a
      sleeper is behind, steps of the threads already under way make it ready, without a
      further notification, a timeout or a new call. */
  lemma {:induction false} SleeperWakes(s: State, w: WaiterId) returns (steps: seq<Step>)
    requires Inv(s) && Held(s) && At(s, w).Asleep? && At(s, w).seen != s.revision
    ensures forall k :: 0 <= k < |steps| ==> Delivers(steps[k])
    ensures At(Run(s, steps), w) == Ready(At(s, w).seen)
  {
    if s.occupant == ANotifier {
      steps := [SetOnLoop];
      RunTwo(s, SetOnLoop, []);
    } else {
      var free: seq<Step> := [];
      if s.occupant.AWaiter? {
        free := LoopFrees(s, s.occupant.w);
      }
      RunKeeps(s, free);
      var tail := PendingWakes(Run(s, free), w);
      RunConcat(s, free, tail);
      steps := free + tail;
    }
  }

  /** The same from the start of the process, after any run of a channel set on the loop. */
  lemma {:induction false} EverySleeperWakes(usage: Usage, past: seq<Step>, w: WaiterId) returns (steps: seq<Step>)
    requires OnLoop(usage) && Fits(usage, past)
    requires var s := Run(Initial(usage.bound), past);
             At(s, w).Asleep? && At(s, w).seen != Notifications(Initial(usage.bound), past)
    ensures forall k :: 0 <= k < |steps| ==> Delivers(steps[k])
    ensures At(Run(Initial(usage.bound), past + steps), w).Ready?
  {
    var start := Initial(usage.bound);
    RunHeld(start, past);
    RevisionCounts(start, past);
    steps := SleeperWakes(Run(start, past), w);
    RunConcat(start, past, steps);
  }
}
