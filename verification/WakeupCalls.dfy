/** The calls of `wait`: when one sleeps, what ends its sleep, and that every call can end. */
module WakeupCalls {
  import opened Common
  import opened WakeupChannel

  // ----- the event

  // Does this step set the event?
  predicate Sets(s: State, step: Step) {
    match step
    case Callback => s.scheduled > 0 && s.occupant == Nobody
    case SetOnLoop => s.occupant == ANotifier
    case Raise(n) => !s.bound && n in s.counted
    case _ => false
  }

  // Does this step clear it?
  predicate Clears(s: State, step: Step) {
    step.Clear? && At(s, step.w).Waking? && s.occupant == AWaiter(step.w)
  }

  ghost predicate NoClear(s: State, steps: seq<Step>, from: nat) {
    forall j :: from <= j < |steps| ==> !Clears(Run(s, steps[..j]), steps[j])
  }

  /** Somewhere in the run the event was set, and not cleared since. */
  ghost predicate SetSinceClear(s: State, steps: seq<Step>) {
    exists k :: 0 <= k < |steps| && Sets(Run(s, steps[..k]), steps[k]) && NoClear(s, steps, k + 1)
  }

  lemma {:induction false} RunSnoc(s: State, steps: seq<Step>, last: Step)
    ensures Run(s, steps + [last]) == After(Run(s, steps), last)
  {
    RunConcat(s, steps, [last]);
    assert [last][1..] == [];
  }

  // One more step at the end of a run.
  lemma {:induction false} SetSinceClearSnoc(s: State, steps: seq<Step>, last: Step)
    ensures SetSinceClear(s, steps + [last]) <==>
      Sets(Run(s, steps), last) || (SetSinceClear(s, steps) && !Clears(Run(s, steps), last))
  {
    var all, n := steps + [last], |steps|;
    assert all[..n] == steps;
    assert forall k :: 0 <= k < n ==> all[..k] == steps[..k];
    if SetSinceClear(s, all) {
      var k :| 0 <= k < |all| && Sets(Run(s, all[..k]), all[k]) && NoClear(s, all, k + 1);
      if k < n {
        assert !Clears(Run(s, all[..n]), all[n]);
        assert Sets(Run(s, steps[..k]), steps[k]) && NoClear(s, steps, k + 1);
      }
    }
    if Sets(Run(s, steps), last) {
      assert Sets(Run(s, all[..n]), all[n]) && NoClear(s, all, n + 1);
    }
    if SetSinceClear(s, steps) && !Clears(Run(s, steps), last) {
      var k :| 0 <= k < n && Sets(Run(s, steps[..k]), steps[k]) && NoClear(s, steps, k + 1);
      assert Sets(Run(s, all[..k]), all[k]) && NoClear(s, all, k + 1);
    }
  }

  /** The event is set exactly if it was set after the last time it was cleared. */
  lemma {:induction false} EventIsSet(bound: bool, steps: seq<Step>)
    ensures Run(Initial(bound), steps).flag <==> SetSinceClear(Initial(bound), steps)
    decreases |steps|
  {
    if steps != [] {
      var n := |steps| - 1;
      assert steps == steps[..n] + [steps[n]];
      EventIsSet(bound, steps[..n]);
      SetSinceClearSnoc(Initial(bound), steps[..n], steps[n]);
      RunSnoc(Initial(bound), steps[..n], steps[n]);
    }
  }

  // ----- one set for each notification

  function Total(of: (State, Step) -> bool, s: State, steps: seq<Step>): nat
    decreases |steps|
  {
    if steps == [] then 0 else (if of(s, steps[0]) then 1 else 0) + Total(of, After(s, steps[0]), steps[1..])
  }

  // A notifier on another thread raises the revision.
  predicate CountsOffLoop(s: State, step: Step) {
    step.Count? && step.n !in s.counted && step.n !in s.sweeping
  }

  // The set that a notifier on another thread owes is carried out.
  predicate SetsForThread(s: State, step: Step) {
    Sets(s, step) && !step.SetOnLoop?
  }

  predicate RaisesClear(s: State, step: Step) {
    Sets(s, step) && step.Raise? && !s.flag
  }

  predicate Sweeps(s: State, step: Step) {
    step.Sweep? && step.n in s.sweeping
  }

  lemma {:induction false} OwedStep(s: State, step: Step)
    ensures var s' := After(s, step);
      |s.counted| + s.scheduled + (if CountsOffLoop(s, step) then 1 else 0) ==
      |s'.counted| + s'.scheduled + (if SetsForThread(s, step) then 1 else 0)
  {
    match step
    case Count(n) => assert CountsOffLoop(s, step) ==> |s.counted + {n}| == |s.counted| + 1;
    case Schedule(n) => assert n in s.counted ==> |s.counted - {n}| == |s.counted| - 1;
    case Raise(n) => assert n in s.counted ==> |s.counted - {n}| == |s.counted| - 1;
    case _ =>
  }

  lemma {:induction false} OwedKeeps(s: State, steps: seq<Step>)
    ensures var s' := Run(s, steps);
      |s.counted| + s.scheduled + Total(CountsOffLoop, s, steps) ==
      |s'.counted| + s'.scheduled + Total(SetsForThread, s, steps)
    decreases |steps|
  {
    if steps != [] {
      OwedStep(s, steps[0]);
      OwedKeeps(After(s, steps[0]), steps[1..]);
    }
  }

  lemma {:induction false} SweepStep(s: State, step: Step)
    requires s.counted !! s.sweeping
    ensures var s' := After(s, step);
      && s'.counted !! s'.sweeping
      && |s.sweeping| + (if RaisesClear(s, step) then 1 else 0) ==
         |s'.sweeping| + (if Sweeps(s, step) then 1 else 0)
  {
    match step
    case Raise(n) => assert n in s.counted ==> |s.sweeping + {n}| == |s.sweeping| + 1;
    case Sweep(n) => assert n in s.sweeping ==> |s.sweeping - {n}| == |s.sweeping| - 1;
    case _ =>
  }

  lemma {:induction false} SweepsKeep(s: State, steps: seq<Step>)
    requires s.counted !! s.sweeping
    ensures var s' := Run(s, steps);
      |s.sweeping| + Total(RaisesClear, s, steps) == |s'.sweeping| + Total(Sweeps, s, steps)
    decreases |steps|
  {
    if steps != [] {
      SweepStep(s, steps[0]);
      SweepsKeep(After(s, steps[0]), steps[1..]);
    }
  }

  /** Over every run: each notification on another thread has its one set of the event, carried out
      or still owed, and each such set of a clear event that is carried out there has its one
      sweep of the sleepers. */
  lemma {:induction false} EveryNotificationSets(bound: bool, steps: seq<Step>)
    ensures var start := Initial(bound);
      var s := Run(start, steps);
      && Total(CountsOffLoop, start, steps) == |s.counted| + s.scheduled + Total(SetsForThread, start, steps)
      && Total(RaisesClear, start, steps) == |s.sweeping| + Total(Sweeps, start, steps)
  {
    OwedKeeps(Initial(bound), steps);
    SweepsKeep(Initial(bound), steps);
  }

  // ----- sleeping

  // Does this step wake every sleeper?
  predicate WakesAll(s: State, step: Step) {
    match step
    case Callback => s.scheduled > 0 && s.occupant == Nobody
    case SetOnLoop => s.occupant == ANotifier
    case Sweep(n) => n in s.sweeping
    case _ => false
  }

  /** A sleeper stays asleep until a set of the event, its timeout or a cancel. */
  lemma {:induction false} OnlySetsWake(s: State, w: WaiterId, step: Step)
    requires At(s, w).Asleep?
    ensures At(After(s, step), w) == At(s, w) || step == Timeout(w) || step == Cancel(w) || WakesAll(s, step)
  {
  }

  // No set of the event, and neither a timeout nor a cancel of this call.
  ghost predicate Undisturbed(s: State, w: WaiterId, steps: seq<Step>)
    decreases |steps|
  {
    steps == [] ||
    (!Sets(s, steps[0]) && !WakesAll(s, steps[0]) && steps[0] != Timeout(w) && steps[0] != Cancel(w)
     && Undisturbed(After(s, steps[0]), w, steps[1..]))
  }

  // On its way to sleep, with the event clear.
  predicate FallsAsleep(s: State, w: WaiterId, seen: nat) {
    && !s.flag
    && (At(s, w) == Asleep(seen)
        || ((At(s, w) == Checked(seen) || At(s, w) == Joining(seen)) && s.occupant == AWaiter(w)))
  }

  // The call tests the event, and later joins the sleepers.
  predicate TestsAndJoins(steps: seq<Step>, w: WaiterId) {
    steps != [] && ((steps[0] == Test(w) && Join(w) in steps[1..]) || TestsAndJoins(steps[1..], w))
  }

  lemma {:induction false} JoinsAfterTest(steps: seq<Step>, w: WaiterId)
    requires TestsAndJoins(steps, w)
    ensures Join(w) in steps
  {
    if !(steps[0] == Test(w) && Join(w) in steps[1..]) {
      JoinsAfterTest(steps[1..], w);
    }
  }

  lemma {:induction false} StaysAsleep(s: State, w: WaiterId, seen: nat, steps: seq<Step>)
    requires FallsAsleep(s, w, seen) && Undisturbed(s, w, steps)
    ensures FallsAsleep(Run(s, steps), w, seen)
    ensures At(s, w).Asleep? || (At(s, w).Joining? && Join(w) in steps) || TestsAndJoins(steps, w) ==>
      At(Run(s, steps), w) == Asleep(seen)
    decreases |steps|
  {
    if steps != [] {
      StaysAsleep(After(s, steps[0]), w, seen, steps[1..]);
      if TestsAndJoins(steps, w) && steps[0] == Test(w) && Join(w) !in steps[1..] {
        JoinsAfterTest(steps[1..], w);
      }
    }
  }

  /** Over every run: a call that enters with the current revision, while the event has not been
      set since it was last cleared, does not return: it joins the sleepers, and sleeps on until the
      event is set, its time is up or it is cancelled. */
  lemma {:induction false} CallSleeps(bound: bool, past: seq<Step>, w: WaiterId, later: seq<Step>)
    requires var s := Run(Initial(bound), past);
      && s.occupant == Nobody && At(s, w) == Outside && !SetSinceClear(Initial(bound), past)
      && Undisturbed(After(s, Enter(w, s.revision)), w, later)
    ensures var s := Run(Initial(bound), past);
      && Returned(s, Enter(w, s.revision)).None?
      && FallsAsleep(Run(s, [Enter(w, s.revision)] + later), w, s.revision)
      && (TestsAndJoins(later, w) ==> At(Run(s, [Enter(w, s.revision)] + later), w) == Asleep(s.revision))
  {
    var s := Run(Initial(bound), past);
    EventIsSet(bound, past);
    RunTwo(s, Enter(w, s.revision), later);
    StaysAsleep(After(s, Enter(w, s.revision)), w, s.revision, later);
  }

  /** A call with an old revision returns the current one at once, and one with the current revision
      does not. */
  lemma {:induction false} StaleReturns(s: State, w: WaiterId, seen: nat)
    requires s.occupant == Nobody && At(s, w) == Outside
    ensures s.revision != seen ==> Returned(s, Enter(w, seen)) == Some(s.revision) && After(s, Enter(w, seen)) == s
    ensures s.revision == seen ==> Returned(s, Enter(w, seen)).None? && At(After(s, Enter(w, seen)), w).Checked?
  {
  }

  // A step hands back a revision only as it ends a call.
  lemma {:induction false} OnlyEndsReturn(s: State, step: Step)
    ensures Returned(s, step).Some? <==>
      || (step.Enter? && s.occupant == Nobody && At(s, step.w) == Outside && step.seen != s.revision)
      || (step.Return? && At(s, step.w).Cleared? && At(After(s, step), step.w) == Outside)
  {
  }

  // Neither a clear, nor a sweep under way, nor a timeout or cancel of this call.
  ghost predicate LeftAlone(s: State, w: WaiterId, steps: seq<Step>)
    decreases |steps|
  {
    steps == [] ||
    (!Clears(s, steps[0]) && steps[0] != Timeout(w) && steps[0] != Cancel(w)
     && LeftAlone(After(s, steps[0]), w, steps[1..]))
  }

  /** A sleeper that has missed a set sleeps on: no further notification wakes it while the event
      stays set, however many there are. */
  lemma {:induction false} LostSleepsOn(s: State, w: WaiterId, steps: seq<Step>)
    requires At(s, w).Asleep? && s.flag && s.sweeping == {} && LeftAlone(s, w, steps)
    ensures At(Run(s, steps), w) == At(s, w) && Run(s, steps).flag
    decreases |steps|
  {
    if steps != [] {
      LostSleepsOn(After(s, steps[0]), w, steps[1..]);
    }
  }

  // ----- every call can end

  ghost predicate RunnersHold(s: State) {
    forall w :: w in s.waiters && Running(s.waiters[w]) ==> s.occupant == AWaiter(w)
  }

  // Who runs holds the loop, and a waiter that holds it runs.
  ghost predicate OneRuns(s: State) {
    Held(s) && RunnersHold(s)
  }

  lemma {:induction false} RunnersStillHold(s: State, step: Step)
    requires RunnersHold(s)
    ensures RunnersHold(After(s, step))
  {
  }

  lemma {:induction false} OneRunsKeeps(s: State, steps: seq<Step>)
    requires OneRuns(s)
    ensures OneRuns(Run(s, steps))
    decreases |steps|
  {
    if steps != [] {
      HeldKeeps(s, steps[0]);
      RunnersStillHold(s, steps[0]);
      OneRunsKeeps(After(s, steps[0]), steps[1..]);
    }
  }

  // With the loop free, a call that is ready runs to its return, and clears the event.
  lemma {:induction false} ReadyReturns(s: State, w: WaiterId)
    requires s.occupant == Nobody && At(s, w).Ready?
    ensures var last := Run(s, [Resume(w), Clear(w)]);
      && Returned(last, Return(w)) == Some(s.revision) && !last.flag
      && At(After(last, Return(w)), w) == Outside
  {
    RunTwo(s, Resume(w), [Clear(w)]);
    RunTwo(After(s, Resume(w)), Clear(w), []);
  }

  // Steps of the loop, or the end of this call's time.
  predicate OfLoop(step: Step, w: WaiterId) {
    Delivers(step) || step == Timeout(w) || step == Resume(w)
  }

  lemma {:induction false} FreeThenEnds(s: State, w: WaiterId) returns (steps: seq<Step>)
    requires s.occupant == Nobody && OneRuns(s)
    ensures forall k :: 0 <= k < |steps| ==> OfLoop(steps[k], w)
    ensures At(Run(s, steps), w) == Outside
  {
    var tail := [Resume(w), Clear(w)] + [Return(w)];
    if At(s, w).Ready? {
      steps := tail;
      ReadyReturns(s, w);
      RunConcat(s, [Resume(w), Clear(w)], [Return(w)]);
    } else if At(s, w).Asleep? {
      var ready := After(s, Timeout(w));
      steps := [Timeout(w)] + tail;
      RunTwo(s, Timeout(w), tail);
      ReadyReturns(ready, w);
      RunConcat(ready, [Resume(w), Clear(w)], [Return(w)]);
    } else {
      steps := [];
    }
  }

  /** After every run every call can end, by steps of the loop and its own timeout. */
  lemma {:induction false} EveryCallCanEnd(bound: bool, past: seq<Step>, w: WaiterId) returns (steps: seq<Step>)
    ensures forall k :: 0 <= k < |steps| ==> OfLoop(steps[k], w)
    ensures At(Run(Run(Initial(bound), past), steps), w) == Outside
  {
    var s := Run(Initial(bound), past);
    OneRunsKeeps(Initial(bound), past);
    var free: seq<Step> := [];
    if s.occupant == ANotifier {
      free := [SetOnLoop];
      RunTwo(s, SetOnLoop, []);
    } else if s.occupant.AWaiter? {
      free := LoopFrees(s, s.occupant.w);
    }
    OneRunsKeeps(s, free);
    var tail := FreeThenEnds(Run(s, free), w);
    RunConcat(s, free, tail);
    steps := free + tail;
  }

  /** A call can be cancelled while it sleeps or is ready and the loop is free, and then ends at
      once; the event stays as it is. */
  lemma {:induction false} CancelEnds(s: State, w: WaiterId)
    ensures var cancelled := s.occupant == Nobody && (At(s, w).Asleep? || At(s, w).Ready?);
      After(s, Cancel(w)) == if cancelled then Moved(s, w, Outside) else s
  {
  }
}
