/** Web Push delivery: the cursor of one subscription over the notifications of its owner. */
module PushDelivery {

  // ----- notifications and answers

  /** Notifications are ordered by their creation time and then by their id. */
  datatype Key = Key(at: int, id: int)

  predicate Before(a: Key, b: Key) {
    a.at < b.at || (a.at == b.at && a.id < b.id)
  }

  datatype Outcome =
    | Response(status: nat)
    | BadRow      // a ValueError or KeyError while the message is built
    | Transport   // no response: an error of the HTTP client
    | Uncaught    // any other exception: it leaves the pass

  datatype Verdict = Delivered | Rejected | Retry | Gone | Aborted

  function Judge(outcome: Outcome): Verdict {
    match outcome
    case Response(status) =>
      if status == 404 || status == 410 then Gone
      else if 200 <= status < 300 then Delivered
      else if 400 <= status < 500 && status != 408 && status != 429 then Rejected
      else Retry
    case BadRow => Rejected
    case Transport => Retry
    case Uncaught => Aborted
  }

  predicate Settles(outcome: Outcome) {
    Judge(outcome).Delivered? || Judge(outcome).Rejected?
  }

  datatype Post = Post(key: Key, outcome: Outcome)

  const BATCH: nat := 20

  // ----- one subscription

  /** `table` holds the owner's notifications, `late` those that were stored at or below the
      cursor, and `posts` everything tried so far. */
  datatype State = State(cursor: Key, alive: bool, aborted: bool, table: set<Key>, late: set<Key>, posts: seq<Post>)

  ghost predicate Ascending(tries: seq<Post>) {
    forall j, k :: 0 <= j < k < |tries| ==> Before(tries[j].key, tries[k].key)
  }

  ghost predicate Holds(tries: seq<Post>, key: Key) {
    exists k :: 0 <= k < |tries| && tries[k].key == key
  }

  // The first `n` notifications above the cursor, or all of them.
  ghost predicate AreFirst(table: set<Key>, cursor: Key, tries: seq<Post>, n: nat) {
    && |tries| <= n
    && Ascending(tries)
    && (forall k :: 0 <= k < |tries| ==> tries[k].key in table && Before(cursor, tries[k].key))
    && (forall key :: key in table && Before(cursor, key) && !Holds(tries, key) ==>
          |tries| == n && (n > 0 ==> Before(tries[n - 1].key, key)))
  }

  /** What the query returns, with what each post will come to: the first twenty notifications
      above the cursor, in order. */
  ghost predicate IsBatch(table: set<Key>, cursor: Key, tries: seq<Post>) {
    AreFirst(table, cursor, tries, BATCH)
  }

  lemma {:induction false} LeastAbove(table: set<Key>, cursor: Key) returns (least: Key)
    requires exists key :: key in table && Before(cursor, key)
    ensures least in table && Before(cursor, least)
    ensures forall key :: key in table && Before(cursor, key) ==> key == least || Before(least, key)
    decreases |table|
  {
    least :| least in table && Before(cursor, least);
    if other :| other in table && Before(cursor, other) && other != least && !Before(least, other) {
      least := LeastAbove(table - {least}, cursor);
    }
  }

  lemma {:induction false} HoldsBehind(first: Post, rest: seq<Post>, key: Key)
    ensures Holds(rest, key) ==> Holds([first] + rest, key)
  {
    if Holds(rest, key) {
      var k :| 0 <= k < |rest| && rest[k].key == key;
      assert ([first] + rest)[k + 1].key == key;
    }
  }

  lemma {:induction false} FirstExist(table: set<Key>, cursor: Key, n: nat, outcome: Outcome) returns (tries: seq<Post>)
    ensures AreFirst(table, cursor, tries, n)
    decreases n
  {
    if n == 0 || !exists key :: key in table && Before(cursor, key) {
      tries := [];
    } else {
      var least := LeastAbove(table, cursor);
      var rest := FirstExist(table, least, n - 1, outcome);
      tries := [Post(least, outcome)] + rest;
      forall key | key in table && Before(cursor, key) && !Holds(tries, key)
        ensures |tries| == n && Before(tries[n - 1].key, key)
      {
        assert tries[0].key == least;
        HoldsBehind(Post(least, outcome), rest, key);
        if n > 1 {
          assert tries[n - 1] == rest[n - 2];
        }
      }
    }
  }

  datatype Event = Arrive(key: Key) | Pass(tries: seq<Post>, commits: bool)

  ghost predicate Legal(s: State, e: Event) {
    match e
    case Arrive(key) => key !in s.table
    case Pass(tries, _) => s.alive && IsBatch(s.table, s.cursor, tries)
  }

  /** The query always has an answer: a pass is possible in every state of a live subscription. */
  lemma {:induction false} PassPossible(s: State)
    requires s.alive
    ensures exists tries :: Legal(s, Pass(tries, true))
  {
    var tries := FirstExist(s.table, s.cursor, BATCH, Transport);
    assert Legal(s, Pass(tries, true));
  }

  /** How many of the posts from `k` on settle their notification before one stops the pass. */
  function SettledFrom(tries: seq<Post>, k: nat): (n: nat)
    requires k <= |tries|
    ensures k <= n <= |tries|
    ensures forall j :: k <= j < n ==> Settles(tries[j].outcome)
    ensures n < |tries| ==> !Settles(tries[n].outcome)
    decreases |tries| - k
  {
    if k < |tries| && Settles(tries[k].outcome) then SettledFrom(tries, k + 1) else k
  }

  /** The posts that a pass makes: up to the first that does not settle its notification. */
  function Tried(tries: seq<Post>): seq<Post> {
    var n := SettledFrom(tries, 0);
    if n < |tries| then tries[..n + 1] else tries
  }

  /** The state after a pass, whose commit may fail. */
  function AfterPass(s: State, tries: seq<Post>, commits: bool): State {
    var n := SettledFrom(tries, 0);
    var posted := s.(posts := s.posts + Tried(tries));
    if n < |tries| && Judge(tries[n].outcome).Aborted? then posted.(aborted := true)
    else if n < |tries| && Judge(tries[n].outcome).Gone? then
      if commits then posted.(alive := false) else posted.(aborted := true)
    else if n == 0 then posted
    else if commits then posted.(cursor := tries[n - 1].key) else posted.(aborted := true)
  }

  function After(s: State, e: Event): State {
    match e
    case Arrive(key) =>
      s.(table := s.table + {key}, late := if Before(s.cursor, key) then s.late else s.late + {key})
    case Pass(tries, commits) => AfterPass(s, tries, commits)
  }

  // ----- the invariant

  ghost predicate SettledPost(posts: seq<Post>, i: int, key: Key) {
    0 <= i < |posts| && posts[i].key == key && Settles(posts[i].outcome)
  }

  ghost predicate SettledForGood(posts: seq<Post>, i: int, key: Key) {
    SettledPost(posts, i, key) && forall j :: i < j < |posts| && posts[j].key == key ==> Settles(posts[j].outcome)
  }

  ghost predicate LateAreBelow(s: State) {
    forall key :: key in s.late ==> key in s.table && !Before(s.cursor, key)
  }

  ghost predicate OnlyTimelySent(s: State) {
    forall i :: 0 <= i < |s.posts| ==> s.posts[i].key in s.table && s.posts[i].key !in s.late
  }

  /** The cursor has passed nothing that was not delivered or permanently rejected. */
  ghost predicate PassedAreSettled(s: State) {
    forall key :: key in s.table && key !in s.late && !Before(s.cursor, key) ==>
      exists i :: SettledPost(s.posts, i, key)
  }

  /** A failure that the cursor has passed was followed by another try, which settled it. */
  ghost predicate FailuresRetried(s: State) {
    forall i :: 0 <= i < |s.posts| && !Settles(s.posts[i].outcome) && !Before(s.cursor, s.posts[i].key) ==>
      exists j :: i < j && SettledPost(s.posts, j, s.posts[i].key)
  }

  ghost predicate SettledArePassed(s: State) {
    forall i :: 0 <= i < |s.posts| && Settles(s.posts[i].outcome) ==> !Before(s.cursor, s.posts[i].key)
  }

  /** After a settled notification only later ones are tried. */
  ghost predicate InOrder(posts: seq<Post>) {
    forall i, j :: 0 <= i < j < |posts| && Settles(posts[i].outcome) ==> Before(posts[i].key, posts[j].key)
  }

  ghost predicate Good(s: State) {
    && LateAreBelow(s)
    && OnlyTimelySent(s)
    && PassedAreSettled(s)
    && FailuresRetried(s)
    && (s.alive && !s.aborted ==> SettledArePassed(s))
    && (!s.aborted ==> InOrder(s.posts))
  }

  lemma {:induction false} ArrivalKeeps(s: State, key: Key)
    requires Good(s) && key !in s.table
    ensures Good(After(s, Arrive(key)))
  {
    var t := After(s, Arrive(key));
    assert PassedAreSettled(t) by {
      forall other | other in t.table && other !in t.late && !Before(t.cursor, other)
        ensures exists i :: SettledPost(t.posts, i, other)
      {
        assert other in s.table && other !in s.late;
      }
    }
  }

  // A notification between the cursors before and after a pass settled in that pass.
  lemma {:induction false} BetweenCursors(s: State, tries: seq<Post>, commits: bool, key: Key)
    requires Legal(s, Pass(tries, commits))
    requires key in s.table && Before(s.cursor, key) && !Before(AfterPass(s, tries, commits).cursor, key)
    ensures exists i :: |s.posts| <= i && SettledPost(AfterPass(s, tries, commits).posts, i, key)
  {
    var t := AfterPass(s, tries, commits);
    assert Holds(tries, key);
    var k :| 0 <= k < |tries| && tries[k].key == key;
    assert k < SettledFrom(tries, 0);
    assert t.posts[|s.posts| + k] == tries[k];
    assert SettledPost(t.posts, |s.posts| + k, key);
  }

  lemma {:induction false} TriedInOrder(s: State, tries: seq<Post>)
    requires InOrder(s.posts) && SettledArePassed(s) && IsBatch(s.table, s.cursor, tries)
    ensures InOrder(s.posts + Tried(tries))
  {
    var posts := s.posts + Tried(tries);
    forall i, j | 0 <= i < j < |posts| && Settles(posts[i].outcome)
      ensures Before(posts[i].key, posts[j].key)
    {
      if j >= |s.posts| {
        assert posts[j] == tries[j - |s.posts|];
        if i >= |s.posts| {
          assert posts[i] == tries[i - |s.posts|];
        }
      }
    }
  }

  lemma {:induction false} PassKeepsPassed(s: State, tries: seq<Post>, commits: bool)
    requires Good(s) && Legal(s, Pass(tries, commits))
    ensures var t := AfterPass(s, tries, commits); t.alive && !t.aborted ==> SettledArePassed(t)
  {
    var t := AfterPass(s, tries, commits);
    if t.alive && !t.aborted {
      forall i | 0 <= i < |t.posts| && Settles(t.posts[i].outcome)
        ensures !Before(t.cursor, t.posts[i].key)
      {
        if i >= |s.posts| {
          assert t.posts[i] == tries[i - |s.posts|];
        }
      }
    }
  }

  lemma {:induction false} PassKeepsSettled(s: State, tries: seq<Post>, commits: bool)
    requires Good(s) && Legal(s, Pass(tries, commits))
    ensures PassedAreSettled(AfterPass(s, tries, commits))
  {
    var t := AfterPass(s, tries, commits);
    forall key | key in t.table && key !in t.late && !Before(t.cursor, key)
      ensures exists i :: SettledPost(t.posts, i, key)
    {
      if Before(s.cursor, key) {
        BetweenCursors(s, tries, commits, key);
      } else {
        var i :| SettledPost(s.posts, i, key);
        assert SettledPost(t.posts, i, key);
      }
    }
  }

  lemma {:induction false} PassKeepsRetried(s: State, tries: seq<Post>, commits: bool)
    requires Good(s) && Legal(s, Pass(tries, commits))
    ensures FailuresRetried(AfterPass(s, tries, commits))
  {
    var t := AfterPass(s, tries, commits);
    forall i | |s.posts| <= i < |t.posts|
      ensures Settles(t.posts[i].outcome) || Before(t.cursor, t.posts[i].key)
    {
      assert t.posts[i] == tries[i - |s.posts|];
    }
    forall i | 0 <= i < |t.posts| && !Settles(t.posts[i].outcome) && !Before(t.cursor, t.posts[i].key)
      ensures exists j :: i < j && SettledPost(t.posts, j, t.posts[i].key)
    {
      if Before(s.cursor, t.posts[i].key) {
        BetweenCursors(s, tries, commits, t.posts[i].key);
      } else {
        var j :| i < j && SettledPost(s.posts, j, s.posts[i].key);
        assert SettledPost(t.posts, j, t.posts[i].key);
      }
    }
  }

  lemma {:induction false} PassKeepsTimely(s: State, tries: seq<Post>, commits: bool)
    requires Good(s) && Legal(s, Pass(tries, commits))
    ensures OnlyTimelySent(AfterPass(s, tries, commits)) && LateAreBelow(AfterPass(s, tries, commits))
    ensures !Before(AfterPass(s, tries, commits).cursor, s.cursor)
  {
    var t := AfterPass(s, tries, commits);
    forall i | 0 <= i < |t.posts|
      ensures t.posts[i].key in t.table && t.posts[i].key !in t.late
    {
      if i >= |s.posts| {
        assert t.posts[i] == tries[i - |s.posts|];
      }
    }
  }

  lemma {:induction false} StepKeeps(s: State, e: Event)
    requires Good(s) && Legal(s, e)
    ensures Good(After(s, e))
    ensures !Before(After(s, e).cursor, s.cursor)
    ensures s.posts <= After(s, e).posts
  {
    match e
    case Arrive(key) => ArrivalKeeps(s, key);
    case Pass(tries, commits) =>
      if s.alive && !s.aborted {
        TriedInOrder(s, tries);
      }
      PassKeepsPassed(s, tries, commits);
      PassKeepsSettled(s, tries, commits);
      PassKeepsRetried(s, tries, commits);
      PassKeepsTimely(s, tries, commits);
  }

  // ----- whole runs

  ghost predicate LegalRun(s: State, events: seq<Event>)
    decreases |events|
  {
    events == [] || (Legal(s, events[0]) && LegalRun(After(s, events[0]), events[1..]))
  }

  function Run(s: State, events: seq<Event>): State
    decreases |events|
  {
    if events == [] then s else Run(After(s, events[0]), events[1..])
  }

  /** A run takes its events in their order, one after another. */
  lemma {:induction false} RunOneMore(s: State, events: seq<Event>, last: Event)
    ensures Run(s, []) == s && Run(s, events + [last]) == After(Run(s, events), last)
    ensures LegalRun(s, events + [last]) <==> LegalRun(s, events) && Legal(Run(s, events), last)
    decreases |events|
  {
    if events == [] {
      assert events + [last] == [last] && [last][1..] == [];
    } else {
      assert (events + [last])[1..] == events[1..] + [last];
      RunOneMore(After(s, events[0]), events[1..], last);
    }
  }

  /** Whatever arrives, is answered, fails or aborts: the cursor never goes back and the
      invariant holds. */
  lemma {:induction false} RunKeeps(s: State, events: seq<Event>)
    requires Good(s) && LegalRun(s, events)
    ensures Good(Run(s, events))
    ensures !Before(Run(s, events).cursor, s.cursor)
    ensures s.posts <= Run(s, events).posts
    decreases |events|
  {
    if events != [] {
      StepKeeps(s, events[0]);
      RunKeeps(After(s, events[0]), events[1..]);
    }
  }

  /** A new subscription: what is already at or below its cursor is never sent. */
  ghost predicate Starts(s: State) {
    s.alive && !s.aborted && s.posts == [] && s.late == set key | key in s.table && !Before(s.cursor, key)
  }

  /** In a run without an aborted pass nothing is delivered twice, and deliveries are in order. */
  lemma {:induction false} DeliveredOnce(s: State, events: seq<Event>, i: nat, j: nat)
    requires Starts(s) && LegalRun(s, events) && !Run(s, events).aborted
    requires i < j < |Run(s, events).posts| && Settles(Run(s, events).posts[i].outcome)
    ensures Before(Run(s, events).posts[i].key, Run(s, events).posts[j].key)
  {
    RunKeeps(s, events);
  }

  lemma {:induction false} LastTrySettles(t: State, key: Key, i: nat)
    requires Good(t) && !Before(t.cursor, key) && SettledPost(t.posts, i, key)
    ensures exists k :: SettledForGood(t.posts, k, key)
    decreases |t.posts| - i
  {
    if j :| i < j < |t.posts| && t.posts[j].key == key && !Settles(t.posts[j].outcome) {
      var later :| j < later && SettledPost(t.posts, later, t.posts[j].key);
      LastTrySettles(t, key, later);
    } else {
      assert SettledForGood(t.posts, i, key);
    }
  }

  /** At or below the cursor, exactly the notifications that were stored too late for it are
      never tried; every other was delivered or rejected, and was last of all settled. */
  lemma {:induction false} NothingSkipped(s: State, events: seq<Event>, key: Key)
    requires Starts(s) && LegalRun(s, events)
    requires var t := Run(s, events); key in t.table && !Before(t.cursor, key)
    ensures var t := Run(s, events);
      key in t.late <==> !exists i :: 0 <= i < |t.posts| && t.posts[i].key == key
    ensures var t := Run(s, events);
      key !in t.late ==> exists i :: SettledForGood(t.posts, i, key)
  {
    RunKeeps(s, events);
    var t := Run(s, events);
    if key !in t.late {
      var i :| SettledPost(t.posts, i, key);
      assert t.posts[i].key == key;
      LastTrySettles(t, key, i);
    }
  }

  /** An aborted pass forgets what it settled: the same batch is due again, and the next pass
      posts every settled notification of the first one a second time. */
  lemma {:induction false} AbortRepeats(s: State, tries: seq<Post>, commits: bool, k: nat)
    requires Legal(s, Pass(tries, commits)) && !s.aborted && AfterPass(s, tries, commits).aborted
    requires k < SettledFrom(tries, 0)
    ensures var mid := AfterPass(s, tries, commits);
      && Legal(mid, Pass(tries, true))
      && SettledPost(mid.posts, |s.posts| + k, tries[k].key)
      && SettledPost(AfterPass(mid, tries, true).posts, |mid.posts| + k, tries[k].key)
  {
    var mid := AfterPass(s, tries, commits);
    assert Tried(tries)[k] == tries[k];
    assert mid.posts[|s.posts| + k] == tries[k];
    assert AfterPass(mid, tries, true).posts[|mid.posts| + k] == tries[k];
  }

  // ----- progress

  ghost function Waiting(s: State): set<Key> {
    set key | key in s.table && Before(s.cursor, key)
  }

  ghost function Keys(tries: seq<Post>): set<Key> {
    if tries == [] then {} else Keys(tries[1..]) + {tries[0].key}
  }

  lemma {:induction false} KeysHeld(tries: seq<Post>, key: Key)
    ensures key in Keys(tries) <==> Holds(tries, key)
  {
    if tries != [] {
      KeysHeld(tries[1..], key);
      if Holds(tries[1..], key) {
        var k :| 0 <= k < |tries[1..]| && tries[1..][k].key == key;
        assert tries[k + 1].key == key;
      }
      if Holds(tries, key) && key != tries[0].key {
        var k :| 0 <= k < |tries| && tries[k].key == key;
        assert tries[1..][k - 1].key == key;
      }
    }
  }

  lemma {:induction false} KeysCounted(tries: seq<Post>)
    requires Ascending(tries)
    ensures |Keys(tries)| == |tries|
  {
    if tries != [] {
      KeysCounted(tries[1..]);
      KeysHeld(tries[1..], tries[0].key);
    }
  }

  lemma {:induction false} WaitingAfter(s: State, tries: seq<Post>)
    requires Legal(s, Pass(tries, true))
    requires !AfterPass(s, tries, true).aborted && AfterPass(s, tries, true).alive
    ensures var n := SettledFrom(tries, 0);
      Waiting(AfterPass(s, tries, true)) == Waiting(s) - Keys(tries[..n])
  {
    var t := AfterPass(s, tries, true);
    var n := SettledFrom(tries, 0);
    forall key | key in Waiting(s)
      ensures Before(t.cursor, key) <==> key !in Keys(tries[..n])
    {
      KeysHeld(tries[..n], key);
      if Holds(tries, key) {
        var k :| 0 <= k < |tries| && tries[k].key == key;
        assert k < n ==> tries[..n][k].key == key;
      }
      if Holds(tries[..n], key) {
        var k :| 0 <= k < n && tries[..n][k].key == key;
        assert tries[k].key == key;
      }
    }
    forall key | key in Waiting(t)
      ensures key in Waiting(s)
    {
    }
  }

  /** A pass that commits leaves waiting exactly what it did not settle; one in which every post
      settles leaves at most what exceeds twenty. */
  lemma {:induction false} PassDrains(s: State, tries: seq<Post>)
    requires Legal(s, Pass(tries, true))
    requires !AfterPass(s, tries, true).aborted && AfterPass(s, tries, true).alive
    ensures var n := SettledFrom(tries, 0);
      Waiting(AfterPass(s, tries, true)) == Waiting(s) - Keys(tries[..n])
    ensures SettledFrom(tries, 0) == |tries| ==>
      |Waiting(AfterPass(s, tries, true))| == if |Waiting(s)| <= BATCH then 0 else |Waiting(s)| - BATCH
  {
    var t := AfterPass(s, tries, true);
    var n := SettledFrom(tries, 0);
    WaitingAfter(s, tries);
    if n == |tries| {
      assert tries[..n] == tries;
      KeysCounted(tries);
      forall key | key in Keys(tries)
        ensures key in Waiting(s)
      {
        KeysHeld(tries, key);
      }
      if |tries| < BATCH {
        forall key | key in Waiting(s)
          ensures key in Keys(tries)
        {
          KeysHeld(tries, key);
        }
        assert Keys(tries) == Waiting(s);
      }
      assert |Waiting(s) - Keys(tries)| == |Waiting(s)| - |Keys(tries)|;
    }
  }

  // ----- the loop

  /** A subscription row, with the log of what was posted to it. */
  class Subscription {
    var cursor: Key
    var alive: bool
    var table: set<Key>
    ghost var aborted: bool
    ghost var late: set<Key>
    var posts: seq<Post>

    ghost function Now(): State
      reads this
    {
      State(cursor, alive, aborted, table, late, posts)
    }

    constructor (cursor: Key, table: set<Key>)
      ensures Starts(Now()) && Good(Now())
      ensures this.cursor == cursor && this.table == table
    {
      this.cursor, this.alive, this.table, this.posts := cursor, true, table, [];
      this.aborted, this.late := false, set key | key in table && !Before(cursor, key);
    }

    method Arrive(key: Key)
      requires Good(Now()) && key !in table
      modifies this
      ensures Now() == After(old(Now()), Event.Arrive(key)) && Good(Now())
    {
      StepKeeps(Now(), Event.Arrive(key));
      if !Before(cursor, key) {
        late := late + {key};
      }
      table := table + {key};
    }

    method PostAll(tries: seq<Post>, commits: bool)
      requires alive && forall k :: 0 <= k < |tries| ==> tries[k].key != cursor
      modifies this
      ensures Now() == AfterPass(old(Now()), tries, commits)
    {
      ghost var before := Now();
      var batchEnd := cursor;
      var subAlive := true;
      var k := 0;
      while k < |tries|
        invariant 0 <= k <= |tries|
        invariant Now() == before.(posts := before.posts + tries[..k])
        invariant subAlive && batchEnd == if k == 0 then before.cursor else tries[k - 1].key
        invariant SettledFrom(tries, 0) == SettledFrom(tries, k)
      {
        assert tries[..k + 1] == tries[..k] + [tries[k]];
        posts := posts + [tries[k]];
        assert posts == before.posts + tries[..k + 1];
        match Judge(tries[k].outcome) {
          case Aborted =>
            aborted := true;
            return;
          case Gone =>
            if commits {
              alive := false;
              subAlive := false;
              break;
            }
            aborted := true;
            return;
          case Retry =>
            break;
          case Delivered =>
          case Rejected =>
        }
        batchEnd := tries[k].key;
        k := k + 1;
      }
      assert tries[..|tries|] == tries;
      if subAlive && batchEnd != cursor {
        if commits {
          cursor := batchEnd;
        } else {
          aborted := true;
        }
      }
    }

    /** One pass over this subscription. */
    method Deliver(tries: seq<Post>, commits: bool)
      requires Good(Now()) && Legal(Now(), Pass(tries, commits))
      modifies this
      ensures Now() == AfterPass(old(Now()), tries, commits) && Good(Now())
    {
      StepKeeps(Now(), Pass(tries, commits));
      PostAll(tries, commits);
    }
  }
}
