/** What the cursor of a subscription does, in terms of the status numbers of the answers. */
module PushStatuses {
  import opened PushDelivery

  // The answers behind which nothing is tried again: a bad row, success, or a lasting refusal.
  predicate ForGood(outcome: Outcome) {
    match outcome
    case BadRow => true
    case Response(status) =>
      || 200 <= status <= 299
      || (400 <= status <= 499 && status != 404 && status != 408 && status != 410 && status != 429)
    case _ => false
  }

  // The endpoint does not exist, or no longer.
  predicate NoSuchEndpoint(outcome: Outcome) {
    outcome == Response(404) || outcome == Response(410)
  }

  predicate AtOrBelow(key: Key, cursor: Key) {
    key.at < cursor.at || (key.at == cursor.at && key.id <= cursor.id)
  }

  /** Over every run: what lies at or below the cursor, unless it was stored too late, was posted
      and answered for good. */
  lemma {:induction false} PassedWereAnswered(s: State, events: seq<Event>, key: Key)
    requires Starts(s) && LegalRun(s, events)
    requires var t := Run(s, events); key in t.table && key !in t.late && AtOrBelow(key, t.cursor)
    ensures var t := Run(s, events);
      exists i :: 0 <= i < |t.posts| && t.posts[i].key == key && ForGood(t.posts[i].outcome)
  {
    RunKeeps(s, events);
    var i :| SettledPost(Run(s, events).posts, i, key);
  }

  // The first `n` posts are answered for good, and the next, if any, is not.
  ghost predicate GoodUpTo(tries: seq<Post>, n: nat) {
    && n <= |tries|
    && (forall k :: 0 <= k < n ==> ForGood(tries[k].outcome))
    && (n < |tries| ==> !ForGood(tries[n].outcome))
  }

  lemma {:induction false} GoodUpToIs(tries: seq<Post>, n: nat)
    requires GoodUpTo(tries, n)
    ensures SettledFrom(tries, 0) == n
  {
    forall k | 0 <= k < |tries|
      ensures Settles(tries[k].outcome) <==> ForGood(tries[k].outcome)
    {
    }
  }

  /** What a pass comes to: it posts up to the first answer that is not for good; without a failed
      commit or another exception the cursor moves to the last post before that one, or stays if
      there is none; and the subscription is deleted if that answer is 404 or 410. */
  lemma {:induction false} PassIs(s: State, tries: seq<Post>, commits: bool, n: nat)
    requires s.alive && GoodUpTo(tries, n)
    ensures var t := AfterPass(s, tries, commits);
      && t.posts == s.posts + tries[..if n < |tries| then n + 1 else n]
      && t.table == s.table && t.late == s.late
      && (t.alive <==> !(n < |tries| && NoSuchEndpoint(tries[n].outcome) && commits))
      && (t.aborted <==>
            || s.aborted
            || (n < |tries| && tries[n].outcome == Uncaught)
            || (n < |tries| && NoSuchEndpoint(tries[n].outcome) && !commits)
            || (n > 0 && (n == |tries| || !NoSuchEndpoint(tries[n].outcome)) && !commits))
      && t.cursor == if n > 0 && commits && (n == |tries| || (tries[n].outcome != Uncaught
                         && !NoSuchEndpoint(tries[n].outcome)))
                     then tries[n - 1].key else s.cursor
  {
    GoodUpToIs(tries, n);
  }

  /** A pass whose first post is answered 408, 429 or 5xx, or not at all, posts it and leaves the
      rest of the subscription as it was. */
  lemma {:induction false} TransientFailureWaits(s: State, tries: seq<Post>, commits: bool)
    requires s.alive && tries != []
    requires match tries[0].outcome
             case Response(status) => status == 408 || status == 429 || status >= 500
             case outcome => outcome == Transport
    ensures AfterPass(s, tries, commits) == s.(posts := s.posts + [tries[0]])
  {
    PassIs(s, tries, commits, 0);
    assert tries[..1] == [tries[0]];
  }

  /** The batch of a pass: from the oldest notification above the cursor on, by creation time and
      then by id, all of them if they are fewer than twenty. */
  lemma {:induction false} BatchIsOldest(s: State, tries: seq<Post>, commits: bool)
    requires Legal(s, Pass(tries, commits))
    ensures |tries| <= 20
    ensures forall k :: 0 <= k < |tries| ==> tries[k].key in s.table && !AtOrBelow(tries[k].key, s.cursor)
    ensures forall j, k :: 0 <= j < k < |tries| ==> !AtOrBelow(tries[k].key, tries[j].key)
    ensures forall key :: key in s.table && !AtOrBelow(key, s.cursor) && !Holds(tries, key) ==>
      |tries| == 20 && !AtOrBelow(key, tries[19].key)
  {
  }
}
