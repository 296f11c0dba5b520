/** Chains of superseded rows: when a transition closes one into a cycle. */
module SupersedeChains {
  import opened Common
  import opened MemoryDecay

  // The row reached from `id` in `n` steps along the replacement column, if the chain goes on.
  function Reached(rows: map<Id, Row>, id: Id, n: nat): Option<Id>
    decreases n
  {
    if id !in rows then None
    else if n == 0 then Some(id)
    else if rows[id].supersededBy.None? then None
    else Reached(rows, rows[id].supersededBy.value, n - 1)
  }

  ghost predicate LeadsTo(rows: map<Id, Row>, a: Id, b: Id) {
    exists n :: Reached(rows, a, n) == Some(b)
  }

  /** No row is superseded, directly or through others, by itself. */
  ghost predicate Acyclic(rows: map<Id, Row>) {
    forall id: Id, n: nat :: Reached(rows, id, n) == Some(id) ==> n == 0
  }

  // Only the replacement column of one row is new.
  ghost predicate Repointed(before: map<Id, Row>, after: map<Id, Row>, id: Id, replacement: Id) {
    && before.Keys == after.Keys && id in after && after[id].supersededBy == Some(replacement)
    && forall other :: other in after && other != id ==> after[other].supersededBy == before[other].supersededBy
  }

  // A chain that does not meet the row before its end is the same before and after.
  lemma {:induction false} SameChain(before: map<Id, Row>, after: map<Id, Row>, id: Id, replacement: Id, from: Id,
                                     n: nat)
    requires Repointed(before, after, id, replacement)
    requires forall k: nat :: k < n ==> Reached(before, from, k) != Some(id)
    ensures Reached(after, from, n) == Reached(before, from, n)
    decreases n
  {
    if n > 0 && from in before && before[from].supersededBy.Some? {
      assert Reached(before, from, 0) == Some(from);
      var next := before[from].supersededBy.value;
      forall k: nat | k < n - 1
        ensures Reached(before, next, k) != Some(id)
      {
        assert Reached(before, from, k + 1) == Reached(before, next, k);
      }
      SameChain(before, after, id, replacement, next, n - 1);
    } else if n > 0 {
      assert Reached(before, from, 0) == if from in before then Some(from) else None;
    }
  }

  // The least number of steps to a row that is reached.
  lemma {:induction false} FirstTime(rows: map<Id, Row>, a: Id, b: Id, n: nat) returns (first: nat)
    requires Reached(rows, a, n) == Some(b)
    ensures first <= n && Reached(rows, a, first) == Some(b)
    ensures forall k: nat :: k < first ==> Reached(rows, a, k) != Some(b)
  {
    if k: nat :| k < n && Reached(rows, a, k) == Some(b) {
      first := FirstTime(rows, a, b, k);
    } else {
      first := n;
    }
  }

  // Steps add up.
  lemma {:induction false} Onward(rows: map<Id, Row>, a: Id, b: Id, m: nat, n: nat)
    requires Reached(rows, a, m) == Some(b)
    ensures Reached(rows, a, m + n) == Reached(rows, b, n)
    decreases m
  {
    if m > 0 {
      Onward(rows, rows[a].supersededBy.value, b, m - 1, n);
    }
  }

  lemma {:induction false} SameUntil(before: map<Id, Row>, after: map<Id, Row>, id: Id, replacement: Id, from: Id,
                                     n: nat)
    requires Repointed(before, after, id, replacement)
    requires forall k: nat :: k < n ==> Reached(after, from, k) != Some(id)
    ensures Reached(before, from, n) == Reached(after, from, n)
    decreases n
  {
    if n > 0 && from in after {
      assert Reached(after, from, 0) == Some(from);
      if after[from].supersededBy.Some? {
        var next := after[from].supersededBy.value;
        forall k: nat | k < n - 1
          ensures Reached(after, next, k) != Some(id)
        {
          assert Reached(after, from, k + 1) == Reached(after, next, k);
        }
        SameUntil(before, after, id, replacement, next, n - 1);
      }
    }
  }

  // A cycle that was not there before goes through the row.
  lemma {:induction false} CycleMeetsRow(before: map<Id, Row>, after: map<Id, Row>, id: Id, replacement: Id,
                                         start: Id, n: nat)
    requires Acyclic(before) && Repointed(before, after, id, replacement)
    requires n > 0 && Reached(after, start, n) == Some(start)
    ensures exists k: nat :: k <= n && Reached(after, start, k) == Some(id)
  {
    if !exists k: nat :: k <= n && Reached(after, start, k) == Some(id) {
      SameUntil(before, after, id, replacement, start, n);
    }
  }

  // From the row a cycle leads over its replacement back to it.
  lemma {:induction false} CycleLeadsBack(before: map<Id, Row>, after: map<Id, Row>, id: Id, replacement: Id,
                                          start: Id, n: nat, k: nat)
    requires Repointed(before, after, id, replacement)
    requires 0 < n && k <= n && Reached(after, start, n) == Some(start) && Reached(after, start, k) == Some(id)
    ensures LeadsTo(before, replacement, id)
  {
    Onward(after, start, id, k, n - k);
    Onward(after, id, start, n - k, k);
    assert Reached(after, id, n) == Some(id) && Reached(after, replacement, n - 1) == Some(id);
    var first := FirstTime(after, replacement, id, n - 1);
    SameUntil(before, after, id, replacement, replacement, first);
  }

  /** Pointing a row of an acyclic store at a replacement keeps it acyclic if and only if the
      replacement does not lead to that row. */
  lemma {:induction false} StaysAcyclicIff(before: map<Id, Row>, after: map<Id, Row>, id: Id, replacement: Id)
    requires Acyclic(before) && Repointed(before, after, id, replacement)
    ensures Acyclic(after) <==> !LeadsTo(before, replacement, id)
  {
    if LeadsTo(before, replacement, id) {
      var n :| Reached(before, replacement, n) == Some(id);
      var first := FirstTime(before, replacement, id, n);
      SameChain(before, after, id, replacement, replacement, first);
      assert Reached(after, id, first + 1) == Some(id);
    } else {
      forall start: Id, n: nat | Reached(after, start, n) == Some(start)
        ensures n == 0
      {
        if n > 0 {
          CycleMeetsRow(before, after, id, replacement, start, n);
          var k: nat :| k <= n && Reached(after, start, k) == Some(id);
          CycleLeadsBack(before, after, id, replacement, start, n, k);
        }
      }
    }
  }
}
