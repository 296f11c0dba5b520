/** The number of elements of a set. The verifier relates `|s|` to every union and difference in
    sight, which the methods that count their steps cannot afford; it learns what `Count(s)` is
    only from the lemmas here. */
module Counting {

  predicate Asked(now: bool) { true }

  // The size, once it is asked for.
  ghost predicate IsSize<T>(s: set<T>, n: nat) {
    forall now :: Asked(now) ==> n == |s|
  }

  ghost function Count<T>(s: set<T>): nat {
    assert IsSize(s, |s|);
    var n :| IsSize(s, n);
    n
  }

  lemma {:induction false} CountIsSize<T>(s: set<T>)
    ensures Count(s) == |s|
  {
    assert Asked(true);
  }

  lemma {:induction false} CountWith<T>(s: set<T>, x: T)
    ensures Count(s + {x}) == Count(s) + if x in s then 0 else 1
  {
    CountIsSize(s);
    CountIsSize(s + {x});
    if x in s {
      assert s + {x} == s;
    }
  }

  lemma {:induction false} CountWithout<T>(s: set<T>, x: T)
    requires x in s
    ensures Count(s - {x}) + 1 == Count(s)
  {
    CountIsSize(s);
    CountIsSize(s - {x});
  }

  lemma {:induction false} CountOfNone<T>(s: set<T>)
    requires s == {}
    ensures Count(s) == 0
  {
    CountIsSize(s);
  }

  lemma {:induction false} SubsetCounts<T>(a: set<T>, b: set<T>)
    requires a <= b
    ensures Count(a) <= Count(b)
  {
    CountIsSize(a);
    CountIsSize(b);
    assert b == a + (b - a);
  }
}
