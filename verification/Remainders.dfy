/** Remainders of shifted numbers. */
module Remainders {

  lemma {:induction false} ModUnique(a: int, m: int, q: int, r: int)
    requires m > 0 && 0 <= r < m && a == m * q + r
    ensures a % m == r
  {
    var d := a / m - q;
    assert m * d == r - a % m;
    assert d >= 1 ==> m * d >= m;
    assert d <= -1 ==> m * d <= -m;
  }

  lemma {:induction false} ModShift(a: int, b: int, m: int)
    requires m > 0 && b % m == 0
    ensures (a - b) % m == 0 <==> a % m == 0
  {
    var p, q := a / m, b / m;
    assert a == m * p + a % m && b == m * q;
    assert a - b == m * (p - q) + a % m;
    ModUnique(a - b, m, p - q, a % m);
  }
}
