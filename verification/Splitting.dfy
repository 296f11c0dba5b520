/** Text cut at a separator character. */
module Splitting {

  // Where the separator first stands; the length of the text, if nowhere.
  function IndexOf(s: string, c: char): (n: nat)
    ensures n <= |s|
    ensures n < |s| ==> s[n] == c
  {
    if s == "" || s[0] == c then 0 else 1 + IndexOf(s[1..], c)
  }

  // The pieces between the separators; one more than there are separators.
  function Split(s: string, c: char): seq<string>
    decreases |s|
  {
    var n := IndexOf(s, c);
    if n == |s| then [s] else [s[..n]] + Split(s[n + 1..], c)
  }

  lemma {:induction false} IndexOfAfter(piece: string, c: char, rest: string)
    requires c !in piece
    ensures IndexOf(piece, c) == |piece| && IndexOf(piece + [c] + rest, c) == |piece|
  {
    if piece == "" {
      assert (piece + [c] + rest)[0] == c;
    } else {
      assert (piece + [c] + rest)[0] == piece[0];
      assert (piece + [c] + rest)[1..] == piece[1..] + [c] + rest;
      IndexOfAfter(piece[1..], c, rest);
    }
  }

  lemma {:induction false} FirstPieceFree(s: string, c: char)
    ensures c !in s[..IndexOf(s, c)]
  {
    if s != "" && s[0] != c {
      FirstPieceFree(s[1..], c);
      assert s[..IndexOf(s, c)] == [s[0]] + s[1..][..IndexOf(s[1..], c)];
    }
  }

  lemma {:induction false} SplitAfter(piece: string, c: char, rest: string)
    requires c !in piece
    ensures Split(piece + [c] + rest, c) == [piece] + Split(rest, c)
  {
    var s := piece + [c] + rest;
    IndexOfAfter(piece, c, rest);
    assert s[..|piece|] == piece && s[|piece| + 1..] == rest;
  }

  lemma {:induction false} PiecesFree(s: string, c: char)
    ensures forall k :: 0 <= k < |Split(s, c)| ==> c !in Split(s, c)[k]
    ensures forall k :: 0 <= k < |Split(s, c)| ==> forall d :: d in Split(s, c)[k] ==> d in s
    decreases |s|
  {
    var n := IndexOf(s, c);
    FirstPieceFree(s, c);
    if n == |s| {
      assert s[..n] == s;
    } else {
      PiecesFree(s[n + 1..], c);
    }
  }

  lemma {:induction false} SnocTail<T>(s: seq<T>, last: T)
    requires s != []
    ensures (s + [last])[0] == s[0] && (s + [last])[1..] == s[1..] + [last]
  {
  }

  // A prefix by its last element.
  lemma {:induction false} PrefixSnoc<T>(s: seq<T>, k: nat)
    requires 0 < k <= |s|
    ensures s[..k] == s[..k - 1] + [s[k - 1]]
  {
  }
}
