/** The line diff: common prefix and suffix trimming around a dynamic-programming
    LCS, with a whole-middle replacement past the size cap. */
module LineDiff {
  import opened Common
  import opened EditScript

  // Most lines per side fed into the table.
  const MAX_LCS_LINES: nat := 2000

  newtype uint32 = x: int | 0 <= x < 0x1_0000_0000

  // ----- scripts under construction

  // `ops` turns `before` into `after`, numbered from the given offsets.
  ghost predicate Script(ops: seq<Op>, before: seq<string>, after: seq<string>, oldFrom: nat, newFrom: nat) {
    Transforms(ops, before, after) && Numbered(ops, oldFrom, newFrom)
  }

  lemma {:induction false} ScriptConcat(a: seq<Op>, b: seq<Op>, before: seq<string>, after: seq<string>,
                     moreBefore: seq<string>, moreAfter: seq<string>, oldFrom: nat, newFrom: nat)
    requires Script(a, before, after, oldFrom, newFrom)
    requires Script(b, moreBefore, moreAfter, oldFrom + |before|, newFrom + |after|)
    ensures Script(a + b, before + moreBefore, after + moreAfter, oldFrom, newFrom)
    ensures Keeps(a + b) == Keeps(a) + Keeps(b)
  {
    Concat(a, b);
    NumberedConcat(a, b, oldFrom, newFrom);
  }

  // One more line of a walk that has scripted `before[..i]` and `after[..j]`.
  lemma {:induction false} PushKeep(ops: seq<Op>, before: seq<string>, after: seq<string>, i: nat, j: nat,
                                    oldFrom: nat, newFrom: nat)
    requires i < |before| && j < |after| && before[i] == after[j]
    requires Script(ops, before[..i], after[..j], oldFrom, newFrom)
    ensures var longer := ops + [Op(Keep, before[i], Some(oldFrom + i), Some(newFrom + j))];
            Script(longer, before[..i + 1], after[..j + 1], oldFrom, newFrom) && Keeps(longer) == Keeps(ops) + 1
  {
    var op := Op(Keep, before[i], Some(oldFrom + i), Some(newFrom + j));
    NumberedOne(op, oldFrom + i, newFrom + j);
    ScriptConcat(ops, [op], before[..i], after[..j], [before[i]], [after[j]], oldFrom, newFrom);
    assert before[..i] + [before[i]] == before[..i + 1] && after[..j] + [after[j]] == after[..j + 1];
  }

  lemma {:induction false} PushDelete(ops: seq<Op>, before: seq<string>, after: seq<string>, i: nat, j: nat,
                                      oldFrom: nat, newFrom: nat)
    requires i < |before| && j <= |after|
    requires Script(ops, before[..i], after[..j], oldFrom, newFrom)
    ensures var longer := ops + [Op(Delete, before[i], Some(oldFrom + i), None)];
            Script(longer, before[..i + 1], after[..j], oldFrom, newFrom) && Keeps(longer) == Keeps(ops)
  {
    var op := Op(Delete, before[i], Some(oldFrom + i), None);
    NumberedOne(op, oldFrom + i, newFrom + j);
    ScriptConcat(ops, [op], before[..i], after[..j], [before[i]], [], oldFrom, newFrom);
    assert before[..i] + [before[i]] == before[..i + 1] && after[..j] + [] == after[..j];
  }

  lemma {:induction false} PushInsert(ops: seq<Op>, before: seq<string>, after: seq<string>, i: nat, j: nat,
                                      oldFrom: nat, newFrom: nat)
    requires i <= |before| && j < |after|
    requires Script(ops, before[..i], after[..j], oldFrom, newFrom)
    ensures var longer := ops + [Op(Insert, after[j], None, Some(newFrom + j))];
            Script(longer, before[..i], after[..j + 1], oldFrom, newFrom) && Keeps(longer) == Keeps(ops)
  {
    var op := Op(Insert, after[j], None, Some(newFrom + j));
    NumberedOne(op, oldFrom + i, newFrom + j);
    ScriptConcat(ops, [op], before[..i], after[..j], [], [after[j]], oldFrom, newFrom);
    assert before[..i] + [] == before[..i] && after[..j] + [after[j]] == after[..j + 1];
  }

  // ----- the table

  // `Lcs` of the two tails, by position.
  function LcsFrom(a: seq<string>, b: seq<string>, i: nat, j: nat): nat
    requires i <= |a| && j <= |b|
    decreases |a| - i + |b| - j
  {
    if i == |a| || j == |b| then 0
    else if a[i] == b[j] then 1 + LcsFrom(a, b, i + 1, j + 1)
    else Max(LcsFrom(a, b, i + 1, j), LcsFrom(a, b, i, j + 1))
  }

  lemma {:induction false} LcsFromIsLcs(a: seq<string>, b: seq<string>, i: nat, j: nat)
    requires i <= |a| && j <= |b|
    ensures LcsFrom(a, b, i, j) == Lcs(a[i..], b[j..])
    decreases |a| - i + |b| - j
  {
    if i < |a| && j < |b| {
      assert a[i..][1..] == a[i + 1..] && b[j..][1..] == b[j + 1..];
      if a[i] == b[j] {
        LcsFromIsLcs(a, b, i + 1, j + 1);
      } else {
        LcsFromIsLcs(a, b, i + 1, j);
        LcsFromIsLcs(a, b, i, j + 1);
      }
    }
  }

  lemma {:induction false} LcsFromWithin(a: seq<string>, b: seq<string>, i: nat, j: nat)
    requires i <= |a| && j <= |b|
    ensures LcsFrom(a, b, i, j) <= |a| - i
    decreases |a| - i + |b| - j
  {
    if i < |a| && j < |b| {
      LcsFromWithin(a, b, i + 1, j + 1);
      LcsFromWithin(a, b, i + 1, j);
      LcsFromWithin(a, b, i, j + 1);
    }
  }

  // Every row from `i` on holds the LCS lengths of its tails.
  ghost predicate FilledFrom(table: array2<uint32>, before: seq<string>, after: seq<string>, i: nat)
    requires table.Length0 == |before| + 1 && table.Length1 == |after| + 1
    reads table
  {
    forall r, c {:trigger table[r, c]} ::
      i <= r <= |before| && 0 <= c <= |after| ==> table[r, c] as int == LcsFrom(before, after, r, c)
  }

  // The inner loop: row `i`, from the row below it.
  method FillRow(table: array2<uint32>, before: seq<string>, after: seq<string>, i: nat)
    requires i < |before| <= MAX_LCS_LINES && |after| <= MAX_LCS_LINES
    requires table.Length0 == |before| + 1 && table.Length1 == |after| + 1
    requires FilledFrom(table, before, after, i + 1) && table[i, |after|] == 0
    modifies table
    ensures FilledFrom(table, before, after, i)
    ensures forall r, c :: 0 <= r <= |before| && 0 <= c <= |after| && r != i ==> table[r, c] == old(table[r, c])
  {
    for j := |after| downto 0
      invariant FilledFrom(table, before, after, i + 1)
      invariant forall c {:trigger table[i, c]} :: j <= c <= |after| ==>
                  table[i, c] as int == LcsFrom(before, after, i, c)
      invariant forall r, c :: 0 <= r <= |before| && 0 <= c <= |after| && r != i ==> table[r, c] == old(table[r, c])
    {
      var diagonal, below, right := table[i + 1, j + 1], table[i + 1, j], table[i, j + 1];
      LcsFromWithin(before, after, i + 1, j + 1);
      table[i, j] := if before[i] == after[j] then diagonal + 1 else if below >= right then below else right;
    }
  }

  method FillTable(before: seq<string>, after: seq<string>) returns (table: array2<uint32>)
    requires |before| <= MAX_LCS_LINES && |after| <= MAX_LCS_LINES
    ensures fresh(table)
    ensures table.Length0 == |before| + 1 && table.Length1 == |after| + 1
    ensures FilledFrom(table, before, after, 0)
  {
    table := new uint32[|before| + 1, |after| + 1]((i, j) => 0);
    for i := |before| downto 0
      invariant FilledFrom(table, before, after, i)
      invariant forall r :: 0 <= r <= |before| ==> table[r, |after|] == 0
    {
      FillRow(table, before, after, i);
    }
  }

  // The two loops after the walk: whatever is left of either side.
  method Drain(walked: seq<Op>, before: seq<string>, after: seq<string>, i0: nat, j0: nat, oldOffset: nat,
               newOffset: nat)
    returns (ops: seq<Op>)
    requires i0 <= |before| && j0 <= |after| && (i0 < |before| ==> j0 == |after|)
    requires Script(walked, before[..i0], after[..j0], oldOffset, newOffset)
    ensures Script(ops, before, after, oldOffset, newOffset)
    ensures Keeps(ops) == Keeps(walked)
  {
    ops := walked;
    var i, j := i0, j0;
    var oldLine, newLine := oldOffset + i, newOffset + j;
    while i < |before|
      invariant i <= |before| && j <= |after| && (i < |before| ==> j == |after|)
      invariant oldLine == oldOffset + i
      invariant Script(ops, before[..i], after[..j], oldOffset, newOffset)
      invariant Keeps(ops) == Keeps(walked)
    {
      PushDelete(ops, before, after, i, j, oldOffset, newOffset);
      ops := ops + [Op(Delete, before[i], Some(oldLine), None)];
      i, oldLine := i + 1, oldLine + 1;
    }
    while j < |after|
      invariant j <= |after|
      invariant newLine == newOffset + j
      invariant Script(ops, before[..i], after[..j], oldOffset, newOffset)
      invariant Keeps(ops) == Keeps(walked)
    {
      PushInsert(ops, before, after, i, j, oldOffset, newOffset);
      ops := ops + [Op(Insert, after[j], None, Some(newLine))];
      j, newLine := j + 1, newLine + 1;
    }
    assert before[..i] == before && after[..j] == after;
  }

  /** The table walk: a correct script that keeps as many lines as any script can. */
  method LcsOps(before: seq<string>, after: seq<string>, oldOffset: nat, newOffset: nat)
    returns (ops: seq<Op>)
    requires |before| <= MAX_LCS_LINES && |after| <= MAX_LCS_LINES
    ensures Script(ops, before, after, oldOffset, newOffset)
    ensures Keeps(ops) == Lcs(before, after)
  {
    var table := FillTable(before, after);
    var n, m := |before|, |after|;
    ops := [];
    var i, j := 0, 0;
    var oldLine, newLine := oldOffset, newOffset;
    while i < n && j < m
      invariant FilledFrom(table, before, after, 0)
      invariant 0 <= i <= n && 0 <= j <= m
      invariant oldLine == oldOffset + i && newLine == newOffset + j
      invariant Script(ops, before[..i], after[..j], oldOffset, newOffset)
      invariant Keeps(ops) + LcsFrom(before, after, i, j) == LcsFrom(before, after, 0, 0)
      decreases n - i + m - j
    {
      if before[i] == after[j] {
        PushKeep(ops, before, after, i, j, oldOffset, newOffset);
        ops := ops + [Op(Keep, before[i], Some(oldLine), Some(newLine))];
        i, j, oldLine, newLine := i + 1, j + 1, oldLine + 1, newLine + 1;
      } else if table[i + 1, j] >= table[i, j + 1] {
        PushDelete(ops, before, after, i, j, oldOffset, newOffset);
        ops := ops + [Op(Delete, before[i], Some(oldLine), None)];
        i, oldLine := i + 1, oldLine + 1;
      } else {
        PushInsert(ops, before, after, i, j, oldOffset, newOffset);
        ops := ops + [Op(Insert, after[j], None, Some(newLine))];
        j, newLine := j + 1, newLine + 1;
      }
    }
    ops := Drain(ops, before, after, i, j, oldOffset, newOffset);
    LcsFromIsLcs(before, after, 0, 0);
    assert before[0..] == before && after[0..] == after;
  }

  // ----- trimming

  // Where the common prefix ends, looking from line `k` on.
  function PrefixFrom(a: seq<string>, b: seq<string>, k: nat): (p: nat)
    requires k <= |a| && k <= |b|
    ensures k <= p <= |a| && p <= |b|
    decreases |a| - k
  {
    if k < |a| && k < |b| && a[k] == b[k] then PrefixFrom(a, b, k + 1) else k
  }

  // Length of the common suffix outside the first `p` lines, given that it is at least `k`.
  function SuffixFrom(a: seq<string>, b: seq<string>, p: nat, k: nat): (s: nat)
    requires p + k <= |a| && p + k <= |b|
    ensures p + s <= |a| && p + s <= |b|
    decreases |a| - k
  {
    if k < |a| - p && k < |b| - p && a[|a| - 1 - k] == b[|b| - 1 - k] then SuffixFrom(a, b, p, k + 1) else k
  }

  function TrimmedPrefix(a: seq<string>, b: seq<string>): (p: nat)
    ensures p <= |a| && p <= |b|
  {
    PrefixFrom(a, b, 0)
  }

  function TrimmedSuffix(a: seq<string>, b: seq<string>): (s: nat)
    ensures TrimmedPrefix(a, b) + s <= |a| && TrimmedPrefix(a, b) + s <= |b|
  {
    SuffixFrom(a, b, TrimmedPrefix(a, b), 0)
  }

  /** Both trimmed sides fit in the table, so no replacement fallback happens. */
  predicate WithinCap(a: seq<string>, b: seq<string>) {
    var trimmed := TrimmedPrefix(a, b) + TrimmedSuffix(a, b);
    |a| - trimmed <= 2000 && |b| - trimmed <= 2000
  }

  lemma {:induction false} PrefixIsCommon(a: seq<string>, b: seq<string>, k: nat)
    requires k <= |a| && k <= |b| && a[..k] == b[..k]
    ensures a[..PrefixFrom(a, b, k)] == b[..PrefixFrom(a, b, k)]
    decreases |a| - k
  {
    if k < |a| && k < |b| && a[k] == b[k] {
      assert a[..k + 1] == a[..k] + [a[k]] && b[..k + 1] == b[..k] + [b[k]];
      PrefixIsCommon(a, b, k + 1);
    }
  }

  lemma {:induction false} SuffixIsCommon(a: seq<string>, b: seq<string>, p: nat, k: nat)
    requires p + k <= |a| && p + k <= |b| && a[|a| - k..] == b[|b| - k..]
    ensures a[|a| - SuffixFrom(a, b, p, k)..] == b[|b| - SuffixFrom(a, b, p, k)..]
    decreases |a| - k
  {
    if k < |a| - p && k < |b| - p && a[|a| - 1 - k] == b[|b| - 1 - k] {
      assert a[|a| - 1 - k..] == [a[|a| - 1 - k]] + a[|a| - k..];
      assert b[|b| - 1 - k..] == [b[|b| - 1 - k]] + b[|b| - k..];
      SuffixIsCommon(a, b, p, k + 1);
    }
  }

  // The trimmed prefix ends only where the sides differ or one of them ends, and the suffix
  // likewise, from the back.
  lemma {:induction false} PrefixIsLongest(a: seq<string>, b: seq<string>, k: nat)
    requires k <= |a| && k <= |b|
    ensures var p := PrefixFrom(a, b, k); p == |a| || p == |b| || a[p] != b[p]
    decreases |a| - k
  {
    if k < |a| && k < |b| && a[k] == b[k] {
      PrefixIsLongest(a, b, k + 1);
    }
  }

  lemma {:induction false} SuffixIsLongest(a: seq<string>, b: seq<string>, p: nat, k: nat)
    requires p + k <= |a| && p + k <= |b|
    ensures var s := SuffixFrom(a, b, p, k); p + s == |a| || p + s == |b| || a[|a| - 1 - s] != b[|b| - 1 - s]
    decreases |a| - k
  {
    if p + k < |a| && p + k < |b| && a[|a| - 1 - k] == b[|b| - 1 - k] {
      SuffixIsLongest(a, b, p, k + 1);
    }
  }

  lemma {:induction false} Cut(a: seq<string>, p: nat, s: nat, head: seq<string>, tail: seq<string>)
    requires p + s <= |a| && head == a[..p] && tail == a[|a| - s..]
    ensures a == head + (a[p..|a| - s] + tail)
  {
  }

  // Both sides as the same head, their own middles, the same tail.
  lemma {:induction false} TrimmedParts(a: seq<string>, b: seq<string>, p: nat, s: nat)
    requires p == TrimmedPrefix(a, b) && s == TrimmedSuffix(a, b)
    ensures a == a[..p] + (a[p..|a| - s] + a[|a| - s..])
    ensures b == a[..p] + (b[p..|b| - s] + a[|a| - s..])
  {
    PrefixIsCommon(a, b, 0);
    SuffixIsCommon(a, b, p, 0);
    Cut(a, p, s, a[..p], a[|a| - s..]);
    Cut(b, p, s, a[..p], a[|a| - s..]);
  }

  // Trimming loses nothing of the longest common subsequence.
  lemma {:induction false} TrimmingKeepsLcs(p: seq<string>, x: seq<string>, y: seq<string>, s: seq<string>)
    ensures Lcs(p + (x + s), p + (y + s)) == |p| + Lcs(x, y) + |s|
  {
    LcsCommonPrefix(p, x + s, y + s);
    LcsCommonSuffix(x, y, s);
  }

  // Unchanged lines.
  method KeepRun(lines: seq<string>, oldOffset: nat, newOffset: nat) returns (ops: seq<Op>)
    ensures Script(ops, lines, lines, oldOffset, newOffset)
    ensures Keeps(ops) == |lines|
  {
    ops := [];
    var oldLine, newLine := oldOffset, newOffset;
    for i := 0 to |lines|
      invariant oldLine == oldOffset + i && newLine == newOffset + i
      invariant Script(ops, lines[..i], lines[..i], oldOffset, newOffset)
      invariant Keeps(ops) == i
    {
      PushKeep(ops, lines, lines, i, i, oldOffset, newOffset);
      ops := ops + [Op(Keep, lines[i], Some(oldLine), Some(newLine))];
      oldLine, newLine := oldLine + 1, newLine + 1;
    }
    assert lines[..|lines|] == lines;
  }

  // Past the cap: delete everything, then insert everything.
  method ReplaceAll(before: seq<string>, after: seq<string>, oldOffset: nat, newOffset: nat) returns (ops: seq<Op>)
    ensures Script(ops, before, after, oldOffset, newOffset)
    ensures Keeps(ops) == 0
  {
    ops := [];
    var oldLine, newLine := oldOffset, newOffset;
    for i := 0 to |before|
      invariant oldLine == oldOffset + i
      invariant Script(ops, before[..i], after[..0], oldOffset, newOffset)
      invariant Keeps(ops) == 0
    {
      PushDelete(ops, before, after, i, 0, oldOffset, newOffset);
      ops := ops + [Op(Delete, before[i], Some(oldLine), None)];
      oldLine := oldLine + 1;
    }
    for j := 0 to |after|
      invariant newLine == newOffset + j
      invariant Script(ops, before[..|before|], after[..j], oldOffset, newOffset)
      invariant Keeps(ops) == 0
    {
      PushInsert(ops, before, after, |before|, j, oldOffset, newOffset);
      ops := ops + [Op(Insert, after[j], None, Some(newLine))];
      newLine := newLine + 1;
    }
    assert before[..|before|] == before && after[..|after|] == after;
  }

  // The two trimming loops.
  method Trim(before: seq<string>, after: seq<string>) returns (prefix: nat, suffix: nat)
    ensures prefix == TrimmedPrefix(before, after) && suffix == TrimmedSuffix(before, after)
  {
    prefix := 0;
    while prefix < |before| && prefix < |after| && before[prefix] == after[prefix]
      invariant prefix <= |before| && prefix <= |after|
      invariant PrefixFrom(before, after, prefix) == TrimmedPrefix(before, after)
    {
      prefix := prefix + 1;
    }
    suffix := 0;
    while suffix < |before| - prefix && suffix < |after| - prefix
      && before[|before| - 1 - suffix] == after[|after| - 1 - suffix]
      invariant prefix + suffix <= |before| && prefix + suffix <= |after|
      invariant SuffixFrom(before, after, prefix, suffix) == TrimmedSuffix(before, after)
    {
      suffix := suffix + 1;
    }
  }

  // The diff of `head + midOld + tail` against `head + midNew + tail`.
  method TrimmedOps(head: seq<string>, midOld: seq<string>, midNew: seq<string>, tail: seq<string>)
    returns (ops: seq<Op>)
    ensures Script(ops, head + (midOld + tail), head + (midNew + tail), 1, 1)
    ensures Keeps(ops) == if |midOld| > MAX_LCS_LINES || |midNew| > MAX_LCS_LINES then |head| + |tail|
                          else Lcs(head + (midOld + tail), head + (midNew + tail))
  {
    ops := KeepRun(head, 1, 1);
    var mid;
    if |midOld| > MAX_LCS_LINES || |midNew| > MAX_LCS_LINES {
      mid := ReplaceAll(midOld, midNew, 1 + |head|, 1 + |head|);
    } else {
      mid := LcsOps(midOld, midNew, 1 + |head|, 1 + |head|);
    }
    var last := KeepRun(tail, 1 + |head| + |midOld|, 1 + |head| + |midNew|);
    ScriptConcat(mid, last, midOld, midNew, tail, tail, 1 + |head|, 1 + |head|);
    ScriptConcat(ops, mid + last, head, head, midOld + tail, midNew + tail, 1, 1);
    TrimmingKeepsLcs(head, midOld, midNew, tail);
    ops := ops + (mid + last);
  }

  /** The whole diff. Both branches give a correct numbered script; under the cap it
      keeps a longest common subsequence of the two whole files. */
  method DiffOps(before: seq<string>, after: seq<string>) returns (ops: seq<Op>)
    ensures Script(ops, before, after, 1, 1)
    ensures WithinCap(before, after) ==> Keeps(ops) == Lcs(before, after)
    ensures !WithinCap(before, after) ==> Keeps(ops) == TrimmedPrefix(before, after) + TrimmedSuffix(before, after)
  {
    var prefix, suffix := Trim(before, after);
    TrimmedParts(before, after, prefix, suffix);
    ops := TrimmedOps(before[..prefix], before[prefix..|before| - suffix], after[prefix..|after| - suffix],
                      before[|before| - suffix..]);
  }

  /** Any script that keeps `Lcs` lines is a shortest one: every other script between
      the same two files deletes and inserts at least as many lines. */
  lemma {:induction false} FewestChanges(ops: seq<Op>, other: seq<Op>, before: seq<string>, after: seq<string>)
    requires Transforms(ops, before, after) && Keeps(ops) == Lcs(before, after)
    requires Transforms(other, before, after)
    ensures Changes(ops) <= Changes(other)
  {
    NoScriptKeepsMore(other);
    ChangesFromKeeps(ops);
    ChangesFromKeeps(other);
  }
}
