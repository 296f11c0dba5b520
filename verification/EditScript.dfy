/** Edit scripts between two line lists, and the longest common subsequence that
    bounds how many lines a script can keep. */
module EditScript {
  import opened Common

  datatype Tag = Keep | Delete | Insert

  /** One scripted line, with its 1-based number on each side it belongs to. */
  datatype Op = Op(tag: Tag, text: string, oldLine: Option<nat>, newLine: Option<nat>)

  // The lines a script reads: everything it keeps or deletes.
  function OldText(ops: seq<Op>): seq<string> {
    if ops == [] then []
    else if ops[0].tag == Insert then OldText(ops[1..])
    else [ops[0].text] + OldText(ops[1..])
  }

  // The lines a script writes: everything it keeps or inserts.
  function NewText(ops: seq<Op>): seq<string> {
    if ops == [] then []
    else if ops[0].tag == Delete then NewText(ops[1..])
    else [ops[0].text] + NewText(ops[1..])
  }

  function Keeps(ops: seq<Op>): nat {
    if ops == [] then 0 else (if ops[0].tag == Keep then 1 else 0) + Keeps(ops[1..])
  }

  // How many lines a script deletes or inserts.
  function Changes(ops: seq<Op>): nat {
    if ops == [] then 0 else (if ops[0].tag == Keep then 0 else 1) + Changes(ops[1..])
  }

  ghost predicate Transforms(ops: seq<Op>, before: seq<string>, after: seq<string>) {
    OldText(ops) == before && NewText(ops) == after
  }

  // Line `k` carries a number exactly on the sides it belongs to: one more than the
  // lines of that side before it, counted from the offset.
  ghost predicate NumberedAt(ops: seq<Op>, k: nat, oldFrom: nat, newFrom: nat)
    requires k < |ops|
  {
    && ops[k].oldLine == (if ops[k].tag == Insert then None else Some(oldFrom + |OldText(ops[..k])|))
    && ops[k].newLine == (if ops[k].tag == Delete then None else Some(newFrom + |NewText(ops[..k])|))
  }

  ghost predicate Numbered(ops: seq<Op>, oldFrom: nat, newFrom: nat) {
    forall k {:trigger NumberedAt(ops, k, oldFrom, newFrom)} ::
      0 <= k < |ops| ==> NumberedAt(ops, k, oldFrom, newFrom)
  }

  lemma {:induction false} OldTextConcat(a: seq<Op>, b: seq<Op>)
    ensures OldText(a + b) == OldText(a) + OldText(b)
  {
    if a == [] {
      assert a + b == b;
    } else {
      assert (a + b)[1..] == a[1..] + b;
      OldTextConcat(a[1..], b);
    }
  }

  lemma {:induction false} NewTextConcat(a: seq<Op>, b: seq<Op>)
    ensures NewText(a + b) == NewText(a) + NewText(b)
  {
    if a == [] {
      assert a + b == b;
    } else {
      assert (a + b)[1..] == a[1..] + b;
      NewTextConcat(a[1..], b);
    }
  }

  lemma {:induction false} KeepsConcat(a: seq<Op>, b: seq<Op>)
    ensures Keeps(a + b) == Keeps(a) + Keeps(b)
  {
    if a == [] {
      assert a + b == b;
    } else {
      assert (a + b)[1..] == a[1..] + b;
      KeepsConcat(a[1..], b);
    }
  }

  lemma {:induction false} Concat(a: seq<Op>, b: seq<Op>)
    ensures OldText(a + b) == OldText(a) + OldText(b)
    ensures NewText(a + b) == NewText(a) + NewText(b)
    ensures Keeps(a + b) == Keeps(a) + Keeps(b)
  {
    OldTextConcat(a, b);
    NewTextConcat(a, b);
    KeepsConcat(a, b);
  }

  lemma {:induction false} TextOfPrefix(a: seq<Op>, b: seq<Op>, k: nat)
    requires k <= |a + b|
    ensures k <= |a| ==> (a + b)[..k] == a[..k]
    ensures k >= |a| ==> OldText((a + b)[..k]) == OldText(a) + OldText(b[..k - |a|])
    ensures k >= |a| ==> NewText((a + b)[..k]) == NewText(a) + NewText(b[..k - |a|])
  {
    if k >= |a| {
      assert (a + b)[..k] == a + b[..k - |a|];
      Concat(a, b[..k - |a|]);
    }
  }

  lemma {:induction false} NumberedInConcat(a: seq<Op>, b: seq<Op>, k: nat, oldFrom: nat, newFrom: nat)
    requires k < |a + b|
    requires k < |a| ==> NumberedAt(a, k, oldFrom, newFrom)
    requires k >= |a| ==> NumberedAt(b, k - |a|, oldFrom + |OldText(a)|, newFrom + |NewText(a)|)
    ensures NumberedAt(a + b, k, oldFrom, newFrom)
  {
    TextOfPrefix(a, b, k);
  }

  lemma {:induction false} NumberedConcat(a: seq<Op>, b: seq<Op>, oldFrom: nat, newFrom: nat)
    requires Numbered(a, oldFrom, newFrom)
    requires Numbered(b, oldFrom + |OldText(a)|, newFrom + |NewText(a)|)
    ensures Numbered(a + b, oldFrom, newFrom)
  {
    forall k | 0 <= k < |a + b|
      ensures NumberedAt(a + b, k, oldFrom, newFrom)
    {
      NumberedInConcat(a, b, k, oldFrom, newFrom);
    }
  }

  lemma {:induction false} NumberedOne(op: Op, oldFrom: nat, newFrom: nat)
    requires op.oldLine == if op.tag == Insert then None else Some(oldFrom)
    requires op.newLine == if op.tag == Delete then None else Some(newFrom)
    ensures Numbered([op], oldFrom, newFrom)
    ensures OldText([op]) == if op.tag == Insert then [] else [op.text]
    ensures NewText([op]) == if op.tag == Delete then [] else [op.text]
    ensures Keeps([op]) == if op.tag == Keep then 1 else 0
  {
    assert [op][..0] == [] && [op][1..] == [];
  }

  lemma {:induction false} ChangesFromKeeps(ops: seq<Op>)
    ensures Changes(ops) + 2 * Keeps(ops) == |OldText(ops)| + |NewText(ops)|
  {
    if ops != [] {
      ChangesFromKeeps(ops[1..]);
    }
  }

  // ----- longest common subsequence

  function Max(a: nat, b: nat): nat {
    if a >= b then a else b
  }

  function Lcs(a: seq<string>, b: seq<string>): nat {
    if a == [] || b == [] then 0
    else if a[0] == b[0] then 1 + Lcs(a[1..], b[1..])
    else Max(Lcs(a[1..], b), Lcs(a, b[1..]))
  }

  // Dropping a first line never raises the length, and lowers it by at most one.
  lemma {:induction false} LcsDrop(a: seq<string>, b: seq<string>)
    ensures a != [] ==> Lcs(a[1..], b) <= Lcs(a, b) <= Lcs(a[1..], b) + 1
    ensures b != [] ==> Lcs(a, b[1..]) <= Lcs(a, b) <= Lcs(a, b[1..]) + 1
    decreases |a| + |b|
  {
    if a != [] && b != [] {
      LcsDrop(a[1..], b);
      LcsDrop(a, b[1..]);
      if a[0] != b[0] {
        LcsDrop(a[1..], b[1..]);
      }
    }
  }

  /** `Lcs` bounds every script between the two lists, not only the one built here. */
  lemma {:induction false} NoScriptKeepsMore(ops: seq<Op>)
    ensures Keeps(ops) <= Lcs(OldText(ops), NewText(ops))
  {
    if ops != [] {
      var a, b := OldText(ops), NewText(ops);
      NoScriptKeepsMore(ops[1..]);
      LcsDrop(a, b);
      assert OldText(ops[1..]) == if ops[0].tag == Insert then a else a[1..];
      assert NewText(ops[1..]) == if ops[0].tag == Delete then b else b[1..];
    }
  }

  lemma {:induction false} LcsCommonPrefix(p: seq<string>, a: seq<string>, b: seq<string>)
    ensures Lcs(p + a, p + b) == |p| + Lcs(a, b)
  {
    if p == [] {
      assert p + a == a && p + b == b;
    } else {
      assert (p + a)[1..] == p[1..] + a && (p + b)[1..] == p[1..] + b;
      LcsCommonPrefix(p[1..], a, b);
    }
  }

  lemma {:induction false} LcsCommonLast(a: seq<string>, b: seq<string>, x: string)
    ensures Lcs(a + [x], b + [x]) == Lcs(a, b) + 1
    decreases |a| + |b|
  {
    var ax, bx := a + [x], b + [x];
    if a != [] { assert ax[1..] == a[1..] + [x]; }
    if b != [] { assert bx[1..] == b[1..] + [x]; }
    if a != [] && b != [] {
      if a[0] == b[0] {
        LcsCommonLast(a[1..], b[1..], x);
      } else {
        LcsCommonLast(a[1..], b, x);
        LcsCommonLast(a, b[1..], x);
      }
    } else if a != [] {
      if a[0] != x {
        LcsCommonLast(a[1..], b, x);
      }
    } else if b != [] {
      if b[0] != x {
        LcsCommonLast(a, b[1..], x);
      }
    }
  }

  lemma {:induction false} LcsCommonSuffix(a: seq<string>, b: seq<string>, s: seq<string>)
    ensures Lcs(a + s, b + s) == Lcs(a, b) + |s|
  {
    if s == [] {
      assert a + s == a && b + s == b;
    } else {
      var t, x := s[..|s| - 1], s[|s| - 1];
      assert a + s == (a + t) + [x] && b + s == (b + t) + [x];
      LcsCommonLast(a + t, b + t, x);
      LcsCommonSuffix(a, b, t);
    }
  }
}
