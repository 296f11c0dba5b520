/** Grouping an edit script into hunks, and the independent reading of a list of
    hunks as a patch. */
module Hunks {
  import opened Common
  import opened EditScript

  datatype Hunk = Hunk(oldStart: nat, oldCount: nat, newStart: nat, newCount: nat, lines: seq<Op>)

  // First and last line of a group, inclusive.
  datatype Span = Span(lo: nat, hi: nat)

  // ----- what a list of hunks means

  // Where a hunk applies: how many lines of each side stand before it.
  datatype Placed = Placed(oldAt: nat, oldCount: nat, newAt: nat, newCount: nat, lines: seq<Op>)

  /** Apply a patch to `before`, of which `read` lines are consumed and from which
      `written` lines have been produced. A hunk must find its old lines where its
      header says and leave its new lines where its header says. */
  function Apply(before: seq<string>, patch: seq<Placed>, read: nat, written: nat): Option<seq<string>>
    requires read <= |before|
    decreases |patch|
  {
    if patch == [] then Some(before[read..])
    else
      var h := patch[0];
      if && read <= h.oldAt <= h.oldAt + h.oldCount <= |before|
         && written + (h.oldAt - read) == h.newAt
         && OldText(h.lines) == before[h.oldAt..h.oldAt + h.oldCount]
         && |NewText(h.lines)| == h.newCount
      then
        match Apply(before, patch[1..], h.oldAt + h.oldCount, h.newAt + h.newCount)
        case None => None
        case Some(rest) => Some(before[read..h.oldAt] + NewText(h.lines) + rest)
      else None
  }

  // ----- spans: which lines are shown

  ghost predicate Changed(ops: seq<Op>, c: int) {
    0 <= c < |ops| && ops[c].tag != Keep
  }

  // Line `i` lies within `context` lines of a change.
  ghost predicate Near(ops: seq<Op>, context: nat, i: int) {
    exists c :: Changed(ops, c) && c - context <= i <= c + context
  }

  ghost predicate Covered(spans: seq<Span>, i: int) {
    exists k :: 0 <= k < |spans| && spans[k].lo <= i <= spans[k].hi
  }

  ghost predicate Separated(spans: seq<Span>) {
    && (forall k :: 0 <= k < |spans| ==> spans[k].lo <= spans[k].hi)
    && (forall j, k :: 0 <= j < k < |spans| ==> spans[j].hi + 1 < spans[k].lo)
  }

  /** The spans are in order, at least one line apart, and show exactly the lines
      within `context` of a change. */
  ghost predicate Groups(ops: seq<Op>, context: nat, spans: seq<Span>) {
    && Separated(spans)
    && (forall k :: 0 <= k < |spans| ==> spans[k].hi < |ops|)
    && (forall i :: 0 <= i < |ops| ==> (Covered(spans, i) <==> Near(ops, context, i)))
  }

  // The changed lines, in order.
  method ChangedLines(ops: seq<Op>) returns (changed: seq<nat>)
    ensures forall c :: c in changed <==> Changed(ops, c)
    ensures forall j, k :: 0 <= j < k < |changed| ==> changed[j] < changed[k]
  {
    changed := [];
    for i := 0 to |ops|
      invariant forall c :: c in changed <==> c < i && Changed(ops, c)
      invariant forall j, k :: 0 <= j < k < |changed| ==> changed[j] < changed[k]
    {
      assert forall k :: 0 <= k < |changed| ==> changed[k] in changed;
      if ops[i].tag != Keep {
        changed := changed + [i];
      }
    }
  }

  // Line `i` lies within `context` lines of one of the first `n` changes.
  ghost predicate NearAny(changed: seq<nat>, n: nat, context: nat, i: int)
    requires n <= |changed|
  {
    exists k :: 0 <= k < n && changed[k] - context <= i <= changed[k] + context
  }

  function WindowStart(c: nat, context: nat): nat {
    if c >= context then c - context else 0
  }

  // Either way of adding a window covers what was covered, and the window.
  lemma {:induction false} CoverOneMore(spans: seq<Span>, next: seq<Span>, lo: nat, hi: nat, i: nat)
    requires
      || next == spans + [Span(lo, hi)]
      || (spans != [] && lo <= spans[|spans| - 1].hi + 1 && spans[|spans| - 1].lo <= lo <= hi
          && next == spans[..|spans| - 1] + [Span(spans[|spans| - 1].lo, Max(spans[|spans| - 1].hi, hi))])
    ensures Covered(next, i) <==> Covered(spans, i) || lo <= i <= hi
  {
    if Covered(spans, i) {
      var k :| 0 <= k < |spans| && spans[k].lo <= i <= spans[k].hi;
      assert next[k].lo <= i <= next[k].hi;
    }
    if lo <= i <= hi {
      assert next[|next| - 1].lo <= i <= next[|next| - 1].hi;
    }
    if Covered(next, i) && !(lo <= i <= hi) {
      var k :| 0 <= k < |next| && next[k].lo <= i <= next[k].hi;
      if k < |next| - 1 || next != spans + [Span(lo, hi)] {
        assert spans[k].lo <= i <= spans[k].hi;
      }
    }
  }

  // One window: it joins the last group if it touches it, and starts one otherwise.
  method AddWindow(spans: seq<Span>, lo: nat, hi: nat) returns (next: seq<Span>)
    requires Separated(spans) && lo <= hi
    requires spans != [] ==> spans[|spans| - 1].lo <= lo && spans[|spans| - 1].hi <= hi
    ensures Separated(next) && next != []
    ensures next[|next| - 1].lo <= lo && next[|next| - 1].hi == hi
    ensures forall k :: 0 <= k < |next| - 1 ==> k < |spans| && next[k] == spans[k]
    ensures forall i :: i >= 0 ==> (Covered(next, i) <==> Covered(spans, i) || lo <= i <= hi)
  {
    if spans != [] && lo <= spans[|spans| - 1].hi + 1 {
      var last := spans[|spans| - 1];
      next := spans[..|spans| - 1] + [Span(last.lo, Max(last.hi, hi))];
    } else {
      next := spans + [Span(lo, hi)];
    }
    forall i: int | i >= 0
      ensures Covered(next, i) <==> Covered(spans, i) || lo <= i <= hi
    {
      CoverOneMore(spans, next, lo, hi, i);
    }
  }

  lemma {:induction false} NearOneMore(changed: seq<nat>, n: nat, context: nat, i: nat)
    requires n < |changed|
    ensures NearAny(changed, n + 1, context, i) <==>
            NearAny(changed, n, context, i) || WindowStart(changed[n], context) <= i <= changed[n] + context
  {
    if changed[n] - context <= i <= changed[n] + context {
      assert NearAny(changed, n + 1, context, i);
    }
  }

  method MergeWindows(ops: seq<Op>, changed: seq<nat>, context: nat) returns (spans: seq<Span>)
    requires forall k :: 0 <= k < |changed| ==> changed[k] < |ops|
    requires forall j, k :: 0 <= j < k < |changed| ==> changed[j] < changed[k]
    ensures Separated(spans) && (changed != [] <==> spans != [])
    ensures forall k :: 0 <= k < |spans| ==> spans[k].hi < |ops|
    ensures forall i :: 0 <= i < |ops| ==> (Covered(spans, i) <==> NearAny(changed, |changed|, context, i))
  {
    spans := [];
    for n := 0 to |changed|
      invariant Separated(spans) && (n > 0 <==> spans != [])
      invariant forall k :: 0 <= k < |spans| ==> spans[k].hi < |ops|
      invariant n > 0 ==>
        && spans[|spans| - 1].lo <= WindowStart(changed[n - 1], context)
        && changed[n - 1] <= spans[|spans| - 1].hi <= changed[n - 1] + context
      invariant forall i :: 0 <= i < |ops| ==> (Covered(spans, i) <==> NearAny(changed, n, context, i))
    {
      var idx := changed[n];
      var lo := WindowStart(idx, context);
      var hi := if idx + context <= |ops| - 1 then idx + context else |ops| - 1;
      assert n > 0 ==> changed[n - 1] < idx;
      spans := AddWindow(spans, lo, hi);
      forall i | 0 <= i < |ops|
        ensures Covered(spans, i) <==> NearAny(changed, n + 1, context, i)
      {
        NearOneMore(changed, n, context, i);
      }
    }
  }

  // ----- hunks: header arithmetic

  // Number of the first line of a side in a group, if the group has one.
  function FirstOld(slice: seq<Op>): Option<nat> {
    if slice == [] then None
    else if slice[0].oldLine.Some? then slice[0].oldLine
    else FirstOld(slice[1..])
  }

  function FirstNew(slice: seq<Op>): Option<nat> {
    if slice == [] then None
    else if slice[0].newLine.Some? then slice[0].newLine
    else FirstNew(slice[1..])
  }

  function CountOld(slice: seq<Op>): nat {
    if slice == [] then 0 else (if slice[0].oldLine.Some? then 1 else 0) + CountOld(slice[1..])
  }

  function CountNew(slice: seq<Op>): nat {
    if slice == [] then 0 else (if slice[0].newLine.Some? then 1 else 0) + CountNew(slice[1..])
  }

  // A group without a line of a side states line 1 for it.
  function StartOr(first: Option<nat>): nat {
    match first case Some(line) => line case None => 1
  }

  function HunkOf(slice: seq<Op>): Hunk {
    Hunk(StartOr(FirstOld(slice)), CountOld(slice), StartOr(FirstNew(slice)), CountNew(slice), slice)
  }

  function Slice(ops: seq<Op>, span: Span): seq<Op>
    requires span.lo <= span.hi < |ops|
  {
    ops[span.lo..span.hi + 1]
  }

  /** The position a printed header gives. An empty range is printed as the line just
      before it, any other as its first line; both say how many lines stand before. */
  function Place(h: Hunk): Placed {
    Placed(if h.oldStart == 0 then 0 else h.oldStart - 1, h.oldCount,
           if h.newStart == 0 then 0 else h.newStart - 1, h.newCount, h.lines)
  }

  lemma {:induction false} TextOfSlice(ops: seq<Op>, lo: nat, hi: nat)
    requires lo <= hi <= |ops|
    ensures OldText(ops[..hi]) == OldText(ops[..lo]) + OldText(ops[lo..hi])
    ensures NewText(ops[..hi]) == NewText(ops[..lo]) + NewText(ops[lo..hi])
  {
    assert ops[..hi] == ops[..lo] + ops[lo..hi];
    Concat(ops[..lo], ops[lo..hi]);
  }

  lemma {:induction false} TextOfRest(ops: seq<Op>, lo: nat, hi: nat)
    requires lo <= hi <= |ops|
    ensures OldText(ops[lo..]) == OldText(ops[lo..hi]) + OldText(ops[hi..])
    ensures NewText(ops[lo..]) == NewText(ops[lo..hi]) + NewText(ops[hi..])
  {
    assert ops[lo..] == ops[lo..hi] + ops[hi..];
    Concat(ops[lo..hi], ops[hi..]);
  }

  lemma {:induction false} NumberedText(op: Op)
    ensures OldText([op]) == if op.tag == Insert then [] else [op.text]
    ensures NewText([op]) == if op.tag == Delete then [] else [op.text]
  {
    assert [op][1..] == [];
  }

  lemma {:induction false} LengthOfNext(ops: seq<Op>, lo: nat)
    requires lo < |ops|
    ensures |OldText(ops[..lo + 1])| == |OldText(ops[..lo])| + if ops[lo].tag == Insert then 0 else 1
    ensures |NewText(ops[..lo + 1])| == |NewText(ops[..lo])| + if ops[lo].tag == Delete then 0 else 1
  {
    TextOfSlice(ops, lo, lo + 1);
    assert ops[lo..lo + 1] == [ops[lo]];
    NumberedText(ops[lo]);
  }

  // A side's first number in a slice is one more than the lines before the slice.
  lemma {:induction false} OldNumbers(ops: seq<Op>, lo: nat, hi: nat)
    requires Numbered(ops, 1, 1) && lo <= hi <= |ops|
    ensures FirstOld(ops[lo..hi]) == if OldText(ops[lo..hi]) == [] then None else Some(1 + |OldText(ops[..lo])|)
    ensures CountOld(ops[lo..hi]) == |OldText(ops[lo..hi])|
    decreases hi - lo
  {
    if lo < hi {
      assert NumberedAt(ops, lo, 1, 1);
      assert ops[lo..hi][1..] == ops[lo + 1..hi];
      OldNumbers(ops, lo + 1, hi);
      LengthOfNext(ops, lo);
    }
  }

  lemma {:induction false} NewNumbers(ops: seq<Op>, lo: nat, hi: nat)
    requires Numbered(ops, 1, 1) && lo <= hi <= |ops|
    ensures FirstNew(ops[lo..hi]) == if NewText(ops[lo..hi]) == [] then None else Some(1 + |NewText(ops[..lo])|)
    ensures CountNew(ops[lo..hi]) == |NewText(ops[lo..hi])|
    decreases hi - lo
  {
    if lo < hi {
      assert NumberedAt(ops, lo, 1, 1);
      assert ops[lo..hi][1..] == ops[lo + 1..hi];
      NewNumbers(ops, lo + 1, hi);
      LengthOfNext(ops, lo);
    }
  }

  /** The header of a group is right on both sides: a side shown empty has no line
      before the group either. */
  ghost predicate Anchored(ops: seq<Op>, span: Span)
    requires span.lo <= span.hi < |ops|
  {
    && (OldText(Slice(ops, span)) == [] ==> OldText(ops[..span.lo]) == [])
    && (NewText(Slice(ops, span)) == [] ==> NewText(ops[..span.lo]) == [])
  }

  lemma {:induction false} PlaceOfSlice(ops: seq<Op>, span: Span)
    requires Numbered(ops, 1, 1) && span.lo <= span.hi < |ops|
    ensures var p := Place(HunkOf(Slice(ops, span)));
            && p.oldCount == |OldText(Slice(ops, span))| && p.newCount == |NewText(Slice(ops, span))|
            && p.oldAt == (if p.oldCount == 0 then 0 else |OldText(ops[..span.lo])|)
            && p.newAt == (if p.newCount == 0 then 0 else |NewText(ops[..span.lo])|)
  {
    OldNumbers(ops, span.lo, span.hi + 1);
    NewNumbers(ops, span.lo, span.hi + 1);
  }

  function Patch(ops: seq<Op>, spans: seq<Span>): (patch: seq<Placed>)
    requires forall k :: 0 <= k < |spans| ==> spans[k].lo <= spans[k].hi < |ops|
  {
    if spans == [] then [] else [Place(HunkOf(Slice(ops, spans[0])))] + Patch(ops, spans[1..])
  }

  // Lines that are all kept read the same on both sides.
  lemma {:induction false} KeptText(ops: seq<Op>)
    requires forall i :: 0 <= i < |ops| ==> ops[i].tag == Keep
    ensures OldText(ops) == NewText(ops) && |OldText(ops)| == |ops|
  {
    if ops != [] {
      KeptText(ops[1..]);
    }
  }

  ghost predicate KeptOutside(ops: seq<Op>, from: nat, spans: seq<Span>) {
    forall i :: from <= i < |ops| && !Covered(spans, i) ==> ops[i].tag == Keep
  }

  // ----- the hunks

  function HunksOf(ops: seq<Op>, spans: seq<Span>): seq<Hunk>
    requires forall k :: 0 <= k < |spans| ==> spans[k].lo <= spans[k].hi < |ops|
  {
    if spans == [] then [] else [HunkOf(Slice(ops, spans[0]))] + HunksOf(ops, spans[1..])
  }

  lemma {:induction false} HunksOfSnoc(ops: seq<Op>, spans: seq<Span>, span: Span)
    requires forall k :: 0 <= k < |spans| ==> spans[k].lo <= spans[k].hi < |ops|
    requires span.lo <= span.hi < |ops|
    ensures HunksOf(ops, spans + [span]) == HunksOf(ops, spans) + [HunkOf(Slice(ops, span))]
  {
    if spans == [] {
      assert [] + [span] == [span];
    } else {
      assert (spans + [span])[1..] == spans[1..] + [span];
      HunksOfSnoc(ops, spans[1..], span);
    }
  }

  lemma {:induction false} NearIsNearAny(ops: seq<Op>, changed: seq<nat>, context: nat, i: int)
    requires forall c :: c in changed <==> Changed(ops, c)
    ensures Near(ops, context, i) <==> NearAny(changed, |changed|, context, i)
  {
    if Near(ops, context, i) {
      var c :| Changed(ops, c) && c - context <= i <= c + context;
      assert c in changed;
      var k :| 0 <= k < |changed| && changed[k] == c;
    }
    if NearAny(changed, |changed|, context, i) {
      var k :| 0 <= k < |changed| && changed[k] - context <= i <= changed[k] + context;
      assert changed[k] in changed;
    }
  }

  /** The hunks of a script: one for each group of lines within `context` of a change. */
  method GroupHunks(ops: seq<Op>, context: nat) returns (hunks: seq<Hunk>, spans: seq<Span>)
    ensures Groups(ops, context, spans)
    ensures hunks == HunksOf(ops, spans)
  {
    var changed := ChangedLines(ops);
    forall i
      ensures Near(ops, context, i) <==> NearAny(changed, |changed|, context, i)
    {
      NearIsNearAny(ops, changed, context, i);
    }
    forall k | 0 <= k < |changed|
      ensures changed[k] < |ops|
    {
      assert changed[k] in changed;
    }
    hunks := [];
    if changed == [] {
      spans := [];
      return;
    }
    var groups := MergeWindows(ops, changed, context);
    for k := 0 to |groups|
      invariant hunks == HunksOf(ops, groups[..k])
    {
      assert groups[..k + 1] == groups[..k] + [groups[k]];
      HunksOfSnoc(ops, groups[..k], groups[k]);
      hunks := hunks + [HunkOf(Slice(ops, groups[k]))];
    }
    assert groups[..|groups|] == groups;
    spans := groups;
  }
}
