/** What the hunks of a script do when applied as a patch. */
module HunkPatch {
  import opened Common
  import opened EditScript
  import opened Hunks

  ghost predicate AllAnchored(ops: seq<Op>, spans: seq<Span>)
    requires forall k :: 0 <= k < |spans| ==> spans[k].lo <= spans[k].hi < |ops|
  {
    forall k :: 0 <= k < |spans| ==> Anchored(ops, spans[k])
  }

  // The kept lines between two groups, and the text of the group after them.
  lemma {:induction false} GapText(ops: seq<Op>, spans: seq<Span>, from: nat)
    requires Separated(spans) && spans != [] && from <= spans[0].lo && spans[0].hi < |ops|
    requires KeptOutside(ops, from, spans)
    ensures var lo := spans[0].lo;
            var gap := OldText(ops[from..lo]);
            && gap == NewText(ops[from..lo]) && |gap| == lo - from
            && OldText(ops[..lo]) == OldText(ops[..from]) + gap
            && NewText(ops[..lo]) == NewText(ops[..from]) + gap
  {
    var lo := spans[0].lo;
    forall i | from <= i < lo
      ensures ops[i].tag == Keep
    {
      assert !Covered(spans, i);
    }
    KeptText(ops[from..lo]);
    TextOfSlice(ops, from, lo);
  }

  lemma {:induction false} OneSideShown(slice: seq<Op>)
    requires slice != []
    ensures OldText(slice) != [] || NewText(slice) != []
  {
  }

  lemma {:induction false} PrefixOf(a: seq<string>, b: seq<string>, c: seq<string>)
    ensures (a + b + c)[..|a|] == a
    ensures (a + b + c)[|a|..|a| + |b|] == b
    ensures (a + b + c)[|a| + |b|..] == c
  {
  }

  // The old file around a group: read part, gap, the group's old lines, the rest.
  lemma {:induction false} OldAround(ops: seq<Op>, from: nat, lo: nat, end: nat)
    requires from <= lo <= end <= |ops|
    ensures var r := |OldText(ops[..from])|; var g := |OldText(ops[from..lo])|; var o := |OldText(ops[lo..end])|;
            && r + g + o == |OldText(ops[..end])| <= |OldText(ops)|
            && OldText(ops)[r..r + g] == OldText(ops[from..lo])
            && OldText(ops)[r + g..r + g + o] == OldText(ops[lo..end])
  {
    TextOfSlice(ops, from, lo);
    TextOfSlice(ops, lo, end);
    TextOfSlice(ops, end, |ops|);
    assert ops[..|ops|] == ops && ops[end..|ops|] == ops[end..];
    var a, b, c, d := OldText(ops[..from]), OldText(ops[from..lo]), OldText(ops[lo..end]), OldText(ops[end..]);
    assert OldText(ops) == ((a + b) + c) + d;
    PrefixOf(a, b, c + d);
    PrefixOf(a + b, c, d);
    assert ((a + b) + c) + d == a + b + (c + d);
  }

  lemma {:induction false} KeptOutsideRest(ops: seq<Op>, spans: seq<Span>, from: nat)
    requires Separated(spans) && spans != [] && from <= spans[0].lo && spans[0].hi < |ops|
    requires KeptOutside(ops, from, spans)
    ensures Separated(spans[1..]) && KeptOutside(ops, spans[0].hi + 1, spans[1..])
  {
    forall i | spans[0].hi + 1 <= i < |ops|
      ensures Covered(spans, i) ==> Covered(spans[1..], i)
    {
      if Covered(spans, i) {
        var k :| 0 <= k < |spans| && spans[k].lo <= i <= spans[k].hi;
        assert spans[1..][k - 1].lo <= i <= spans[1..][k - 1].hi;
      }
    }
  }

  // Whether the head hunk's stated position is the one where it applies.
  lemma {:induction false} HeadApplies(ops: seq<Op>, spans: seq<Span>, from: nat)
    requires Numbered(ops, 1, 1)
    requires Separated(spans) && spans != [] && from <= spans[0].lo && spans[0].hi < |ops|
    requires KeptOutside(ops, from, spans)
    ensures var h := Place(HunkOf(Slice(ops, spans[0])));
            var read := |OldText(ops[..from])|; var written := |NewText(ops[..from])|;
            var gap := spans[0].lo - from;
            && h.oldCount == |OldText(Slice(ops, spans[0]))| && h.newCount == |NewText(Slice(ops, spans[0]))|
            && (Anchored(ops, spans[0]) ==> h.oldAt == read + gap && h.newAt == written + gap)
            && (!Anchored(ops, spans[0]) ==> !(read <= h.oldAt && written + (h.oldAt - read) == h.newAt))
  {
    GapText(ops, spans, from);
    PlaceOfSlice(ops, spans[0]);
    OneSideShown(Slice(ops, spans[0]));
  }

  lemma {:induction false} ApplyCons(before: seq<string>, h: Placed, tail: seq<Placed>, read: nat, written: nat)
    requires read <= |before|
    ensures Apply(before, [h] + tail, read, written) ==
      if && read <= h.oldAt <= h.oldAt + h.oldCount <= |before|
         && written + (h.oldAt - read) == h.newAt
         && OldText(h.lines) == before[h.oldAt..h.oldAt + h.oldCount]
         && |NewText(h.lines)| == h.newCount
      then
        match Apply(before, tail, h.oldAt + h.oldCount, h.newAt + h.newCount)
        case None => None
        case Some(rest) => Some(before[read..h.oldAt] + NewText(h.lines) + rest)
      else None
  {
    assert ([h] + tail)[1..] == tail;
  }

  lemma {:induction false} HeadFits(ops: seq<Op>, spans: seq<Span>, from: nat)
    requires Numbered(ops, 1, 1)
    requires Separated(spans) && spans != [] && from <= spans[0].lo && spans[0].hi < |ops|
    requires KeptOutside(ops, from, spans) && Anchored(ops, spans[0])
    ensures var h := Place(HunkOf(Slice(ops, spans[0])));
            var before := OldText(ops); var lo := spans[0].lo; var end := spans[0].hi + 1;
            var read := |OldText(ops[..from])|; var written := |NewText(ops[..from])|;
            && read <= h.oldAt <= h.oldAt + h.oldCount <= |before|
            && h.oldAt + h.oldCount == |OldText(ops[..end])| && h.newAt + h.newCount == |NewText(ops[..end])|
            && written + (h.oldAt - read) == h.newAt
            && OldText(h.lines) == before[h.oldAt..h.oldAt + h.oldCount]
            && |NewText(h.lines)| == h.newCount
            && before[read..h.oldAt] == NewText(ops[from..lo]) && h.lines == ops[lo..end]
  {
    var lo, end := spans[0].lo, spans[0].hi + 1;
    HeadApplies(ops, spans, from);
    GapText(ops, spans, from);
    OldAround(ops, from, lo, end);
    assert |NewText(ops[..end])| == |NewText(ops[..lo])| + |NewText(ops[lo..end])| by {
      TextOfSlice(ops, lo, end);
    }
  }

  // A head hunk that fits: copy up to it, write its new lines, go on after it.
  lemma {:induction false} ApplyFits(before: seq<string>, h: Placed, tail: seq<Placed>, read: nat, written: nat,
                                     r: nat, w: nat)
    requires read <= h.oldAt <= h.oldAt + h.oldCount == r <= |before| && w == h.newAt + h.newCount
    requires written + (h.oldAt - read) == h.newAt
    requires OldText(h.lines) == before[h.oldAt..r] && |NewText(h.lines)| == h.newCount
    ensures Apply(before, [h] + tail, read, written) ==
      match Apply(before, tail, r, w)
      case None => None
      case Some(rest) => Some(before[read..h.oldAt] + NewText(h.lines) + rest)
  {
    ApplyCons(before, h, tail, read, written);
  }

  // One anchored hunk: copies the gap, writes its new lines, and leaves the position after it.
  lemma {:induction false} ApplyHead(ops: seq<Op>, spans: seq<Span>, from: nat)
    requires Numbered(ops, 1, 1)
    requires Separated(spans) && (forall k :: 0 <= k < |spans| ==> spans[k].hi < |ops|)
    requires spans != [] && from <= spans[0].lo
    requires KeptOutside(ops, from, spans) && Anchored(ops, spans[0])
    ensures var before := OldText(ops); var lo := spans[0].lo; var end := spans[0].hi + 1;
            && |OldText(ops[..from])| <= |before| && |OldText(ops[..end])| <= |before|
            && Apply(before, Patch(ops, spans), |OldText(ops[..from])|, |NewText(ops[..from])|) ==
               match Apply(before, Patch(ops, spans[1..]), |OldText(ops[..end])|, |NewText(ops[..end])|)
               case None => None
               case Some(rest) => Some(NewText(ops[from..lo]) + NewText(ops[lo..end]) + rest)
  {
    HeadFits(ops, spans, from);
    var end := spans[0].hi + 1;
    ApplyFits(OldText(ops), Place(HunkOf(Slice(ops, spans[0]))), Patch(ops, spans[1..]),
              |OldText(ops[..from])|, |NewText(ops[..from])|, |OldText(ops[..end])|, |NewText(ops[..end])|);
  }

  lemma {:induction false} RejectHead(ops: seq<Op>, spans: seq<Span>, from: nat)
    requires Numbered(ops, 1, 1)
    requires Separated(spans) && (forall k :: 0 <= k < |spans| ==> spans[k].hi < |ops|)
    requires spans != [] && from <= spans[0].lo
    requires KeptOutside(ops, from, spans) && !Anchored(ops, spans[0])
    requires |OldText(ops[..from])| <= |OldText(ops)|
    ensures Apply(OldText(ops), Patch(ops, spans), |OldText(ops[..from])|, |NewText(ops[..from])|) == None
  {
    HeadApplies(ops, spans, from);
    ApplyCons(OldText(ops), Place(HunkOf(Slice(ops, spans[0]))), Patch(ops, spans[1..]),
              |OldText(ops[..from])|, |NewText(ops[..from])|);
  }

  lemma {:induction false} NewFrom(ops: seq<Op>, from: nat, lo: nat, end: nat)
    requires from <= lo <= end <= |ops|
    ensures NewText(ops[from..]) == NewText(ops[from..lo]) + NewText(ops[lo..end]) + NewText(ops[end..])
  {
    TextOfRest(ops, from, lo);
    TextOfRest(ops, lo, end);
  }

  lemma {:induction false} ApplyNothing(ops: seq<Op>, from: nat)
    requires from <= |ops| && KeptOutside(ops, from, []) && |OldText(ops[..from])| <= |OldText(ops)|
    ensures Apply(OldText(ops), [], |OldText(ops[..from])|, |NewText(ops[..from])|) == Some(NewText(ops[from..]))
  {
    forall i | from <= i < |ops|
      ensures ops[i].tag == Keep
    {
      assert !Covered([], i);
    }
    KeptText(ops[from..]);
    TextOfSlice(ops, from, |ops|);
    assert ops[from..|ops|] == ops[from..] && ops[..|ops|] == ops;
  }

  lemma {:induction false} AnchoredHeadTail(ops: seq<Op>, spans: seq<Span>)
    requires spans != [] && forall k :: 0 <= k < |spans| ==> spans[k].lo <= spans[k].hi < |ops|
    requires Anchored(ops, spans[0])
    ensures AllAnchored(ops, spans) <==> AllAnchored(ops, spans[1..])
  {
    if AllAnchored(ops, spans[1..]) {
      forall k | 0 <= k < |spans|
        ensures Anchored(ops, spans[k])
      {
        assert k > 0 ==> spans[k] == spans[1..][k - 1];
      }
    }
  }

  /** Applying the groups' hunks, from just after line `from` of the script: the rest of
      the new file when every header is right, and a rejected patch when one is not. */
  lemma {:induction false} ApplyGroups(ops: seq<Op>, spans: seq<Span>, from: nat)
    requires Numbered(ops, 1, 1) && from <= |ops|
    requires Separated(spans) && (forall k :: 0 <= k < |spans| ==> spans[k].hi < |ops|)
    requires spans != [] ==> from <= spans[0].lo
    requires KeptOutside(ops, from, spans)
    requires |OldText(ops[..from])| <= |OldText(ops)|
    ensures Apply(OldText(ops), Patch(ops, spans), |OldText(ops[..from])|, |NewText(ops[..from])|)
         == if AllAnchored(ops, spans) then Some(NewText(ops[from..])) else None
    decreases |spans|
  {
    if spans == [] {
      ApplyNothing(ops, from);
    } else if !Anchored(ops, spans[0]) {
      assert !AllAnchored(ops, spans);
      RejectHead(ops, spans, from);
    } else {
      var end := spans[0].hi + 1;
      KeptOutsideRest(ops, spans, from);
      ApplyHead(ops, spans, from);
      ApplyGroups(ops, spans[1..], end);
      AnchoredHeadTail(ops, spans);
      assert NewText(ops[from..]) ==
             NewText(ops[from..spans[0].lo]) + NewText(ops[spans[0].lo..end]) + NewText(ops[end..]) by {
        NewFrom(ops, from, spans[0].lo, end);
      }
    }
  }

  // ----- when every header is right

  /** A maximal run of changes after the first line that shows one side only. */
  ghost predicate BareRun(ops: seq<Op>, lo: int, hi: int) {
    && 0 < lo <= hi < |ops|
    && !Changed(ops, lo - 1) && !Changed(ops, hi + 1)
    && ((forall i :: lo <= i <= hi ==> ops[i].tag == Insert) || (forall i :: lo <= i <= hi ==> ops[i].tag == Delete))
  }

  // A one-sided slice, either way.
  lemma {:induction false} OneSided(ops: seq<Op>)
    ensures OldText(ops) == [] <==> forall i :: 0 <= i < |ops| ==> ops[i].tag == Insert
    ensures NewText(ops) == [] <==> forall i :: 0 <= i < |ops| ==> ops[i].tag == Delete
  {
    if ops != [] {
      OneSided(ops[1..]);
      forall i | 0 < i < |ops|
        ensures ops[i] == ops[1..][i - 1]
      {
      }
    }
  }

  lemma {:induction false} OneSidedSlice(ops: seq<Op>, span: Span)
    requires span.lo <= span.hi < |ops|
    ensures OldText(Slice(ops, span)) == [] <==> forall i :: span.lo <= i <= span.hi ==> ops[i].tag == Insert
    ensures NewText(Slice(ops, span)) == [] <==> forall i :: span.lo <= i <= span.hi ==> ops[i].tag == Delete
  {
    var slice := Slice(ops, span);
    OneSided(slice);
    forall i | span.lo <= i <= span.hi
      ensures ops[i] == slice[i - span.lo]
    {
    }
  }

  // The lines just outside a group are not changes, whatever the context.
  lemma {:induction false} KeptNextToGroup(ops: seq<Op>, context: nat, spans: seq<Span>, k: nat)
    requires Groups(ops, context, spans) && k < |spans|
    ensures !Near(ops, context, spans[k].hi + 1) || spans[k].hi + 1 == |ops|
    ensures spans[k].lo > 0 ==> !Near(ops, context, spans[k].lo - 1)
  {
    assert !Covered(spans, spans[k].hi + 1);
    assert !Covered(spans, spans[k].lo - 1);
  }

  lemma {:induction false} ChangedIsNear(ops: seq<Op>, context: nat, c: int, i: int)
    requires Changed(ops, c) && c - context <= i <= c + context
    ensures Near(ops, context, i)
  {
  }

  // A line before a group that is not a change stands on both sides.
  lemma {:induction false} TextBefore(ops: seq<Op>, lo: nat)
    requires 0 < lo <= |ops| && ops[lo - 1].tag == Keep
    ensures OldText(ops[..lo]) != [] && NewText(ops[..lo]) != []
  {
    TextOfSlice(ops, lo - 1, lo);
    assert ops[lo - 1..lo] == [ops[lo - 1]];
    NumberedText(ops[lo - 1]);
  }

  lemma {:induction false} AnchoredWithContext(ops: seq<Op>, context: nat, spans: seq<Span>)
    requires Groups(ops, context, spans) && context >= 1
    ensures AllAnchored(ops, spans)
  {
    forall k | 0 <= k < |spans|
      ensures Anchored(ops, spans[k])
    {
      var span := spans[k];
      if span.lo > 0 {
        KeptNextToGroup(ops, context, spans, k);
        if Changed(ops, span.lo) {
          ChangedIsNear(ops, context, span.lo, span.lo - 1);
        }
        OneSidedSlice(ops, span);
      }
    }
  }

  // Without context a group is exactly a maximal run of changes.
  lemma {:induction false} GroupIsRun(ops: seq<Op>, spans: seq<Span>, k: nat)
    requires Groups(ops, 0, spans) && k < |spans|
    ensures forall i :: spans[k].lo <= i <= spans[k].hi ==> Changed(ops, i)
    ensures !Changed(ops, spans[k].hi + 1) && !Changed(ops, spans[k].lo - 1)
  {
    KeptNextToGroup(ops, 0, spans, k);
    forall i | spans[k].lo <= i <= spans[k].hi
      ensures Changed(ops, i)
    {
      assert Covered(spans, i);
    }
    assert Changed(ops, spans[k].hi + 1) ==> Near(ops, 0, spans[k].hi + 1);
    assert Changed(ops, spans[k].lo - 1) ==> Near(ops, 0, spans[k].lo - 1);
  }

  lemma {:induction false} BareRunFromHeader(ops: seq<Op>, spans: seq<Span>, k: nat)
    requires Groups(ops, 0, spans) && k < |spans| && !Anchored(ops, spans[k])
    ensures BareRun(ops, spans[k].lo, spans[k].hi)
  {
    GroupIsRun(ops, spans, k);
    OneSidedSlice(ops, spans[k]);
  }

  lemma {:induction false} HeaderFromBareRun(ops: seq<Op>, spans: seq<Span>, lo: nat, hi: nat)
    requires Groups(ops, 0, spans) && BareRun(ops, lo, hi)
    ensures !AllAnchored(ops, spans)
  {
    ChangedIsNear(ops, 0, lo, lo);
    assert Covered(spans, lo);
    var k :| 0 <= k < |spans| && spans[k].lo <= lo <= spans[k].hi;
    GroupIsRun(ops, spans, k);
    assert spans[k].lo == lo;
    if spans[k].hi < hi { assert Changed(ops, spans[k].hi + 1); }
    assert spans[k].hi == hi;
    OneSidedSlice(ops, spans[k]);
    TextBefore(ops, lo);
    assert !Anchored(ops, spans[k]);
  }

  lemma {:induction false} GroupsCoverChanges(ops: seq<Op>, context: nat, spans: seq<Span>)
    requires Groups(ops, context, spans)
    ensures KeptOutside(ops, 0, spans)
  {
    forall i | 0 <= i < |ops| && !Covered(spans, i)
      ensures ops[i].tag == Keep
    {
      if Changed(ops, i) { ChangedIsNear(ops, context, i, i); }
    }
  }

  // Every header is right exactly when there is context, or no one-sided run to misplace.
  lemma {:induction false} HeadersRight(ops: seq<Op>, context: nat, spans: seq<Span>)
    requires Groups(ops, context, spans)
    ensures AllAnchored(ops, spans) <==> context >= 1 || !exists lo, hi :: BareRun(ops, lo, hi)
  {
    if context >= 1 {
      AnchoredWithContext(ops, context, spans);
    } else {
      if !AllAnchored(ops, spans) {
        var k :| 0 <= k < |spans| && !Anchored(ops, spans[k]);
        BareRunFromHeader(ops, spans, k);
      }
      if lo, hi :| BareRun(ops, lo, hi) {
        HeaderFromBareRun(ops, spans, lo, hi);
      }
    }
  }

  /** The patch theorem. Applied at the positions their headers state, the hunks of any
      script turn its old lines into its new lines - with one line of context or more
      always, and with none exactly when no run of changes shows one side only. */
  lemma {:induction false} PatchReproducesNew(ops: seq<Op>, context: nat, spans: seq<Span>)
    requires Numbered(ops, 1, 1) && Groups(ops, context, spans)
    ensures Apply(OldText(ops), Patch(ops, spans), 0, 0) == Some(NewText(ops)) <==>
            context >= 1 || !exists lo, hi :: BareRun(ops, lo, hi)
  {
    GroupsCoverChanges(ops, context, spans);
    assert ops[..0] == [] && ops[0..] == ops;
    ApplyGroups(ops, spans, 0);
    HeadersRight(ops, context, spans);
  }
}
