/** The unified diff as text, and the reading of that text as a patch. */
module UnifiedDiff {
  import opened Common
  import opened EditScript
  import opened Hunks
  import opened HunkPatch
  import opened Lines
  import LineDiff

  // ----- printing

  // `l,c`; the count is left out when it is exactly 1.
  function RangeLabel(start: nat, count: nat): string {
    if count == 1 then Decimal(start)
    else if count == 0 then Decimal(if start == 0 then 0 else start - 1) + ",0"
    else Decimal(start) + "," + Decimal(count)
  }

  function Header(h: Hunk): string {
    "@@ -" + (RangeLabel(h.oldStart, h.oldCount) + (" +" + (RangeLabel(h.newStart, h.newCount) + " @@")))
  }

  function Mark(tag: Tag): char {
    match tag case Keep => ' ' case Delete => '-' case Insert => '+'
  }

  function Body(ops: seq<Op>): seq<string> {
    if ops == [] then [] else [[Mark(ops[0].tag)] + ops[0].text] + Body(ops[1..])
  }

  function Printed(hunks: seq<Hunk>): seq<string> {
    if hunks == [] then [] else [Header(hunks[0])] + Body(hunks[0].lines) + Printed(hunks[1..])
  }

  // ----- reading

  // A printed range: lines of the side before it, its line count, and the unread text.
  datatype Range = Range(at: nat, count: nat, rest: string)

  function ReadRange(text: string): Option<Range> {
    var n := DigitRun(text);
    if n == 0 then None
    else
      var start, rest := Value(text[..n]), text[n..];
      if rest != "" && rest[0] == ',' then
        var m := DigitRun(rest[1..]);
        if m == 0 then None
        else
          var count := Value(rest[1..][..m]);
          Some(Range(if count == 0 || start == 0 then start else start - 1, count, rest[1..][m..]))
      else Some(Range(if start == 0 then 0 else start - 1, 1, rest))
  }

  function ReadHeader(line: string): Option<(Range, Range)> {
    if |line| < 4 || line[..4] != "@@ -" then None
    else
      match ReadRange(line[4..])
      case None => None
      case Some(before) =>
        if |before.rest| < 2 || before.rest[..2] != " +" then None
        else
          match ReadRange(before.rest[2..])
          case None => None
          case Some(after) => if after.rest == " @@" then Some((before, after)) else None
  }

  predicate IsBody(line: string) {
    line != "" && (line[0] == ' ' || line[0] == '-' || line[0] == '+')
  }

  function BodyLength(lines: seq<string>): (n: nat)
    ensures n <= |lines| && forall k :: 0 <= k < n ==> IsBody(lines[k])
  {
    if lines != [] && IsBody(lines[0]) then 1 + BodyLength(lines[1..]) else 0
  }

  function ReadBody(lines: seq<string>): seq<Op>
    requires forall k :: 0 <= k < |lines| ==> IsBody(lines[k])
  {
    if lines == [] then []
    else
      assert IsBody(lines[0]);
      var tag := if lines[0][0] == ' ' then Keep else if lines[0][0] == '-' then Delete else Insert;
      [Op(tag, lines[0][1..], None, None)] + ReadBody(lines[1..])
  }

  function ReadHunks(lines: seq<string>): Option<seq<Placed>>
    decreases |lines|
  {
    if lines == [] then Some([])
    else
      match ReadHeader(lines[0])
      case None => None
      case Some((before, after)) =>
        var n := BodyLength(lines[1..]);
        match ReadHunks(lines[1..][n..])
        case None => None
        case Some(hunks) =>
          Some([Placed(before.at, before.count, after.at, after.count, ReadBody(lines[1..][..n]))] + hunks)
  }

  function FileLines(path: string): seq<string> {
    ["--- a/" + path, "+++ b/" + path]
  }

  /** Apply a printed diff of a file to its lines. No text is no change; otherwise the two file
      lines come before the hunks. */
  function ApplyText(path: string, before: seq<string>, unified: string): Option<seq<string>> {
    var head := Unlines(FileLines(path));
    if unified == "" then Some(before)
    else if !(head <= unified) then None
    else
      match ReadHunks(SplitLines(unified[|head|..]))
      case None => None
      case Some(patch) => Apply(before, patch, 0, 0)
  }

  // ----- reading undoes printing

  // A script without its line numbers, which the text does not carry.
  function Unnumbered(ops: seq<Op>): seq<Op> {
    if ops == [] then [] else [Op(ops[0].tag, ops[0].text, None, None)] + Unnumbered(ops[1..])
  }

  lemma {:induction false} UnnumberedText(ops: seq<Op>)
    ensures OldText(Unnumbered(ops)) == OldText(ops) && NewText(Unnumbered(ops)) == NewText(ops)
  {
    if ops != [] {
      UnnumberedText(ops[1..]);
    }
  }

  function UnnumberedHunks(patch: seq<Placed>): seq<Placed> {
    if patch == [] then []
    else [patch[0].(lines := Unnumbered(patch[0].lines))] + UnnumberedHunks(patch[1..])
  }

  lemma {:induction false} UnnumberedApply(before: seq<string>, patch: seq<Placed>, read: nat, written: nat)
    requires read <= |before|
    ensures Apply(before, UnnumberedHunks(patch), read, written) == Apply(before, patch, read, written)
    decreases |patch|
  {
    if patch != [] {
      var h := patch[0];
      UnnumberedText(h.lines);
      if h.oldAt + h.oldCount <= |before| {
        UnnumberedApply(before, patch[1..], h.oldAt + h.oldCount, h.newAt + h.newCount);
      }
      assert patch == [h] + patch[1..];
      ApplyCons(before, h, patch[1..], read, written);
      ApplyCons(before, h.(lines := Unnumbered(h.lines)), UnnumberedHunks(patch[1..]), read, written);
    }
  }

  lemma {:induction false} NumberReads(n: nat, rest: string)
    requires rest != "" ==> !IsDigit(rest[0])
    ensures var text := Decimal(n) + rest;
            && DigitRun(text) == |Decimal(n)| && text[..|Decimal(n)|] == Decimal(n) && text[|Decimal(n)|..] == rest
            && Value(text[..|Decimal(n)|]) == n
  {
    DecimalReads(n);
    DigitRunOf(Decimal(n), rest);
    assert (Decimal(n) + rest)[..|Decimal(n)|] == Decimal(n);
  }

  lemma {:induction false} ReadPair(text: string, n: nat, tail: string, m: nat)
    requires 0 < n == DigitRun(text) && text[n..] == "," + tail && 0 < m == DigitRun(tail)
    ensures var start := Value(text[..n]); var count := Value(tail[..m]);
            ReadRange(text) == Some(Range(if count == 0 || start == 0 then start else start - 1, count, tail[m..]))
  {
    assert ("," + tail)[1..] == tail;
  }

  lemma {:induction false} PairReads(start: nat, count: nat, rest: string)
    requires rest != "" && !IsDigit(rest[0])
    ensures ReadRange(Decimal(start) + ("," + (Decimal(count) + rest))) ==
            Some(Range(if count == 0 || start == 0 then start else start - 1, count, rest))
  {
    var tail := Decimal(count) + rest;
    NumberReads(start, "," + tail);
    NumberReads(count, rest);
    ReadPair(Decimal(start) + ("," + tail), |Decimal(start)|, tail, |Decimal(count)|);
  }

  lemma {:induction false} RangeReads(start: nat, count: nat, rest: string)
    requires rest != "" && !IsDigit(rest[0]) && rest[0] != ','
    ensures ReadRange(RangeLabel(start, count) + rest) == Some(Range(if start == 0 then 0 else start - 1, count, rest))
  {
    if count == 1 {
      NumberReads(start, rest);
    } else {
      var printed := if count == 0 then if start == 0 then 0 else start - 1 else start;
      assert Decimal(0) == "0";
      assert RangeLabel(start, count) + rest == Decimal(printed) + ("," + (Decimal(count) + rest));
      PairReads(printed, count, rest);
    }
  }

  // Two ranges that read are read from the header they stand in.
  lemma {:induction false} ReadBoth(first: string, second: string, before: Range, after: Range)
    requires ReadRange(first + (" +" + second)) == Some(before) && before.rest == " +" + second
    requires ReadRange(second) == Some(after) && after.rest == " @@"
    ensures ReadHeader("@@ -" + (first + (" +" + second))) == Some((before, after))
  {
    var line := "@@ -" + (first + (" +" + second));
    assert line[..4] == "@@ -" && line[4..] == first + (" +" + second);
    assert before.rest[..2] == " +" && before.rest[2..] == second;
  }

  lemma {:induction false} HeaderReads(h: Hunk)
    ensures var p := Place(h);
            ReadHeader(Header(h)) ==
              Some((Range(p.oldAt, p.oldCount, " +" + (RangeLabel(h.newStart, h.newCount) + " @@")),
                    Range(p.newAt, p.newCount, " @@")))
  {
    var first, second := RangeLabel(h.oldStart, h.oldCount), RangeLabel(h.newStart, h.newCount) + " @@";
    RangeReads(h.oldStart, h.oldCount, " +" + second);
    RangeReads(h.newStart, h.newCount, " @@");
    ReadBoth(first, second, ReadRange(first + (" +" + second)).value, ReadRange(second).value);
  }

  lemma {:induction false} BodyReads(ops: seq<Op>, rest: seq<string>)
    requires rest != [] ==> !IsBody(rest[0])
    ensures BodyLength(Body(ops) + rest) == |Body(ops)|
    ensures forall k :: 0 <= k < |Body(ops)| ==> IsBody(Body(ops)[k])
    ensures ReadBody(Body(ops)) == Unnumbered(ops)
  {
    var lines := Body(ops);
    if ops == [] {
      assert lines + rest == rest;
    } else {
      BodyReads(ops[1..], rest);
      assert (lines + rest)[1..] == Body(ops[1..]) + rest && lines[1..] == Body(ops[1..]);
      assert lines[0][1..] == ops[0].text;
      assert IsBody(lines[0]);
    }
  }

  lemma {:induction false} ReadOneMore(header: string, body: seq<string>, rest: seq<string>, before: Range,
                                       after: Range)
    requires ReadHeader(header) == Some((before, after))
    requires BodyLength(body + rest) == |body| && forall k :: 0 <= k < |body| ==> IsBody(body[k])
    ensures ReadHunks([header] + body + rest) ==
            match ReadHunks(rest)
            case None => None
            case Some(hunks) => Some([Placed(before.at, before.count, after.at, after.count, ReadBody(body))] + hunks)
  {
    var lines := [header] + body + rest;
    assert lines[0] == header && lines[1..] == body + rest;
    assert (body + rest)[|body|..] == rest && (body + rest)[..|body|] == body;
  }

  function Places(hunks: seq<Hunk>): seq<Placed> {
    if hunks == [] then [] else [Place(hunks[0])] + Places(hunks[1..])
  }

  lemma {:induction false} PlacesTail(hunks: seq<Hunk>)
    requires hunks != []
    ensures UnnumberedHunks(Places(hunks)) ==
            [Place(hunks[0]).(lines := Unnumbered(hunks[0].lines))] + UnnumberedHunks(Places(hunks[1..]))
  {
    assert Places(hunks)[1..] == Places(hunks[1..]);
  }

  lemma {:induction false} HunksRead(hunks: seq<Hunk>)
    ensures ReadHunks(Printed(hunks)) == Some(UnnumberedHunks(Places(hunks)))
    ensures hunks != [] ==> Printed(hunks) != [] && !IsBody(Printed(hunks)[0])
  {
    if hunks != [] {
      var h, rest := hunks[0], Printed(hunks[1..]);
      HunksRead(hunks[1..]);
      HeaderReads(h);
      BodyReads(h.lines, rest);
      ReadOneMore(Header(h), Body(h.lines), rest, ReadHeader(Header(h)).value.0, ReadHeader(Header(h)).value.1);
      PlacesTail(hunks);
    }
  }

  lemma {:induction false} PlacesOfGroups(ops: seq<Op>, spans: seq<Span>)
    requires forall k :: 0 <= k < |spans| ==> spans[k].lo <= spans[k].hi < |ops|
    ensures Places(HunksOf(ops, spans)) == Patch(ops, spans)
  {
    if spans != [] {
      PlacesOfGroups(ops, spans[1..]);
      assert HunksOf(ops, spans)[1..] == HunksOf(ops, spans[1..]);
    }
  }

  // ----- the whole diff

  datatype FileDiff = FileDiff(unified: string, added: LineDiff.uint32, removed: LineDiff.uint32, isNew: bool)

  function Text(path: string, hunks: seq<Hunk>): string {
    if hunks == [] then "" else Unlines(FileLines(path) + Printed(hunks))
  }

  lemma {:induction false} DecimalNewlineFree(n: nat)
    ensures '\n' !in Decimal(n)
  {
    if n >= 10 {
      DecimalNewlineFree(n / 10);
    }
  }

  lemma {:induction false} HeaderNewlineFree(h: Hunk)
    ensures '\n' !in Header(h)
  {
    DecimalNewlineFree(h.oldStart);
    DecimalNewlineFree(h.newStart);
    DecimalNewlineFree(if h.oldStart == 0 then 0 else h.oldStart - 1);
    DecimalNewlineFree(if h.newStart == 0 then 0 else h.newStart - 1);
    DecimalNewlineFree(h.oldCount);
    DecimalNewlineFree(h.newCount);
  }

  lemma {:induction false} BodyNewlineFree(ops: seq<Op>)
    requires forall k :: 0 <= k < |ops| ==> '\n' !in ops[k].text
    ensures NewlineFree(Body(ops))
  {
    if ops != [] {
      BodyNewlineFree(ops[1..]);
    }
  }

  lemma {:induction false} PrintedNewlineFree(ops: seq<Op>, spans: seq<Span>)
    requires forall k :: 0 <= k < |ops| ==> '\n' !in ops[k].text
    requires forall k :: 0 <= k < |spans| ==> spans[k].lo <= spans[k].hi < |ops|
    ensures NewlineFree(Printed(HunksOf(ops, spans)))
  {
    if spans != [] {
      var h := HunkOf(Slice(ops, spans[0]));
      HeaderNewlineFree(h);
      BodyNewlineFree(h.lines);
      PrintedNewlineFree(ops, spans[1..]);
      assert HunksOf(ops, spans)[1..] == HunksOf(ops, spans[1..]);
    }
  }

  // Every line of a script is a line of one of its sides.
  lemma {:induction false} OpTexts(ops: seq<Op>)
    ensures forall k :: 0 <= k < |ops| ==> ops[k].text in OldText(ops) || ops[k].text in NewText(ops)
  {
    if ops != [] {
      OpTexts(ops[1..]);
      forall k | 0 <= k < |ops|
        ensures ops[k].text in OldText(ops) || ops[k].text in NewText(ops)
      {
        assert k > 0 ==> ops[k] == ops[1..][k - 1];
      }
    }
  }

  lemma {:induction false} HeadAndHunks(path: string, hunks: seq<Hunk>)
    requires hunks != []
    ensures var head, text := Unlines(FileLines(path)), Text(path, hunks);
            text != "" && head <= text && text[|head|..] == Unlines(Printed(hunks))
  {
    UnlinesConcat(FileLines(path), Printed(hunks));
  }

  // Reading the printed hunks of a script applies them where their headers say.
  lemma {:induction false} TextApplies(path: string, ops: seq<Op>, context: nat, spans: seq<Span>)
    requires Numbered(ops, 1, 1) && Groups(ops, context, spans)
    requires forall k :: 0 <= k < |ops| ==> '\n' !in ops[k].text
    ensures ApplyText(path, OldText(ops), Text(path, HunksOf(ops, spans))) ==
            Apply(OldText(ops), Patch(ops, spans), 0, 0)
  {
    var hunks := HunksOf(ops, spans);
    if hunks != [] {
      HeadAndHunks(path, hunks);
      PrintedNewlineFree(ops, spans);
      SplitOfUnlines(Printed(hunks));
      HunksRead(hunks);
      PlacesOfGroups(ops, spans);
      UnnumberedApply(OldText(ops), Patch(ops, spans), 0, 0);
    }
  }

  lemma {:induction false} BodySnoc(ops: seq<Op>, op: Op)
    ensures Body(ops + [op]) == Body(ops) + [[Mark(op.tag)] + op.text]
  {
    if ops == [] {
      assert [] + [op] == [op];
    } else {
      assert (ops + [op])[1..] == ops[1..] + [op];
      BodySnoc(ops[1..], op);
    }
  }

  lemma {:induction false} PrintedSnoc(hunks: seq<Hunk>, h: Hunk)
    ensures Printed(hunks + [h]) == Printed(hunks) + ([Header(h)] + Body(h.lines))
  {
    if hunks == [] {
      assert [] + [h] == [h];
    } else {
      assert (hunks + [h])[1..] == hunks[1..] + [h];
      PrintedSnoc(hunks[1..], h);
    }
  }

  lemma {:induction false} UnlinesSnoc(lines: seq<string>, line: string)
    ensures Unlines(lines + [line]) == Unlines(lines) + line + "\n"
  {
    UnlinesConcat(lines, [line]);
    assert [line][1..] == [];
  }

  lemma {:induction false} BodyStep(ops: seq<Op>, k: nat)
    requires k < |ops|
    ensures Unlines(Body(ops[..k + 1])) == Unlines(Body(ops[..k])) + ([Mark(ops[k].tag)] + ops[k].text) + "\n"
  {
    assert ops[..k + 1] == ops[..k] + [ops[k]];
    BodySnoc(ops[..k], ops[k]);
    UnlinesSnoc(Body(ops[..k]), [Mark(ops[k].tag)] + ops[k].text);
  }

  // The lines of one hunk, each after its mark.
  method RenderBody(ops: seq<Op>) returns (text: string)
    ensures text == Unlines(Body(ops))
  {
    text := "";
    for k := 0 to |ops|
      invariant text == Unlines(Body(ops[..k]))
    {
      BodyStep(ops, k);
      text := text + ([Mark(ops[k].tag)] + ops[k].text) + "\n";
    }
    assert ops[..|ops|] == ops;
  }

  lemma {:induction false} PrintedStep(path: string, hunks: seq<Hunk>, k: nat)
    requires k < |hunks|
    ensures Unlines(FileLines(path) + Printed(hunks[..k + 1])) ==
            Unlines(FileLines(path) + Printed(hunks[..k])) + (Header(hunks[k]) + "\n" + Unlines(Body(hunks[k].lines)))
  {
    var h := hunks[k];
    var more := [Header(h)] + Body(h.lines);
    assert hunks[..k + 1] == hunks[..k] + [h];
    PrintedSnoc(hunks[..k], h);
    assert FileLines(path) + (Printed(hunks[..k]) + more) == FileLines(path) + Printed(hunks[..k]) + more;
    UnlinesConcat(FileLines(path) + Printed(hunks[..k]), more);
    assert more[1..] == Body(h.lines);
  }

  lemma {:induction false} FileLinesText(path: string)
    ensures Unlines(FileLines(path) + Printed([])) == "--- a/" + path + "\n+++ b/" + path + "\n"
  {
    var first, second := "--- a/" + path, "+++ b/" + path;
    assert FileLines(path) + Printed([]) == [first] + [second];
    UnlinesSnoc([], first);
    UnlinesSnoc([first], second);
    assert [] + [first] == [first];
  }

  method Render(path: string, hunks: seq<Hunk>) returns (unified: string)
    ensures unified == Text(path, hunks)
  {
    unified := "";
    if hunks != [] {
      unified := "--- a/" + path + "\n+++ b/" + path + "\n";
      FileLinesText(path);
      for k := 0 to |hunks|
        invariant unified == Unlines(FileLines(path) + Printed(hunks[..k]))
      {
        PrintedStep(path, hunks, k);
        var body := RenderBody(hunks[k].lines);
        unified := unified + (Header(hunks[k]) + "\n" + body);
      }
      assert hunks[..|hunks|] == hunks;
    }
  }

  function Inserted(ops: seq<Op>): nat {
    if ops == [] then 0 else (if ops[0].tag == Insert then 1 else 0) + Inserted(ops[1..])
  }

  function Deleted(ops: seq<Op>): nat {
    if ops == [] then 0 else (if ops[0].tag == Delete then 1 else 0) + Deleted(ops[1..])
  }

  /** Kept and deleted lines make up the old side, kept and inserted ones the new side. */
  lemma {:induction false} CountsAddUp(ops: seq<Op>)
    ensures Keeps(ops) + Deleted(ops) == |OldText(ops)| && Keeps(ops) + Inserted(ops) == |NewText(ops)|
  {
    if ops != [] {
      CountsAddUp(ops[1..]);
    }
  }

  lemma {:induction false} CountsConcat(a: seq<Op>, b: seq<Op>)
    ensures Inserted(a + b) == Inserted(a) + Inserted(b) && Deleted(a + b) == Deleted(a) + Deleted(b)
  {
    Concat(a, b);
    CountsAddUp(a);
    CountsAddUp(b);
    CountsAddUp(a + b);
  }

  // What a 32-bit counter shows of a count.
  function Counted(count: int): int {
    count % 0x1_0000_0000
  }

  // A counter in a release build wraps.
  method Increment(n: LineDiff.uint32, ghost count: nat) returns (next: LineDiff.uint32)
    requires n as int == Counted(count)
    ensures next as int == Counted(count + 1)
  {
    next := if n == 0xffff_ffff then 0 else n + 1;
  }

  // How many lines are inserted and deleted, as 32-bit counters show it.
  method CountChanges(ops: seq<Op>) returns (added: LineDiff.uint32, removed: LineDiff.uint32)
    ensures added as int == Counted(Inserted(ops)) && removed as int == Counted(Deleted(ops))
  {
    added, removed := 0, 0;
    for k := 0 to |ops|
      invariant added as int == Counted(Inserted(ops[..k])) && removed as int == Counted(Deleted(ops[..k]))
    {
      assert ops[..k + 1] == ops[..k] + [ops[k]] && [ops[k]][1..] == [];
      CountsConcat(ops[..k], [ops[k]]);
      match ops[k].tag {
        case Keep =>
        case Delete => removed := Increment(removed, Deleted(ops[..k]));
        case Insert => added := Increment(added, Inserted(ops[..k]));
      }
    }
    assert ops[..|ops|] == ops;
  }

  // A script of equal sides that keeps a longest common subsequence changes nothing.
  lemma {:induction false} AllKept(ops: seq<Op>)
    ensures Keeps(ops) <= |ops|
    ensures Keeps(ops) == |ops| <==> forall k :: 0 <= k < |ops| ==> ops[k].tag == Keep
  {
    if ops != [] {
      AllKept(ops[1..]);
      assert forall k :: 0 < k < |ops| ==> ops[k] == ops[1..][k - 1];
    }
  }

  lemma {:induction false} TrimmedWhole(a: seq<string>, k: nat)
    requires k <= |a|
    ensures LineDiff.PrefixFrom(a, a, k) == |a|
    decreases |a| - k
  {
    if k < |a| {
      TrimmedWhole(a, k + 1);
    }
  }

  lemma {:induction false} NoGroupsIffNoChanges(ops: seq<Op>, context: nat, spans: seq<Span>)
    requires Groups(ops, context, spans)
    ensures spans == [] <==> forall k :: 0 <= k < |ops| ==> ops[k].tag == Keep
  {
    GroupsCoverChanges(ops, context, spans);
    if spans == [] {
      forall k | 0 <= k < |ops|
        ensures ops[k].tag == Keep
      {
        assert !Covered(spans, k);
      }
    } else {
      assert Covered(spans, spans[0].lo);
    }
  }

  lemma {:induction false} ChangesAndKeeps(ops: seq<Op>)
    ensures Changes(ops) + Keeps(ops) == |ops|
  {
    if ops != [] {
      ChangesAndKeeps(ops[1..]);
    }
  }

  // Equal line lists are exactly those whose diff shows no hunk.
  lemma {:induction false} NoHunksIffSame(ops: seq<Op>, before: seq<string>, after: seq<string>, context: nat,
                                          spans: seq<Span>)
    requires Transforms(ops, before, after) && Groups(ops, context, spans)
    requires LineDiff.WithinCap(before, after) ==> Keeps(ops) == Lcs(before, after)
    ensures HunksOf(ops, spans) == [] <==> before == after
  {
    NoGroupsIffNoChanges(ops, context, spans);
    AllKept(ops);
    ChangesFromKeeps(ops);
    if Keeps(ops) == |ops| {
      KeptText(ops);
    }
    if before == after {
      TrimmedWhole(before, 0);
      LcsCommonPrefix(before, [], []);
      assert before + [] == before;
      ChangesAndKeeps(ops);
    }
  }

  lemma {:induction false} ScriptNewlineFree(ops: seq<Op>, oldText: string, newText: string)
    requires Transforms(ops, SplitLines(oldText), SplitLines(newText))
    ensures forall k :: 0 <= k < |ops| ==> '\n' !in ops[k].text
  {
    SplitLinesIsNewlineFree(oldText);
    SplitLinesIsNewlineFree(newText);
    OpTexts(ops);
  }

  lemma {:induction false} DiffApplies(path: string, ops: seq<Op>, oldText: string, newText: string, context: nat,
                                       spans: seq<Span>)
    requires LineDiff.Script(ops, SplitLines(oldText), SplitLines(newText), 1, 1) && Groups(ops, context, spans)
    ensures ApplyText(path, SplitLines(oldText), Text(path, HunksOf(ops, spans))) == Some(SplitLines(newText)) <==>
            context >= 1 || !exists lo, hi :: BareRun(ops, lo, hi)
    ensures Text(path, HunksOf(ops, spans)) == "" <==> HunksOf(ops, spans) == []
  {
    ScriptNewlineFree(ops, oldText, newText);
    TextApplies(path, ops, context, spans);
    PatchReproducesNew(ops, context, spans);
    if HunksOf(ops, spans) != [] {
      HeadAndHunks(path, HunksOf(ops, spans));
    }
  }

  /** The diff of two texts. Read back as a patch, its text turns the old lines into the
      new ones; it is empty exactly for texts with the same lines; and its counts are
      those of a shortest script whenever the trimmed middles fit the table. The reader checks
      new positions, too: without context that refuses runs of deletions alone, which one that
      looks at old positions would place right. */
  method Diff(path: string, oldText: string, newText: string, context: nat) returns (d: FileDiff, ghost ops: seq<Op>)
    ensures LineDiff.Script(ops, SplitLines(oldText), SplitLines(newText), 1, 1)
    ensures ApplyText(path, SplitLines(oldText), d.unified) == Some(SplitLines(newText)) <==>
            context >= 1 || !exists lo, hi :: BareRun(ops, lo, hi)
    ensures d.unified == "" <==> SplitLines(oldText) == SplitLines(newText)
    ensures d.added as int == Counted(Inserted(ops)) && d.removed as int == Counted(Deleted(ops))
    ensures Keeps(ops) + Deleted(ops) == |SplitLines(oldText)| && Keeps(ops) + Inserted(ops) == |SplitLines(newText)|
    ensures LineDiff.WithinCap(SplitLines(oldText), SplitLines(newText)) ==>
      Keeps(ops) == Lcs(SplitLines(oldText), SplitLines(newText))
    ensures exists spans :: Groups(ops, context, spans) && d.unified == Text(path, HunksOf(ops, spans))
    ensures d.isNew <==> oldText == "" && newText != ""
  {
    var before, after := SplitLines(oldText), SplitLines(newText);
    var script := LineDiff.DiffOps(before, after);
    ops := script;
    var added, removed := CountChanges(script);
    var hunks, spans := GroupHunks(script, context);
    var unified := Render(path, hunks);
    d := FileDiff(unified, added, removed, before == [] && after != []);
    CountsAddUp(ops);
    NoHunksIffSame(ops, before, after, context, spans);
    DiffApplies(path, ops, oldText, newText, context, spans);
  }

  function OldSide(op: Op): seq<string> {
    if op.tag == Insert then [] else [op.text]
  }

  function NewSide(op: Op): seq<string> {
    if op.tag == Delete then [] else [op.text]
  }

  lemma {:induction false} OneKeep(op: Op)
    ensures Keeps([op]) == if op.tag == Keep then 1 else 0
  {
    assert [op][1..] == [];
  }

  lemma {:induction false} ThreeTexts(p: Op, q: Op, r: Op)
    ensures OldText([p, q, r]) == OldSide(p) + OldSide(q) + OldSide(r)
    ensures NewText([p, q, r]) == NewSide(p) + NewSide(q) + NewSide(r)
    ensures Keeps([p, q, r]) ==
      (if p.tag == Keep then 1 else 0) + (if q.tag == Keep then 1 else 0) + if r.tag == Keep then 1 else 0
  {
    assert [p, q, r] == [p] + [q] + [r];
    Concat([p] + [q], [r]);
    Concat([p], [q]);
    NumberedText(p);
    NumberedText(q);
    NumberedText(r);
    OneKeep(p);
    OneKeep(q);
    OneKeep(r);
  }

  lemma {:induction false} InTheMiddle(a: string, x: string, b: string, p: Op, q: Op, r: Op)
    requires a != x && x != b
    requires OldSide(p) + OldSide(q) + OldSide(r) == [a, b] && NewSide(p) + NewSide(q) + NewSide(r) == [a, x, b]
    ensures p.tag == Keep && q.tag == Insert && r.tag == Keep && p.text == a && q.text == x && r.text == b
  {
    var before, after := OldSide(p) + OldSide(q) + OldSide(r), NewSide(p) + NewSide(q) + NewSide(r);
    assert |OldSide(p)| + |OldSide(q)| + |OldSide(r)| == 2 && |NewSide(p)| + |NewSide(q)| + |NewSide(r)| == 3;
    assert after[0] == p.text && after[1] == q.text && after[2] == r.text;
    assert before[0] == if p.tag == Insert then q.text else p.text;
    assert before[1] == if r.tag == Insert then q.text else r.text;
  }

  // The one script that keeps both lines.
  lemma {:induction false} OnlyScript(a: string, x: string, b: string, ops: seq<Op>)
    requires a != x && x != b
    requires LineDiff.Script(ops, [a, b], [a, x, b], 1, 1) && Keeps(ops) >= 2
    ensures ops == [Op(Keep, a, Some(1), Some(1)), Op(Insert, x, None, Some(2)), Op(Keep, b, Some(2), Some(3))]
  {
    CountsAddUp(ops);
    ChangesFromKeeps(ops);
    ChangesAndKeeps(ops);
    assert ops == [ops[0], ops[1], ops[2]];
    ThreeTexts(ops[0], ops[1], ops[2]);
    assert NumberedAt(ops, 0, 1, 1) && NumberedAt(ops, 1, 1, 1) && NumberedAt(ops, 2, 1, 1);
    assert [a, b][0] == a && [a, b][1] == b && [a, x, b][0] == a && [a, x, b][1] == x && [a, x, b][2] == b;
    InTheMiddle(a, x, b, ops[0], ops[1], ops[2]);
    assert ops[..0] == [] && ops[..1] == [ops[0]] && ops[..2] == [ops[0]] + [ops[1]];
    Concat([ops[0]], [ops[1]]);
    NumberedText(ops[0]);
    NumberedText(ops[1]);
  }

  lemma {:induction false} OnlyGroup(ops: seq<Op>, spans: seq<Span>)
    requires |ops| == 3 && ops[0].tag == Keep && ops[1].tag == Insert && ops[2].tag == Keep
    requires Groups(ops, 0, spans)
    ensures spans == [Span(1, 1)]
  {
    assert |spans| > 1 ==> spans[0].hi + 1 < spans[1].lo;
    assert Changed(ops, 1);
    assert Near(ops, 0, 1) && !Near(ops, 0, 0) && !Near(ops, 0, 2);
    var k :| 0 <= k < |spans| && spans[k].lo <= 1 <= spans[k].hi;
    forall j | 0 <= j < |spans|
      ensures spans[j] == Span(1, 1)
    {
      assert spans[j].lo <= spans[j].hi < 3;
      assert Covered(spans, spans[j].lo) && Covered(spans, spans[j].hi);
    }
    assert spans == [spans[0]];
  }

  lemma {:induction false} InsertionScript(a: string, x: string, b: string, ops: seq<Op>)
    requires ops == [Op(Keep, a, Some(1), Some(1)), Op(Insert, x, None, Some(2)), Op(Keep, b, Some(2), Some(3))]
    ensures LineDiff.Script(ops, [a, b], [a, x, b], 1, 1)
  {
    var before, after := [a, b], [a, x, b];
    assert before[..0] == [] && after[..0] == [];
    LineDiff.PushKeep([], before, after, 0, 0, 1, 1);
    assert [] + [ops[0]] == [ops[0]];
    LineDiff.PushInsert([ops[0]], before, after, 1, 1, 1, 1);
    assert [ops[0]] + [ops[1]] == [ops[0], ops[1]];
    LineDiff.PushKeep([ops[0], ops[1]], before, after, 1, 2, 1, 1);
    assert [ops[0], ops[1]] + [ops[2]] == ops;
    assert before[..2] == before && after[..3] == after;
  }

  lemma {:induction false} OneInserted(op: Op)
    requires op.tag == Insert && op.oldLine == None && op.newLine == Some(2)
    ensures Header(HunkOf([op])) == "@@ -0,0 +2 @@"
  {
    var none: seq<Op> := [op][1..];
    assert none == [];
    assert FirstOld(none) == None && CountOld(none) == 0 && CountNew(none) == 0;
    assert FirstOld([op]) == FirstOld(none) && CountOld([op]) == CountOld(none);
    var h := HunkOf([op]);
    assert h.oldStart == 1 && h.oldCount == 0 && h.newStart == 2 && h.newCount == 1;
    assert Decimal(0) == "0" && Decimal(2) == "2";
    assert RangeLabel(1, 0) == "0" + ",0" == "0,0" && RangeLabel(2, 1) == "2";
    assert "2" + " @@" == "2 @@" && " +" + "2 @@" == " +2 @@" && "0,0" + " +2 @@" == "0,0 +2 @@";
  }

  /** Without context, a new line between two old ones gets the header of an insertion before the
      first line, whatever script the diff finds, and the patch does not apply. */
  lemma {:induction false} InsertionWithoutContext(a: string, x: string, b: string, ops: seq<Op>, spans: seq<Span>)
    requires a != x && x != b
    requires LineDiff.Script(ops, [a, b], [a, x, b], 1, 1) && Keeps(ops) == Lcs([a, b], [a, x, b])
    requires Groups(ops, 0, spans)
    ensures |HunksOf(ops, spans)| == 1 && Header(HunksOf(ops, spans)[0]) == "@@ -0,0 +2 @@"
    ensures Apply([a, b], Patch(ops, spans), 0, 0) != Some([a, x, b])
  {
    var found := [Op(Keep, a, Some(1), Some(1)), Op(Insert, x, None, Some(2)), Op(Keep, b, Some(2), Some(3))];
    InsertionScript(a, x, b, found);
    NoScriptKeepsMore(found);
    ThreeTexts(found[0], found[1], found[2]);
    OnlyScript(a, x, b, ops);
    OnlyGroup(ops, spans);
    assert BareRun(ops, 1, 1);
    PatchReproducesNew(ops, 0, spans);
    assert spans[1..] == [];
    assert Slice(ops, spans[0]) == [ops[1]];
    OneInserted(ops[1]);
  }
}
