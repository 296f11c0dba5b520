/** When splitting a document leaves an empty chunk. */
module EmptyChunks {
  import opened Splitting
  import opened Whitespace
  import opened Chunks
  import opened ChunkLaws

  // ----- which chunks are empty

  /** A line that does not fit even by itself meets an empty buffer, which is then closed as a
      chunk. */
  predicate MeetsEmpty(lines: seq<string>, k: int, target: nat) {
    0 <= k < |lines| && |lines[k]| >= target && Buffer(lines, k, target) == ""
  }

  ghost predicate AnyMeetsEmpty(lines: seq<string>, n: nat, target: nat) {
    exists k :: k < n && MeetsEmpty(lines, k, target)
  }

  lemma {:induction false} OneMoreLine(lines: seq<string>, n: nat, target: nat)
    requires n < |lines|
    ensures AnyMeetsEmpty(lines, n + 1, target) <==> AnyMeetsEmpty(lines, n, target) || MeetsEmpty(lines, n, target)
  {
    if AnyMeetsEmpty(lines, n + 1, target) {
      var k :| k < n + 1 && MeetsEmpty(lines, k, target);
      assert k == n || k < n;
    }
    if AnyMeetsEmpty(lines, n, target) {
      var k :| k < n && MeetsEmpty(lines, k, target);
      assert k < n + 1;
    }
  }

  lemma {:induction false} CutsAreNotEmpty(line: string, target: nat)
    ensures "" !in Cuts(line, target)
  {
    forall k | 0 <= k < |Cuts(line, target)|
      ensures Cuts(line, target)[k] != ""
    {
      CutsAre(line, target, k);
    }
  }

  lemma {:induction false} EmptyInLine(buf: string, line: string, target: nat)
    ensures "" in ClosedBy(buf, line, target) <==> buf == "" && |line| >= target
  {
    CutsAreNotEmpty(line, target);
  }

  lemma {:induction false} EmptyAmongLines(lines: seq<string>, k: nat, target: nat)
    requires k <= |lines|
    ensures "" in ClosedByLines(lines, k, target) <==> AnyMeetsEmpty(lines, k, target)
  {
    if k > 0 {
      EmptyAmongLines(lines, k - 1, target);
      OneMoreLine(lines, k - 1, target);
      EmptyInLine(Buffer(lines, k - 1, target), lines[k - 1], target);
    }
  }

  /** A piece whose trimmed paragraph does not fit leaves an empty chunk if one of its lines
      meets an empty buffer. */
  ghost predicate LeavesEmpty(piece: string, target: nat) {
    var lines := TextLines(Trim(piece));
    |Trim(piece)| > target && AnyMeetsEmpty(lines, |lines|, target)
  }

  lemma {:induction false} EmptyInPiece(p: Progress, piece: string, target: nat)
    ensures "" in WithPiece(p, piece, target).chunks <==> "" in p.chunks || LeavesEmpty(piece, target)
  {
    var lines := TextLines(Trim(piece));
    EmptyAmongLines(lines, |lines|, target);
  }

  // Some piece does.
  ghost predicate AnyLeavesEmpty(pieces: seq<string>, target: nat) {
    exists k :: 0 <= k < |pieces| && LeavesEmpty(pieces[k], target)
  }

  lemma {:induction false} OneMorePiece(pieces: seq<string>, piece: string, target: nat)
    ensures AnyLeavesEmpty(pieces + [piece], target) <==> AnyLeavesEmpty(pieces, target) || LeavesEmpty(piece, target)
  {
    var all := pieces + [piece];
    assert all[|pieces|] == piece && forall k :: 0 <= k < |pieces| ==> all[k] == pieces[k];
  }

  lemma {:induction false} EmptyAmongPieces(pieces: seq<string>, k: nat, target: nat)
    requires k <= |pieces|
    ensures "" in WithPieces(pieces, k, target).chunks <==> AnyLeavesEmpty(pieces[..k], target)
  {
    if k > 0 {
      var p, piece := WithPieces(pieces, k - 1, target), pieces[k - 1];
      EmptyAmongPieces(pieces, k - 1, target);
      EmptyInPiece(p, piece, target);
      OneMorePiece(pieces[..k - 1], piece, target);
      PrefixSnoc(pieces, k);
    }
  }

  /** A chunk is empty exactly if a paragraph that does not fit leaves one. */
  lemma {:induction false} EmptyAmongChunks(text: string, target: nat)
    ensures "" in ChunksOf(text, target) <==> AnyLeavesEmpty(Paragraphs(text), target)
  {
    var pieces := Paragraphs(text);
    EmptyAmongPieces(pieces, |pieces|, target);
    assert pieces[..|pieces|] == pieces;
    TrimOfBlank(WithPieces(pieces, |pieces|, target).current);
  }

  // ----- the buffer

  // A cut inside a line leaves some of it.
  lemma {:induction false} WholeCut(line: string, cut: nat)
    requires cut < ByteLength(line) && IsCharBoundary(line, cut)
    ensures SplitAt(line, cut).1 != ""
  {
    CharsInBounds(line, cut);
    assert line[..|line|] == line;
  }

  lemma {:induction false} RestIsNotEmpty(line: string, target: nat)
    requires target > 0 && line != ""
    ensures CutRest(line, target) != ""
    decreases |line|
  {
    if |line| > target {
      CutIsInside(line, target);
      var tail := SplitAt(line, CutAt(line, target)).1;
      if CutAt(line, target) < ByteLength(line) && tail == "" {
        WholeCut(line, CutAt(line, target));
      }
      RestIsNotEmpty(tail, target);
    }
  }

  /** Past its first line the buffer of a paragraph is empty only behind a blank line, which found
      it empty or full. */
  lemma {:induction false} EmptyBehindBlank(lines: seq<string>, k: nat, target: nat)
    requires target > 0 && 0 < k <= |lines|
    ensures Buffer(lines, k, target) == "" <==>
      && lines[k - 1] == ""
      && (Buffer(lines, k - 1, target) == "" || |Buffer(lines, k - 1, target)| >= target)
  {
    if lines[k - 1] != "" {
      RestIsNotEmpty(lines[k - 1], target);
    }
  }

  /** No line as long as the target: no empty chunk. */
  lemma {:induction false} ShortLinesLeaveNone(lines: seq<string>, target: nat)
    requires forall k :: 0 <= k < |lines| ==> |lines[k]| < target
    ensures !AnyMeetsEmpty(lines, |lines|, target)
  {
  }

  /** Without blank lines only the first line can meet an empty buffer. */
  lemma {:induction false} FirstLineDecides(lines: seq<string>, target: nat)
    requires lines != [] && forall k :: 0 <= k < |lines| ==> lines[k] != ""
    ensures AnyMeetsEmpty(lines, |lines|, target) <==> |lines[0]| >= target
  {
    if AnyMeetsEmpty(lines, |lines|, target) {
      var k :| k < |lines| && MeetsEmpty(lines, k, target);
      if k > 0 && target > 0 {
        EmptyBehindBlank(lines, k, target);
      }
    }
    if |lines[0]| >= target {
      assert MeetsEmpty(lines, 0, target);
    }
  }

  // ----- paragraphs have no blank lines of their own

  // The lines of a text that neither has a blank line nor opens or ends with a newline.
  lemma {:induction false} LinesAreNotBlank(text: string)
    requires NoBlankLine(text) && '\r' !in text
    requires text != "" ==> text[0] != '\n' && text[|text| - 1] != '\n'
    ensures forall k :: 0 <= k < |TextLines(text)| ==> TextLines(text)[k] != ""
    decreases |text|
  {
    if text != "" {
      var n := IndexOf(text, '\n');
      if n < |text| {
        var rest := text[n + 1..];
        assert text[n + 1] != '\n';
        forall i | 0 <= i < |rest| - 1
          ensures !(rest[i] == '\n' && rest[i + 1] == '\n')
        {
          assert rest[i] == text[n + 1 + i] && rest[i + 1] == text[n + 2 + i];
        }
        LinesAreNotBlank(rest);
      }
    }
  }

  // ----- the exact condition

  // The first line of a text; all of it, without a newline.
  function FirstLine(text: string): string {
    text[..IndexOf(text, '\n')]
  }

  lemma {:induction false} FirstOfLines(text: string)
    requires text != "" && '\r' !in text
    ensures TextLines(text) != [] && TextLines(text)[0] == FirstLine(text)
  {
    assert text[..|text|] == text;
  }

  /** A piece of a text without carriage returns leaves an empty chunk exactly if its trimmed
      paragraph is longer than the target and opens with a line at least as long. */
  lemma {:induction false} LeavesEmptyIff(text: string, piece: string, target: nat)
    requires '\r' !in text && piece in Paragraphs(text)
    ensures LeavesEmpty(piece, target) <==> |Trim(piece)| > target && |FirstLine(Trim(piece))| >= target
  {
    PiecesHaveNoBlankLine(text);
    var paragraph := Trim(piece);
    var a, b := TrimIsSlice(piece);
    if |paragraph| > target {
      forall i | 0 <= i < |paragraph| - 1
        ensures !(paragraph[i] == '\n' && paragraph[i + 1] == '\n')
      {
        assert paragraph[i] == piece[a + i] && paragraph[i + 1] == piece[a + i + 1];
      }
      LinesAreNotBlank(paragraph);
      FirstOfLines(paragraph);
      FirstLineDecides(TextLines(paragraph), target);
    }
  }

  lemma {:induction false} NoSeparator(text: string)
    requires forall k :: 0 <= k < |text| ==> !IsSpace(text[k])
    ensures SeparatorAt(text) == |text|
  {
    if text != "" {
      NoSeparator(text[1..]);
    }
  }

  lemma {:induction false} NoNewline(text: string)
    requires forall k :: 0 <= k < |text| ==> !IsSpace(text[k])
    ensures IndexOf(text, '\n') == |text|
  {
    if text != "" {
      NoNewline(text[1..]);
    }
  }

  /** A text of one line longer than the target leaves an empty chunk. */
  lemma {:induction false} LongLineLeavesEmpty(text: string, target: nat)
    requires |text| > target && forall k :: 0 <= k < |text| ==> !IsSpace(text[k])
    ensures Paragraphs(text) == [text] && LeavesEmpty(text, target)
  {
    NoSeparator(text);
    assert Trim(text) == text;
    NoNewline(text);
    assert TextLines(text) == [text];
    assert MeetsEmpty([text], 0, target);
  }
}
