/** What holds of the chunks of every text: they fit, they say what the text says with the same
    distances, and they are as few as reading on from the front allows. */
module ChunkLaws {
  import opened Common
  import opened Splitting
  import opened Whitespace
  import opened Chunks

  // ----- paragraphs and lines

  predicate NoBlankLine(s: string) {
    forall i :: 0 <= i < |s| - 1 ==> !(s[i] == '\n' && s[i + 1] == '\n')
  }

  lemma {:induction false} SeparatorIsFirst(text: string)
    ensures var n := SeparatorAt(text);
      && NoBlankLine(text[..n]) && (n < |text| ==> n == 0 || text[n - 1] != '\n')
  {
    var n := SeparatorAt(text);
    if n > 0 {
      SeparatorIsFirst(text[1..]);
      var rest := text[1..][..n - 1];
      forall i | 0 <= i < n - 1
        ensures !(text[i] == '\n' && text[i + 1] == '\n')
      {
        if i > 0 {
          assert rest[i - 1] == text[i] && rest[i] == text[i + 1];
        }
      }
      assert n > 1 ==> text[1..][n - 2] == text[n - 1];
    }
  }

  lemma {:induction false} JoinedCons(first: string, rest: seq<string>, separator: string)
    requires rest != []
    ensures Joined([first] + rest, separator) == first + separator + Joined(rest, separator)
  {
    assert ([first] + rest)[1..] == rest;
  }

  lemma {:induction false} PiecesJoin(text: string)
    ensures Paragraphs(text) != [] && Joined(Paragraphs(text), "\n\n") == text
    decreases |text|
  {
    var n := SeparatorAt(text);
    if n < |text| {
      PiecesJoin(text[n + 2..]);
      JoinedCons(text[..n], Paragraphs(text[n + 2..]), "\n\n");
      assert text == text[..n] + "\n\n" + text[n + 2..];
    }
  }

  lemma {:induction false} PiecesHaveNoBlankLine(text: string)
    ensures forall piece :: piece in Paragraphs(text) ==> NoBlankLine(piece) && forall c :: c in piece ==> c in text
    decreases |text|
  {
    var n := SeparatorAt(text);
    SeparatorIsFirst(text);
    assert text[..|text|] == text;
    if n < |text| {
      PiecesHaveNoBlankLine(text[n + 2..]);
    }
  }

  // A newline at its end would have been the start of the separator.
  ghost predicate EndsBefore(piece: string) {
    piece == "" || piece[|piece| - 1] != '\n'
  }

  lemma {:induction false} PiecesEndBefore(text: string)
    ensures forall k :: 0 <= k < |Paragraphs(text)| - 1 ==> EndsBefore(Paragraphs(text)[k])
    decreases |text|
  {
    var n := SeparatorAt(text);
    SeparatorIsFirst(text);
    if n < |text| {
      PiecesEndBefore(text[n + 2..]);
      assert n > 0 ==> text[..n][n - 1] == text[n - 1];
    }
  }

  /** The pieces of a text are the text cut at its blank lines: they hold none themselves, and each
      cut is the first possible one. */
  lemma {:induction false} ParagraphsAre(text: string)
    ensures Joined(Paragraphs(text), "\n\n") == text
    ensures forall piece :: piece in Paragraphs(text) ==> NoBlankLine(piece)
    ensures forall k :: 0 <= k < |Paragraphs(text)| - 1 ==> EndsBefore(Paragraphs(text)[k])
  {
    PiecesJoin(text);
    PiecesHaveNoBlankLine(text);
    PiecesEndBefore(text);
  }

  lemma {:induction false} FirstLineReads(line: string, crlf: bool, rest: string)
    requires '\n' !in line && (line == "" || line[|line| - 1] != '\r')
    ensures TextLines(line + (if crlf then "\r\n" else "\n") + rest) == [line] + TextLines(rest)
  {
    var read := if crlf then line + "\r" else line;
    var text := read + ['\n'] + rest;
    assert text == line + (if crlf then "\r\n" else "\n") + rest;
    IndexOfAfter(read, '\n', rest);
    assert text[..|read|] == read && text[|read| + 1..] == rest;
    assert StripReturn(read) == line;
  }

  /** Lines read back from a text in which each ends in a newline, with a return before it or
      not. */
  lemma {:induction false} LinesRead(lines: seq<string>, crlf: seq<bool>)
    requires |lines| == |crlf|
    requires forall k :: 0 <= k < |lines| ==> '\n' !in lines[k]
    requires forall k :: 0 <= k < |lines| ==> lines[k] == "" || lines[k][|lines[k]| - 1] != '\r'
    ensures TextLines(Printed(lines, crlf)) == lines
  {
    if lines != [] {
      LinesRead(lines[1..], crlf[1..]);
      FirstLineReads(lines[0], crlf[0], Printed(lines[1..], crlf[1..]));
    }
  }

  // A last line without an ending keeps a return.
  lemma {:induction false} LastLineReads(line: string)
    requires line != "" && '\n' !in line
    ensures TextLines(line) == [line]
  {
    IndexOfAfter(line, '\n', "");
  }

  // ----- cuts

  // The bits of a character in a sequence of so many bytes, section 3 of RFC 3629.
  function PayloadBits(bytes: nat): nat {
    if bytes <= 1 then 7 else 5 * bytes + 1
  }

  lemma {:induction false} WidthIsLeast(c: char)
    ensures c as int < Power2(PayloadBits(Width(c)))
    ensures Width(c) > 1 ==> Power2(PayloadBits(Width(c) - 1)) <= c as int
  {
    assert Power2(7) == 0x80 && Power2(11) == 0x800;
    assert Power2(16) == 32 * Power2(11) && Power2(21) == 32 * Power2(16);
  }

  function Concat(texts: seq<string>): string {
    if texts == [] then "" else texts[0] + Concat(texts[1..])
  }

  lemma {:induction false} BoundaryAfter(s: string, n: nat)
    requires n <= |s|
    ensures CharsIn(s, ByteLength(s[..n])) == Some(n)
  {
    if n > 0 {
      BoundaryAfter(s[1..], n - 1);
      assert s[..n][0] == s[0] && s[..n][1..] == s[1..][..n - 1];
    }
  }

  lemma {:induction false} BytesSnoc(s: string, c: char)
    ensures ByteLength(s + [c]) == ByteLength(s) + Width(c)
  {
    if s == "" {
      assert s + [c] == [c] && [c][1..] == "";
    } else {
      assert (s + [c])[1..] == s[1..] + [c];
      BytesSnoc(s[1..], c);
    }
  }

  lemma {:induction false} BytesGrow(s: string, n: nat)
    requires n <= |s|
    ensures ByteLength(s[..n]) <= ByteLength(s)
  {
    if n > 0 {
      BytesGrow(s[1..], n - 1);
      assert s[..n][1..] == s[1..][..n - 1];
    }
  }

  // Where a cut falls: no further character would fit, and more than one only if they do.
  lemma {:induction false} CutIsLast(line: string, target: nat)
    requires |line| > target && CutAt(line, target) < ByteLength(line)
    ensures var (head, tail) := SplitAt(line, CutAt(line, target));
      && head != "" && tail != "" && line == head + tail
      && (|head| == 1 || ByteLength(head) <= target) && ByteLength(head) + Width(tail[0]) > target
  {
    CutIsInside(line, target);
    var cut, most := CutAt(line, target), Min(target, ByteLength(line));
    CharsInBounds(line, cut);
    var n := CharsIn(line, cut).value;
    assert n < |line| by { assert line[..|line|] == line; }
    var next := ByteLength(line[..n + 1]);
    BoundaryAfter(line, n + 1);
    BytesGrow(line, n + 1);
    BytesSnoc(line[..n], line[n]);
    assert line[..n + 1] == line[..n] + [line[n]];
    assert IsCharBoundary(line, next) && next == cut + Width(line[n]);
    if LastBoundary(line, most) == 0 {
      FirstBoundary(line, Width(line[0]));
      BytesGrow(line, 1);
      assert line[..1] == [line[0]] && [line[0]][1..] == "";
    }
  }

  lemma {:induction false} CutsJoin(line: string, target: nat)
    ensures Concat(Cuts(line, target)) + CutRest(line, target) == line
    decreases |line|
  {
    if |line| > target {
      CutIsInside(line, target);
      if CutAt(line, target) < ByteLength(line) {
        var (head, tail) := SplitAt(line, CutAt(line, target));
        CutIsLast(line, target);
        CutsJoin(tail, target);
        assert Cuts(line, target)[1..] == Cuts(tail, target);
      } else {
        assert [line][1..] == [];
      }
    }
  }

  // What stands behind the `k`-th cut of a line.
  function AfterCut(line: string, target: nat, k: nat): string
    requires k < |Cuts(line, target)|
  {
    Concat(Cuts(line, target)[k + 1..]) + CutRest(line, target)
  }

  /** A line is its cuts and what is left of it. A cut of more than one character fits the target
      in bytes, and with the next character it would not. */
  lemma {:induction false} CutsAre(line: string, target: nat, k: nat)
    requires k < |Cuts(line, target)|
    ensures Concat(Cuts(line, target)) + CutRest(line, target) == line
    ensures var cut, more := Cuts(line, target)[k], AfterCut(line, target, k);
      && cut != "" && (|cut| == 1 || ByteLength(cut) <= target)
      && (more != "" ==> ByteLength(cut) + Width(more[0]) > target)
    decreases |line|
  {
    CutsJoin(line, target);
    CutIsInside(line, target);
    if CutAt(line, target) < ByteLength(line) {
      CutIsLast(line, target);
      var (head, tail) := SplitAt(line, CutAt(line, target));
      var cuts := Cuts(line, target);
      assert cuts == [head] + Cuts(tail, target);
      if k > 0 {
        CutsAre(tail, target, k - 1);
        assert cuts[k + 1..] == Cuts(tail, target)[k..];
      } else {
        assert cuts[1..] == Cuts(tail, target);
        CutsJoin(tail, target);
      }
    } else {
      assert [line][1..] == [];
    }
  }

  // ----- the chunks fit

  lemma {:induction false} CutsFit(line: string, target: nat)
    ensures Fit(Cuts(line, target), target)
    decreases |line|
  {
    if |line| > target {
      CutIsInside(line, target);
      if CutAt(line, target) < ByteLength(line) {
        CutsFit(SplitAt(line, CutAt(line, target)).1, target);
      }
    }
  }

  lemma {:induction false} LinesFit(lines: seq<string>, k: nat, target: nat)
    requires k <= |lines|
    ensures |Buffer(lines, k, target)| <= target && Fit(ClosedByLines(lines, k, target), target)
  {
    if k > 0 {
      LinesFit(lines, k - 1, target);
      CutsFit(lines[k - 1], target);
    }
  }

  lemma {:induction false} PiecesFit(pieces: seq<string>, k: nat, target: nat)
    requires k <= |pieces|
    ensures var p := WithPieces(pieces, k, target); |p.current| <= target && Fit(p.chunks, target)
  {
    if k > 0 {
      PiecesFit(pieces, k - 1, target);
      var lines := TextLines(Trim(pieces[k - 1]));
      LinesFit(lines, |lines|, target);
    }
  }

  lemma {:induction false} ChunksFit(text: string, target: nat)
    ensures Fit(ChunksOf(text, target), target)
  {
    PiecesFit(Paragraphs(text), |Paragraphs(text)|, target);
  }

  // ----- the chunks say what the text says

  lemma {:induction false} AgreeThrough(a: seq<Glyph>, b: seq<Glyph>, c: seq<Glyph>)
    requires Agree(a, b) && Agree(b, c)
    ensures Agree(a, c)
  {
  }

  lemma {:induction false} NeverFirst(s: string, mark: Mark)
    requires mark != First
    ensures MarkAfter(s, mark) != First
  {
    if s != "" {
      NeverFirst(s[1..], if !IsSpace(s[0]) then Tight else Apart);
    }
  }

  // White space between two texts sets the second apart.
  lemma {:induction false} GlyphsAround(before: string, blank: string, after: string)
    requires Blank(blank) && blank != ""
    ensures Glyphs(before + blank + after, Apart) == Glyphs(before, Apart) + Glyphs(after, Apart)
  {
    GlyphsConcat(before, blank + after, Apart);
    assert before + blank + after == before + (blank + after);
    BlankBefore(blank, after, MarkAfter(before, Apart));
    NeverFirst(before, Apart);
  }

  lemma {:induction false} ParagraphsAgree(text: string)
    ensures GlyphsOf(Paragraphs(text), Apart) == Glyphs(text, Apart)
    decreases |text|
  {
    var n := SeparatorAt(text);
    if n == |text| {
      GlyphsOfOne(text, Apart);
    } else {
      ParagraphsAgree(text[n + 2..]);
      assert text == text[..n] + "\n\n" + text[n + 2..];
      GlyphsAround(text[..n], "\n\n", text[n + 2..]);
    }
  }

  lemma {:induction false} TextLinesAgree(text: string)
    ensures GlyphsOf(TextLines(text), Apart) == Glyphs(text, Apart)
    decreases |text|
  {
    if text != "" {
      var n := IndexOf(text, '\n');
      if n == |text| {
        GlyphsOfOne(text, Apart);
      } else {
        var line, rest := StripReturn(text[..n]), text[n + 1..];
        TextLinesAgree(rest);
        var ending := if line == text[..n] then "\n" else "\r\n";
        assert text == line + ending + rest;
        GlyphsAround(line, ending, rest);
      }
    }
  }

  // A text in two parts, the second of them read further.
  lemma {:induction false} PartsAgree(head: string, tail: string, mark: Mark, read: seq<Glyph>)
    requires Agree(read, Glyphs(tail, MarkAfter(head, mark)))
    ensures Agree(Glyphs(head, First) + read, Glyphs(head + tail, mark))
  {
    GlyphsConcat(head, tail, mark);
    StartAgrees(head, mark);
    AgreeConcat(Glyphs(head, First), Glyphs(head, mark), read, Glyphs(tail, MarkAfter(head, mark)));
  }

  // The cuts of a line and what is left of it.
  function CutsAndRest(line: string, target: nat): seq<string> {
    Cuts(line, target) + [CutRest(line, target)]
  }

  lemma {:induction false} CutsAgree(line: string, target: nat, mark: Mark)
    ensures Agree(GlyphsOf(CutsAndRest(line, target), First), Glyphs(line, mark))
    decreases |line|
  {
    if |line| > target {
      CutIsInside(line, target);
      if CutAt(line, target) < ByteLength(line) {
        CutIsLast(line, target);
        var (head, tail) := SplitAt(line, CutAt(line, target));
        CutsAgree(tail, target, MarkAfter(head, mark));
        PartsAgree(head, tail, mark, GlyphsOf(CutsAndRest(tail, target), First));
        assert CutsAndRest(line, target) == [head] + CutsAndRest(tail, target);
      } else {
        StartAgrees(line, mark);
        assert CutsAndRest(line, target) == [line] + [""];
        GlyphsSnoc([line], "", First);
        GlyphsOfOne(line, First);
      }
    } else {
      StartAgrees(line, mark);
      assert CutsAndRest(line, target) == [line];
      GlyphsOfOne(line, First);
    }
  }

  lemma {:induction false} BehindAgrees(before: string, blank: string, more: string)
    requires Blank(blank) && blank != ""
    ensures Agree(Glyphs(Behind(before, blank, more), First), Glyphs(before, First) + Glyphs(more, Apart))
  {
    StartAgrees(more, Apart);
    if before != "" {
      assert before + blank + more == before + (blank + more);
      GlyphsConcat(before, blank + more, First);
      BlankBefore(blank, more, MarkAfter(before, First));
    }
  }

  // All that has been read.
  ghost function Read(p: Progress): seq<Glyph> {
    GlyphsOf(p.chunks, First) + Glyphs(p.current, First)
  }

  lemma {:induction false} ReadCloses(closed: seq<string>, buf: string, cuts: seq<string>, rest: string)
    ensures Read(Progress(closed + ([buf] + cuts), rest)) ==
            Read(Progress(closed, buf)) + (GlyphsOf(cuts, First) + Glyphs(rest, First))
  {
    GlyphsSnoc(closed, buf, First);
    GlyphsOfConcat(closed + [buf], cuts, First);
    assert closed + ([buf] + cuts) == closed + [buf] + cuts;
  }

  // What a line adds, wherever it goes.
  lemma {:induction false} LineAgrees(closed: seq<string>, buf: string, line: string, target: nat)
    ensures Agree(Read(Progress(closed + ClosedBy(buf, line, target), BufferAfter(buf, line, target))),
                  Read(Progress(closed, buf)) + Glyphs(line, Apart))
  {
    if |buf| + |line| + 1 > target {
      var cuts, rest := Cuts(line, target), CutRest(line, target);
      CutsAgree(line, target, Apart);
      GlyphsSnoc(cuts, rest, First);
      ReadCloses(closed, buf, cuts, rest);
      AgreeConcat(Read(Progress(closed, buf)), Read(Progress(closed, buf)),
        GlyphsOf(cuts, First) + Glyphs(rest, First), Glyphs(line, Apart));
    } else {
      var before, after := GlyphsOf(closed, First), Behind(buf, "\n", line);
      BehindAgrees(buf, "\n", line);
      assert closed + ClosedBy(buf, line, target) == closed;
      AgreeConcat(before, before, Glyphs(after, First), Glyphs(buf, First) + Glyphs(line, Apart));
      assert before + (Glyphs(buf, First) + Glyphs(line, Apart)) == before + Glyphs(buf, First) + Glyphs(line, Apart);
    }
  }

  // What was read before and what is added to it.
  lemma {:induction false} AddedAgrees(after: seq<Glyph>, before: seq<Glyph>, read: seq<Glyph>, own: seq<Glyph>)
    requires Agree(before, read) && Agree(after, before + own)
    ensures Agree(after, read + own)
  {
    AgreeConcat(before, read, own, own);
    AgreeThrough(after, before + own, read + own);
  }

  lemma {:induction false} LinesAgree(lines: seq<string>, k: nat, target: nat)
    requires k <= |lines|
    ensures Agree(Read(Progress(ClosedByLines(lines, k, target), Buffer(lines, k, target))),
                  GlyphsOf(lines[..k], Apart))
  {
    if k > 0 {
      var closed, buf, line := ClosedByLines(lines, k - 1, target), Buffer(lines, k - 1, target), lines[k - 1];
      LinesAgree(lines, k - 1, target);
      LineAgrees(closed, buf, line, target);
      AddedAgrees(Read(Progress(ClosedByLines(lines, k, target), Buffer(lines, k, target))),
        Read(Progress(closed, buf)), GlyphsOf(lines[..k - 1], Apart), Glyphs(line, Apart));
      GlyphsSnoc(lines[..k - 1], line, Apart);
      PrefixSnoc(lines, k);
    }
  }

  lemma {:induction false} ClosedReads(p: Progress)
    ensures var closed := if p.current == "" then p.chunks else p.chunks + [p.current];
      GlyphsOf(closed, First) == Read(p)
  {
    if p.current != "" {
      GlyphsOfConcat(p.chunks, [p.current], First);
      GlyphsOfOne(p.current, First);
    }
  }

  lemma {:induction false} ReadBehind(closed: seq<string>, p: Progress)
    ensures Read(Progress(closed + p.chunks, p.current)) == GlyphsOf(closed, First) + Read(p)
  {
    GlyphsOfConcat(closed, p.chunks, First);
  }

  lemma {:induction false} OversizedAgrees(p: Progress, paragraph: string, target: nat)
    ensures var lines := TextLines(paragraph);
      var closed := if p.current == "" then p.chunks else p.chunks + [p.current];
      Agree(Read(Progress(closed + ClosedByLines(lines, |lines|, target), Buffer(lines, |lines|, target))),
            Read(p) + Glyphs(paragraph, Apart))
  {
    var lines := TextLines(paragraph);
    var own := Progress(ClosedByLines(lines, |lines|, target), Buffer(lines, |lines|, target));
    var closed := if p.current == "" then p.chunks else p.chunks + [p.current];
    LinesAgree(lines, |lines|, target);
    assert lines[..|lines|] == lines;
    TextLinesAgree(paragraph);
    ClosedReads(p);
    ReadBehind(closed, own);
    AgreeConcat(Read(p), Read(p), Read(own), Glyphs(paragraph, Apart));
  }

  // What a piece adds, wherever it goes.
  lemma {:induction false} PieceAgrees(p: Progress, piece: string, target: nat)
    ensures Agree(Read(WithPiece(p, piece, target)), Read(p) + Glyphs(piece, Apart))
  {
    var paragraph, chunks := Trim(piece), GlyphsOf(p.chunks, First);
    TrimKeepsGlyphs(piece);
    ClosedReads(p);
    if paragraph != "" {
      if |p.current| + |paragraph| + 2 <= target {
        BehindAgrees(p.current, "\n\n", paragraph);
        AgreeConcat(chunks, chunks, Glyphs(Behind(p.current, "\n\n", paragraph), First),
          Glyphs(p.current, First) + Glyphs(paragraph, Apart));
        assert Read(p) + Glyphs(piece, Apart) == chunks + (Glyphs(p.current, First) + Glyphs(paragraph, Apart));
      } else if |paragraph| <= target {
        StartAgrees(paragraph, Apart);
        AgreeConcat(Read(p), Read(p), Glyphs(paragraph, First), Glyphs(paragraph, Apart));
      } else {
        OversizedAgrees(p, paragraph, target);
      }
    }
  }

  lemma {:induction false} PiecesAgree(pieces: seq<string>, k: nat, target: nat)
    requires k <= |pieces|
    ensures Agree(Read(WithPieces(pieces, k, target)), GlyphsOf(pieces[..k], Apart))
  {
    if k > 0 {
      var p, piece := WithPieces(pieces, k - 1, target), pieces[k - 1];
      PiecesAgree(pieces, k - 1, target);
      PieceAgrees(p, piece, target);
      AddedAgrees(Read(WithPieces(pieces, k, target)), Read(p), GlyphsOf(pieces[..k - 1], Apart),
        Glyphs(piece, Apart));
      GlyphsSnoc(pieces[..k - 1], piece, Apart);
      PrefixSnoc(pieces, k);
    }
  }

  lemma {:induction false} BlankHasNone(s: string)
    requires Trim(s) == ""
    ensures Glyphs(s, First) == []
  {
    TrimKeepsGlyphs(s);
    StartAgrees(s, Apart);
  }

  /** The chunks hold the solid characters of the text, in order, and two of them stand side by
      side in a chunk if and only if they do in the text. */
  lemma {:induction false} ChunksAgree(text: string, target: nat)
    ensures Agree(GlyphsOf(ChunksOf(text, target), First), Glyphs(text, Apart))
  {
    var pieces := Paragraphs(text);
    var p := WithPieces(pieces, |pieces|, target);
    PiecesAgree(pieces, |pieces|, target);
    assert pieces[..|pieces|] == pieces;
    ParagraphsAgree(text);
    ClosedReads(p);
    if Trim(p.current) == "" {
      BlankHasNone(p.current);
    }
  }

  // ----- paragraphs that fit

  // The paragraphs of a text: its pieces without the white space around them, blank ones left out.
  function TextOf(piece: string): seq<string> {
    if Trim(piece) == "" then [] else [Trim(piece)]
  }

  function Texts(pieces: seq<string>): seq<string> {
    if pieces == [] then [] else TextOf(pieces[0]) + Texts(pieces[1..])
  }

  // The parts from `start` on up to `end`, with a separator between any two.
  predicate IsGroup(chunk: string, parts: seq<string>, start: nat, end: nat, separator: string) {
    start < end <= |parts| && chunk == Joined(parts[start..end], separator)
  }

  // The part does not fit behind the chunk.
  predicate NoRoom(chunk: string, parts: seq<string>, next: nat, target: nat, separator: string) {
    next < |parts| && |chunk| + |separator| + |parts[next]| > target
  }

  /** The chunks are consecutive groups of parts, and the part that opens a group does not fit
      behind the group before. Group `i` starts at part `starts[i]`. */
  ghost predicate Grouped(chunks: seq<string>, parts: seq<string>, starts: seq<nat>, target: nat, separator: string) {
    && |starts| == |chunks| + 1 && starts[0] == 0 && starts[|chunks|] == |parts|
    && (forall i :: 0 <= i < |chunks| ==> IsGroup(chunks[i], parts, starts[i], starts[i + 1], separator))
    && (forall i :: 0 <= i < |chunks| - 1 ==> NoRoom(chunks[i], parts, starts[i + 1], target, separator))
  }

  lemma {:induction false} JoinedSnoc(parts: seq<string>, last: string, separator: string)
    requires parts != []
    ensures Joined(parts + [last], separator) == Joined(parts, separator) + separator + last
  {
    SnocTail(parts, last);
    if |parts| > 1 {
      JoinedSnoc(parts[1..], last, separator);
    } else {
      assert parts == [parts[0]] && [last] == parts[1..] + [last];
    }
  }

  lemma {:induction false} TextsSnoc(pieces: seq<string>, piece: string)
    ensures Texts(pieces + [piece]) == Texts(pieces) + TextOf(piece)
  {
    if pieces == [] {
      assert [piece][1..] == [];
    } else {
      SnocTail(pieces, piece);
      TextsSnoc(pieces[1..], piece);
    }
  }

  // A closed group stays one when there are more parts.
  lemma {:induction false} GroupStays(chunk: string, parts: seq<string>, more: seq<string>, start: nat, end: nat,
                                      target: nat, separator: string)
    requires IsGroup(chunk, parts, start, end, separator) && parts <= more
    ensures IsGroup(chunk, more, start, end, separator)
    ensures NoRoom(chunk, parts, end, target, separator) ==> NoRoom(chunk, more, end, target, separator)
  {
    assert more[start..end] == parts[start..end];
  }

  lemma {:induction false} LastGroupGrows(current: string, parts: seq<string>, next: string, start: nat,
                                          separator: string)
    requires IsGroup(current, parts, start, |parts|, separator)
    ensures IsGroup(current + separator + next, parts + [next], start, |parts| + 1, separator)
  {
    JoinedSnoc(parts[start..], next, separator);
    assert parts[start..|parts|] == parts[start..];
    assert (parts + [next])[start..|parts| + 1] == parts[start..] + [next];
  }

  // One more part in the last group.
  lemma {:induction false} GroupGrows(chunks: seq<string>, current: string, parts: seq<string>, starts: seq<nat>,
                                      next: string, target: nat, separator: string)
    requires Grouped(chunks + [current], parts, starts, target, separator)
    ensures Grouped(chunks + [current + separator + next], parts + [next],
                    starts[..|chunks| + 1] + [|parts| + 1], target, separator)
  {
    var n := |chunks|;
    var all, grown := chunks + [current], chunks + [current + separator + next];
    var more, moved := parts + [next], starts[..n + 1] + [|parts| + 1];
    assert IsGroup(all[n], parts, starts[n], starts[n + 1], separator);
    LastGroupGrows(current, parts, next, starts[n], separator);
    forall i | 0 <= i < n
      ensures IsGroup(grown[i], more, moved[i], moved[i + 1], separator)
      ensures NoRoom(grown[i], more, moved[i + 1], target, separator)
    {
      assert grown[i] == all[i] && moved[i] == starts[i] && moved[i + 1] == starts[i + 1];
      GroupStays(all[i], parts, more, starts[i], starts[i + 1], target, separator);
    }
  }

  // A part that opens a group.
  lemma {:induction false} GroupOpens(chunks: seq<string>, parts: seq<string>, starts: seq<nat>, next: string,
                                      target: nat, separator: string)
    requires Grouped(chunks, parts, starts, target, separator)
    requires chunks != [] ==> |chunks[|chunks| - 1]| + |separator| + |next| > target
    ensures Grouped(chunks + [next], parts + [next], starts + [|parts| + 1], target, separator)
  {
    var n := |chunks|;
    var grown, more, moved := chunks + [next], parts + [next], starts + [|parts| + 1];
    assert more[|parts|..|more|] == [next];
    forall i | 0 <= i < n
      ensures IsGroup(grown[i], more, moved[i], moved[i + 1], separator)
      ensures NoRoom(grown[i], more, moved[i + 1], target, separator)
    {
      assert grown[i] == chunks[i] && moved[i] == starts[i] && moved[i + 1] == starts[i + 1];
      GroupStays(chunks[i], parts, more, starts[i], starts[i + 1], target, separator);
    }
  }

  // The groups so far, the open one among them.
  ghost function Groups(p: Progress): seq<string> {
    if p.current == "" then [] else p.chunks + [p.current]
  }

  // No paragraph is longer than the target.
  ghost predicate AllFit(pieces: seq<string>, target: nat) {
    forall k :: 0 <= k < |pieces| ==> |Trim(pieces[k])| <= target
  }

  /** The paragraphs read so far stand in the groups so far. */
  ghost predicate Open(p: Progress, paragraphs: seq<string>, starts: seq<nat>, target: nat) {
    && (p.current == "" ==> p.chunks == []) && (p.current != "" ==> !IsSpace(p.current[0]))
    && Grouped(Groups(p), paragraphs, starts, target, "\n\n")
  }

  lemma {:induction false} PieceGroups(p: Progress, piece: string, paragraphs: seq<string>, starts: seq<nat>,
                                       target: nat)
    returns (moved: seq<nat>)
    requires Open(p, paragraphs, starts, target) && |Trim(piece)| <= target
    ensures Open(WithPiece(p, piece, target), paragraphs + TextOf(piece), moved, target)
  {
    var paragraph := Trim(piece);
    var a, b := TrimIsSlice(piece);
    if paragraph == "" {
      moved := starts;
      assert paragraphs + [] == paragraphs;
    } else if p.current != "" && |p.current| + |paragraph| + 2 <= target {
      GroupGrows(p.chunks, p.current, paragraphs, starts, paragraph, target, "\n\n");
      moved := starts[..|p.chunks| + 1] + [|paragraphs| + 1];
    } else {
      GroupOpens(Groups(p), paragraphs, starts, paragraph, target, "\n\n");
      moved := starts + [|paragraphs| + 1];
    }
  }

  lemma {:induction false} PiecesGrouped(pieces: seq<string>, k: nat, target: nat) returns (starts: seq<nat>)
    requires k <= |pieces| && AllFit(pieces, target)
    ensures Open(WithPieces(pieces, k, target), Texts(pieces[..k]), starts, target)
  {
    starts := [0];
    if k > 0 {
      var p, piece := WithPieces(pieces, k - 1, target), pieces[k - 1];
      starts := PiecesGrouped(pieces, k - 1, target);
      starts := PieceGroups(p, piece, Texts(pieces[..k - 1]), starts, target);
      TextsSnoc(pieces[..k - 1], piece);
      PrefixSnoc(pieces, k);
      assert WithPieces(pieces, k, target) == WithPiece(p, piece, target);
    }
  }

  /** When every paragraph fits, the chunks are the paragraphs in groups, each as large as it can
      be. */
  lemma {:induction false} ChunksGrouped(text: string, target: nat) returns (starts: seq<nat>)
    requires AllFit(Paragraphs(text), target)
    ensures Grouped(ChunksOf(text, target), Texts(Paragraphs(text)), starts, target, "\n\n")
  {
    var pieces := Paragraphs(text);
    starts := PiecesGrouped(pieces, |pieces|, target);
    assert pieces[..|pieces|] == pieces;
    TrimOfBlank(WithPieces(pieces, |pieces|, target).current);
  }

  lemma {:induction false} LineGroups(closed: seq<string>, buf: string, line: string, lines: seq<string>,
                                      starts: seq<nat>, target: nat)
    returns (moved: seq<nat>)
    requires 0 < |line| < target && buf != "" && Grouped(closed + [buf], lines, starts, target, "\n")
    ensures BufferAfter(buf, line, target) != ""
    ensures Grouped(closed + ClosedBy(buf, line, target) + [BufferAfter(buf, line, target)], lines + [line], moved,
                    target, "\n")
  {
    if |buf| + |line| + 1 > target {
      GroupOpens(closed + [buf], lines, starts, line, target, "\n");
      moved := starts + [|lines| + 1];
    } else {
      GroupGrows(closed, buf, lines, starts, line, target, "\n");
      moved := starts[..|closed| + 1] + [|lines| + 1];
      assert closed + [] == closed;
    }
  }

  /** And when every line of a paragraph that does not fit does, its chunks are its lines in groups,
      each as large as it can be. */
  lemma {:induction false} LinesGrouped(lines: seq<string>, k: nat, target: nat) returns (starts: seq<nat>)
    requires 0 < k <= |lines| && forall j :: 0 <= j < |lines| ==> 0 < |lines[j]| < target
    ensures Buffer(lines, k, target) != ""
    ensures Grouped(ClosedByLines(lines, k, target) + [Buffer(lines, k, target)], lines[..k], starts, target, "\n")
  {
    var line := lines[k - 1];
    PrefixSnoc(lines, k);
    if k == 1 {
      starts := [0, 1];
      assert lines[..1][0..1] == [line] && Buffer(lines, 0, target) == "";
      assert ClosedByLines(lines, 1, target) == [];
    } else {
      starts := LinesGrouped(lines, k - 1, target);
      starts := LineGroups(ClosedByLines(lines, k - 1, target), Buffer(lines, k - 1, target), line, lines[..k - 1],
        starts, target);
    }
  }
}
