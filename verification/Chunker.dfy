/** Splitting a document into chunks. */
module Chunker {
  import opened Whitespace
  import opened Chunks
  import opened ChunkLaws
  import opened EmptyChunks

  // The position after the first character.
  method FirstCharCut(rest: string) returns (cut: nat)
    requires rest != ""
    ensures cut == Width(rest[0])
  {
    cut := 1;
    while cut < ByteLength(rest) && !IsCharBoundary(rest, cut)
      invariant 1 <= cut <= Width(rest[0])
    {
      FirstBoundary(rest, cut);
      cut := cut + 1;
    }
    FirstBoundary(rest, cut);
  }

  /** A position to cut at: on a character boundary, at most `target` bytes in, or after
      the first character when that alone is wider. */
  method FindCut(rest: string, target: nat) returns (cut: nat)
    requires |rest| > target
    ensures cut == CutAt(rest, target)
  {
    CharsAtMostBytes(rest);
    cut := Min(target, ByteLength(rest));
    while cut > 0 && !IsCharBoundary(rest, cut)
      invariant LastBoundary(rest, cut) == LastBoundary(rest, Min(target, ByteLength(rest)))
    {
      cut := cut - 1;
    }
    if cut == 0 {
      cut := FirstCharCut(rest);
    }
  }

  // Cut a line that is longer than a whole chunk; what is left fits.
  method CutLine(chunks0: seq<string>, line: string, target: nat) returns (chunks: seq<string>, rest: string)
    requires |line| > target
    ensures chunks == chunks0 + Cuts(line, target) && rest == CutRest(line, target)
  {
    chunks, rest := chunks0, line;
    while |rest| > target
      invariant chunks + Cuts(rest, target) == chunks0 + Cuts(line, target)
      invariant CutRest(rest, target) == CutRest(line, target)
      decreases |rest|
    {
      var cut := FindCut(rest, target);
      CutIsInside(rest, target);
      if cut >= ByteLength(rest) {
        chunks := chunks + [rest];
        rest := "";
        break;
      }
      var (head, tail) := SplitAt(rest, cut);
      assert chunks + [head] + Cuts(tail, target) == chunks + ([head] + Cuts(tail, target));
      chunks := chunks + [head];
      rest := tail;
    }
  }

  // One line of an oversized paragraph.
  method AddLine(chunks0: seq<string>, buf0: string, line: string, target: nat)
    returns (chunks: seq<string>, buf: string)
    ensures chunks == chunks0 + ClosedBy(buf0, line, target) && buf == BufferAfter(buf0, line, target)
  {
    chunks, buf := chunks0, buf0;
    if |buf| + |line| + 1 > target {
      chunks := chunks + [buf];
      buf := "";
    }
    if |line| > target {
      var rest;
      chunks, rest := CutLine(chunks, line, target);
      buf := buf + rest;
    } else {
      if buf != "" {
        buf := buf + "\n";
      }
      buf := buf + line;
    }
  }

  // A paragraph that does not fit in a chunk: by lines, and long lines by cutting.
  method SplitOversized(chunks0: seq<string>, paragraph: string, target: nat)
    returns (chunks: seq<string>, buf: string)
    ensures var lines := TextLines(paragraph);
      chunks == chunks0 + ClosedByLines(lines, |lines|, target) && buf == Buffer(lines, |lines|, target)
  {
    chunks, buf := chunks0, "";
    var lines := TextLines(paragraph);
    for k := 0 to |lines|
      invariant chunks == chunks0 + ClosedByLines(lines, k, target) && buf == Buffer(lines, k, target)
    {
      chunks, buf := AddLine(chunks, buf, lines[k], target);
    }
  }

  // One piece between blank lines.
  method AddParagraph(chunks0: seq<string>, current0: string, piece: string, target: nat)
    returns (chunks: seq<string>, current: string)
    ensures Progress(chunks, current) == WithPiece(Progress(chunks0, current0), piece, target)
  {
    chunks, current := chunks0, current0;
    var paragraph := Trim(piece);
    if paragraph == "" {
      return;
    }
    if |current| + |paragraph| + 2 <= target {
      if current != "" {
        current := current + "\n\n";
      }
      current := current + paragraph;
      return;
    }
    if current != "" {
      chunks := chunks + [current];
      current := "";
    }
    if |paragraph| <= target {
      current := paragraph;
      return;
    }
    chunks, current := SplitOversized(chunks, paragraph, target);
  }

  /** Split a text: no chunk exceeds the target; the chunks hold its solid characters in order, two
      of them side by side only where the text has them so; paragraphs that fit are grouped with
      blank lines between them, each group as large as it can be; and a chunk is empty exactly if a
      paragraph that does not fit leaves one. */
  method SplitIntoChunks(text: string, target: nat) returns (chunks: seq<string>)
    ensures chunks == ChunksOf(text, target)
    ensures Fit(chunks, target)
    ensures Agree(GlyphsOf(chunks, First), Glyphs(text, Apart)) && SolidAll(chunks) == Solid(text)
    ensures AllFit(Paragraphs(text), target) ==>
      exists starts :: Grouped(chunks, Texts(Paragraphs(text)), starts, target, "\n\n")
    ensures "" in chunks <==> AnyLeavesEmpty(Paragraphs(text), target)
  {
    chunks := [];
    var current := "";
    var pieces := Paragraphs(text);
    for k := 0 to |pieces|
      invariant Progress(chunks, current) == WithPieces(pieces, k, target)
    {
      chunks, current := AddParagraph(chunks, current, pieces[k], target);
    }
    if Trim(current) != "" {
      chunks := chunks + [current];
    }
    ChunksFit(text, target);
    ChunksAgree(text, target);
    AgreementIsSolid(chunks, text, Apart);
    if AllFit(pieces, target) {
      var starts := ChunksGrouped(text, target);
    }
    EmptyAmongChunks(text, target);
  }
}
