/** The chunks of a document: at most `target` characters each, whole paragraphs where they fit,
    whole lines where those do, and otherwise cuts between characters. */
module Chunks {
  import opened Common
  import opened Splitting
  import opened Whitespace

  // ----- UTF-8 positions

  function Width(c: char): (w: nat)
    ensures 1 <= w <= 4
  {
    var u := c as int;
    if u < 0x80 then 1 else if u < 0x800 then 2 else if u < 0x10000 then 3 else 4
  }

  function ByteLength(s: string): nat {
    if s == "" then 0 else Width(s[0]) + ByteLength(s[1..])
  }

  /** How many characters the first `bytes` bytes hold; none if they end inside one. */
  function CharsIn(s: string, bytes: nat): Option<nat> {
    if bytes == 0 then Some(0)
    else if s == "" || Width(s[0]) > bytes then None
    else match CharsIn(s[1..], bytes - Width(s[0])) case None => None case Some(n) => Some(n + 1)
  }

  predicate IsCharBoundary(s: string, bytes: nat) {
    CharsIn(s, bytes).Some?
  }

  lemma {:induction false} CharsInBounds(s: string, bytes: nat)
    requires IsCharBoundary(s, bytes)
    ensures var n := CharsIn(s, bytes).value;
            n <= |s| && n <= bytes && ByteLength(s[..n]) == bytes && (bytes > 0 ==> n > 0)
  {
    if bytes > 0 {
      CharsInBounds(s[1..], bytes - Width(s[0]));
      var n := CharsIn(s, bytes).value;
      assert s[..n][1..] == s[1..][..n - 1];
    }
  }

  // Split at a byte position, which must not fall inside a character.
  function SplitAt(s: string, bytes: nat): (string, string)
    requires IsCharBoundary(s, bytes)
  {
    CharsInBounds(s, bytes);
    var n := CharsIn(s, bytes).value;
    (s[..n], s[n..])
  }

  lemma {:induction false} CharsAtMostBytes(s: string)
    ensures |s| <= ByteLength(s)
  {
    if s != "" {
      CharsAtMostBytes(s[1..]);
    }
  }

  // ----- paragraphs and lines

  // Position of the first blank-line separator, or the length of the text.
  function SeparatorAt(text: string): (n: nat)
    ensures n <= |text|
    ensures n < |text| ==> n + 1 < |text| && text[n] == '\n' && text[n + 1] == '\n'
  {
    if |text| >= 2 && text[0] == '\n' && text[1] == '\n' then 0
    else if text == "" then 0
    else 1 + SeparatorAt(text[1..])
  }

  function Paragraphs(text: string): seq<string>
    decreases |text|
  {
    var n := SeparatorAt(text);
    if n == |text| then [text] else [text[..n]] + Paragraphs(text[n + 2..])
  }

  function StripReturn(line: string): string {
    if line != "" && line[|line| - 1] == '\r' then line[..|line| - 1] else line
  }

  // Lines end at `\n` or `\r\n`; a last line need not end.
  function TextLines(text: string): seq<string>
    decreases |text|
  {
    if text == "" then []
    else
      var n := IndexOf(text, '\n');
      if n == |text| then [text] else [StripReturn(text[..n])] + TextLines(text[n + 1..])
  }

  /** Parts with a separator between any two. */
  function Joined(parts: seq<string>, separator: string): string {
    if parts == [] then ""
    else if |parts| == 1 then parts[0]
    else parts[0] + separator + Joined(parts[1..], separator)
  }

  // Printed lines, each with its ending.
  function Printed(lines: seq<string>, crlf: seq<bool>): string
    requires |lines| == |crlf|
  {
    if lines == [] then "" else lines[0] + (if crlf[0] then "\r\n" else "\n") + Printed(lines[1..], crlf[1..])
  }

  // ----- chunks

  ghost predicate Fit(chunks: seq<string>, target: nat) {
    forall k :: 0 <= k < |chunks| ==> |chunks[k]| <= target || (target == 0 && |chunks[k]| == 1)
  }

  function Min(a: nat, b: nat): nat {
    if a < b then a else b
  }

  lemma {:induction false} FirstBoundary(s: string, bytes: nat)
    requires s != "" && 1 <= bytes <= Width(s[0])
    ensures IsCharBoundary(s, bytes) <==> bytes == Width(s[0])
    ensures IsCharBoundary(s, bytes) ==> CharsIn(s, bytes) == Some(1)
  {
    assert CharsIn(s[1..], 0) == Some(0);
  }

  // The last character boundary at or before a byte position.
  function LastBoundary(s: string, bytes: nat): (b: nat)
    ensures b <= bytes && IsCharBoundary(s, b)
    ensures forall k :: b < k <= bytes ==> !IsCharBoundary(s, k)
  {
    if IsCharBoundary(s, bytes) then bytes else LastBoundary(s, bytes - 1)
  }

  function CutAt(rest: string, target: nat): nat
    requires rest != ""
  {
    var b := LastBoundary(rest, Min(target, ByteLength(rest)));
    if b == 0 then Width(rest[0]) else b
  }

  lemma {:induction false} CutIsInside(rest: string, target: nat)
    requires |rest| > target
    ensures var cut := CutAt(rest, target);
      && cut > 0 && (cut >= ByteLength(rest) ==> |rest| == 1 && target == 0)
      && (cut < ByteLength(rest) ==>
            IsCharBoundary(rest, cut) && 1 <= CharsIn(rest, cut).value <= if target == 0 then 1 else target)
  {
    CharsAtMostBytes(rest);
    var b := LastBoundary(rest, Min(target, ByteLength(rest)));
    if b == 0 {
      FirstBoundary(rest, Width(rest[0]));
      CharsAtMostBytes(rest[1..]);
    } else {
      CharsInBounds(rest, b);
    }
  }

  /** What is left of a line once it has been cut down to the target. */
  function CutRest(line: string, target: nat): (rest: string)
    ensures |rest| <= target
    decreases |line|
  {
    if |line| <= target then line
    else
      CutIsInside(line, target);
      var cut := CutAt(line, target);
      if cut >= ByteLength(line) then "" else CutRest(SplitAt(line, cut).1, target)
  }

  /** The pieces that are cut off a line until what is left fits. */
  function Cuts(line: string, target: nat): seq<string>
    decreases |line|
  {
    if |line| <= target then []
    else
      CutIsInside(line, target);
      var cut := CutAt(line, target);
      if cut >= ByteLength(line) then [line]
      else [SplitAt(line, cut).0] + Cuts(SplitAt(line, cut).1, target)
  }

  // One text behind another with a separator, unless nothing stands before it.
  function Behind(before: string, separator: string, more: string): string {
    if before == "" then more else before + separator + more
  }

  /** The buffer behind one more line of an oversized paragraph. */
  function BufferAfter(buf: string, line: string, target: nat): string {
    var room := if |buf| + |line| + 1 > target then "" else buf;
    if |line| > target then CutRest(line, target) else Behind(room, "\n", line)
  }

  function Buffer(lines: seq<string>, k: nat, target: nat): string
    requires k <= |lines|
  {
    if k == 0 then "" else BufferAfter(Buffer(lines, k - 1, target), lines[k - 1], target)
  }

  // The chunks that one more line closes.
  function ClosedBy(buf: string, line: string, target: nat): seq<string> {
    (if |buf| + |line| + 1 > target then [buf] else []) + Cuts(line, target)
  }

  function ClosedByLines(lines: seq<string>, k: nat, target: nat): seq<string>
    requires k <= |lines|
  {
    if k == 0 then []
    else ClosedByLines(lines, k - 1, target) + ClosedBy(Buffer(lines, k - 1, target), lines[k - 1], target)
  }

  /** The chunks closed so far, and the text collected for the next one. */
  datatype Progress = Progress(chunks: seq<string>, current: string)

  // One more piece between blank lines.
  function WithPiece(p: Progress, piece: string, target: nat): Progress {
    var paragraph, lines := Trim(piece), TextLines(Trim(piece));
    var closed := if p.current == "" then p.chunks else p.chunks + [p.current];
    if paragraph == "" then p
    else if |p.current| + |paragraph| + 2 <= target then p.(current := Behind(p.current, "\n\n", paragraph))
    else if |paragraph| <= target then Progress(closed, paragraph)
    else Progress(closed + ClosedByLines(lines, |lines|, target), Buffer(lines, |lines|, target))
  }

  function WithPieces(pieces: seq<string>, k: nat, target: nat): Progress
    requires k <= |pieces|
  {
    if k == 0 then Progress([], "") else WithPiece(WithPieces(pieces, k - 1, target), pieces[k - 1], target)
  }

  function Closed(p: Progress): seq<string> {
    if Trim(p.current) == "" then p.chunks else p.chunks + [p.current]
  }

  // The chunks of a text.
  function ChunksOf(text: string, target: nat): seq<string> {
    Closed(WithPieces(Paragraphs(text), |Paragraphs(text)|, target))
  }
}
