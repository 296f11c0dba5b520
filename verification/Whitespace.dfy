/** Unicode white space, trimming, and what a text says apart from it. */
module Whitespace {

  // The White_Space property of Unicode.
  predicate IsSpace(c: char) {
    var u := c as int;
    || 0x9 <= u <= 0xD || u == 0x20 || u == 0x85 || u == 0xA0 || u == 0x1680 || 0x2000 <= u <= 0x200A
    || u == 0x2028 || u == 0x2029 || u == 0x202F || u == 0x205F || u == 0x3000
  }

  // ----- trimming

  function TrimStart(s: string): string {
    if s != "" && IsSpace(s[0]) then TrimStart(s[1..]) else s
  }

  function TrimEnd(s: string): string {
    if s != "" && IsSpace(s[|s| - 1]) then TrimEnd(s[..|s| - 1]) else s
  }

  function Trim(s: string): string {
    TrimEnd(TrimStart(s))
  }

  ghost predicate Blank(s: string) {
    forall k :: 0 <= k < |s| ==> IsSpace(s[k])
  }

  lemma {:induction false} TrimStartIsTail(s: string) returns (a: nat)
    ensures a <= |s| && TrimStart(s) == s[a..] && Blank(s[..a])
    ensures TrimStart(s) != "" ==> !IsSpace(TrimStart(s)[0])
  {
    if s != "" && IsSpace(s[0]) {
      var b := TrimStartIsTail(s[1..]);
      a := b + 1;
      assert s[1..][b..] == s[a..] && s[..a] == [s[0]] + s[1..][..b];
    } else {
      a := 0;
      assert s[0..] == s;
    }
  }

  lemma {:induction false} TrimEndIsHead(s: string) returns (b: nat)
    ensures b <= |s| && TrimEnd(s) == s[..b] && Blank(s[b..])
    ensures TrimEnd(s) != "" ==> !IsSpace(TrimEnd(s)[|TrimEnd(s)| - 1])
  {
    b := |s|;
    if s != "" && IsSpace(s[|s| - 1]) {
      b := TrimEndIsHead(s[..|s| - 1]);
      assert s[b..] == s[..|s| - 1][b..] + [s[|s| - 1]];
    } else {
      assert s[..|s|] == s;
    }
  }

  /** A trimmed text is a slice that neither starts nor ends with white space, and there is
      nothing but white space around it. */
  lemma {:induction false} TrimIsSlice(s: string) returns (a: nat, b: nat)
    ensures a <= b <= |s| && Trim(s) == s[a..b] && Blank(s[..a]) && Blank(s[b..])
    ensures Trim(s) != "" ==> !IsSpace(Trim(s)[0]) && !IsSpace(Trim(s)[|Trim(s)| - 1])
  {
    a := TrimStartIsTail(s);
    var n := TrimEndIsHead(s[a..]);
    b := a + n;
    assert s[a..][..n] == s[a..b] && s[a..][n..] == s[b..];
  }

  lemma {:induction false} TrimOfBlank(s: string)
    ensures Trim(s) == "" <==> Blank(s)
  {
    var a, b := TrimIsSlice(s);
    assert s == s[..a] + s[a..b] + s[b..];
    if Trim(s) != "" {
      assert s[a] == Trim(s)[0];
    }
  }

  lemma {:induction false} TrimOfPadded(before: string, s: string, after: string)
    requires Blank(before) && Blank(after) && s != "" && !IsSpace(s[0]) && !IsSpace(s[|s| - 1])
    ensures Trim(before + s + after) == s
    decreases |before| + |after|
  {
    if before != "" {
      assert (before + s + after)[1..] == before[1..] + s + after;
      TrimOfPadded(before[1..], s, after);
    } else if after != "" {
      var n := |after| - 1;
      assert before + s + after == s + after && before + s + after[..n] == s + after[..n];
      assert (s + after)[..|s + after| - 1] == s + after[..n];
      TrimOfPadded(before, s, after[..n]);
    } else {
      assert before + s + after == s;
    }
  }

  // ----- solid characters

  /** The characters of a text that are not white space, in order. */
  function Solid(s: string): string {
    if s == "" then "" else if IsSpace(s[0]) then Solid(s[1..]) else [s[0]] + Solid(s[1..])
  }

  function SolidAll(texts: seq<string>): string {
    if texts == [] then "" else Solid(texts[0]) + SolidAll(texts[1..])
  }

  /** How a solid character stands to the solid one before it: first of its text, behind white
      space, or right behind it. */
  datatype Mark = First | Apart | Tight

  datatype Glyph = Glyph(c: char, mark: Mark)

  /** The solid characters with their marks; `mark` is that of the first, unless white space
      comes before it. */
  function Glyphs(s: string, mark: Mark): seq<Glyph> {
    if s == "" then []
    else if IsSpace(s[0]) then Glyphs(s[1..], if mark == First then First else Apart)
    else [Glyph(s[0], mark)] + Glyphs(s[1..], Tight)
  }

  function GlyphsOf(texts: seq<string>, mark: Mark): seq<Glyph> {
    if texts == [] then [] else Glyphs(texts[0], mark) + GlyphsOf(texts[1..], mark)
  }

  /** The same solid characters, and, but where a text starts, the same distances: two of them
      stand side by side in `parts` if and only if they do in `whole`. */
  ghost predicate Agree(parts: seq<Glyph>, whole: seq<Glyph>) {
    && |parts| == |whole|
    && (forall j :: 0 <= j < |parts| ==> parts[j].c == whole[j].c)
    && (forall j :: 0 <= j < |parts| ==> parts[j].mark == First || parts[j].mark == whole[j].mark)
  }

  function Chars(glyphs: seq<Glyph>): string {
    seq(|glyphs|, j requires 0 <= j < |glyphs| => glyphs[j].c)
  }

  lemma {:induction false} GlyphsAreSolid(s: string, mark: Mark)
    ensures Chars(Glyphs(s, mark)) == Solid(s)
  {
    if s != "" {
      GlyphsAreSolid(s[1..], if !IsSpace(s[0]) then Tight else if mark == First then First else Apart);
    }
  }

  lemma {:induction false} GlyphsOfAreSolid(texts: seq<string>, mark: Mark)
    ensures Chars(GlyphsOf(texts, mark)) == SolidAll(texts)
  {
    if texts != [] {
      GlyphsAreSolid(texts[0], mark);
      GlyphsOfAreSolid(texts[1..], mark);
      var a, b := Glyphs(texts[0], mark), GlyphsOf(texts[1..], mark);
      assert Chars(a + b) == Chars(a) + Chars(b);
    }
  }

  // The mark of a solid character right behind this text.
  function MarkAfter(s: string, mark: Mark): Mark {
    if s == "" then mark
    else MarkAfter(s[1..], if !IsSpace(s[0]) then Tight else if mark == First then First else Apart)
  }

  lemma {:induction false} GlyphsConcat(a: string, b: string, mark: Mark)
    ensures Glyphs(a + b, mark) == Glyphs(a, mark) + Glyphs(b, MarkAfter(a, mark))
  {
    if a == "" {
      assert a + b == b;
    } else {
      assert (a + b)[1..] == a[1..] + b;
      GlyphsConcat(a[1..], b, if !IsSpace(a[0]) then Tight else if mark == First then First else Apart);
    }
  }

  lemma {:induction false} GlyphsOfConcat(a: seq<string>, b: seq<string>, mark: Mark)
    ensures GlyphsOf(a + b, mark) == GlyphsOf(a, mark) + GlyphsOf(b, mark)
  {
    if a == [] {
      assert a + b == b;
    } else {
      assert (a + b)[1..] == a[1..] + b;
      GlyphsOfConcat(a[1..], b, mark);
    }
  }

  lemma {:induction false} GlyphsOfOne(s: string, mark: Mark)
    ensures GlyphsOf([s], mark) == Glyphs(s, mark)
  {
    assert [s][1..] == [];
  }

  lemma {:induction false} GlyphsSnoc(texts: seq<string>, s: string, mark: Mark)
    ensures GlyphsOf(texts + [s], mark) == GlyphsOf(texts, mark) + Glyphs(s, mark)
  {
    GlyphsOfConcat(texts, [s], mark);
    GlyphsOfOne(s, mark);
  }

  lemma {:induction false} GlyphsOfBlank(s: string, mark: Mark)
    requires Blank(s)
    ensures Glyphs(s, mark) == []
    ensures MarkAfter(s, mark) == if s == "" || mark == First then mark else Apart
  {
    if s != "" {
      GlyphsOfBlank(s[1..], if mark == First then First else Apart);
    }
  }

  lemma {:induction false} MarkAfterSplit(a: string, b: string, mark: Mark)
    ensures MarkAfter(a + b, mark) == MarkAfter(b, MarkAfter(a, mark))
  {
    if a == "" {
      assert a + b == b;
    } else {
      assert (a + b)[1..] == a[1..] + b;
      MarkAfterSplit(a[1..], b, if !IsSpace(a[0]) then Tight else if mark == First then First else Apart);
    }
  }

  // White space in front of a text sets it apart, or leaves it first.
  lemma {:induction false} BlankBefore(blank: string, s: string, mark: Mark)
    requires Blank(blank) && blank != ""
    ensures Glyphs(blank + s, mark) == Glyphs(s, if mark == First then First else Apart)
  {
    GlyphsConcat(blank, s, mark);
    GlyphsOfBlank(blank, mark);
  }

  lemma {:induction false} TrimKeepsGlyphs(s: string)
    ensures Glyphs(Trim(s), Apart) == Glyphs(s, Apart)
    ensures Trim(s) == "" ==> Glyphs(s, Apart) == []
    ensures Trim(s) != "" ==> Glyphs(Trim(s), First) != [] && Solid(Trim(s)) != ""
  {
    var a, b := TrimIsSlice(s);
    assert s == s[..a] + (s[a..b] + s[b..]);
    GlyphsConcat(s[..a], s[a..b] + s[b..], Apart);
    GlyphsOfBlank(s[..a], Apart);
    GlyphsConcat(s[a..b], s[b..], Apart);
    GlyphsOfBlank(s[b..], MarkAfter(s[a..b], Apart));
  }

  /** A part of a text that starts afresh agrees with it. */
  lemma {:induction false} StartAgrees(s: string, mark: Mark)
    ensures Agree(Glyphs(s, First), Glyphs(s, mark))
  {
    if s != "" && IsSpace(s[0]) {
      StartAgrees(s[1..], if mark == First then First else Apart);
    }
  }

  lemma {:induction false} AgreeConcat(a: seq<Glyph>, a': seq<Glyph>, b: seq<Glyph>, b': seq<Glyph>)
    requires Agree(a, a') && Agree(b, b')
    ensures Agree(a + b, a' + b')
  {
  }

  lemma {:induction false} AgreementIsSolid(parts: seq<string>, whole: string, mark: Mark)
    requires Agree(GlyphsOf(parts, First), Glyphs(whole, mark))
    ensures SolidAll(parts) == Solid(whole)
  {
    GlyphsOfAreSolid(parts, First);
    GlyphsAreSolid(whole, mark);
  }
}
