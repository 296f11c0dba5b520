/** Text as lines, and numbers as decimal text. */
module Lines {
  import opened Splitting

  // ----- lines

  /** The lines of a text. A final newline ends the last line, it does not start another. */
  function SplitLines(text: string): seq<string>
    decreases |text|
  {
    if text == "" then []
    else
      var n := IndexOf(text, '\n');
      if n == |text| then [text] else [text[..n]] + SplitLines(text[n + 1..])
  }

  function Unlines(lines: seq<string>): string {
    if lines == [] then "" else lines[0] + "\n" + Unlines(lines[1..])
  }

  ghost predicate NewlineFree(lines: seq<string>) {
    forall k :: 0 <= k < |lines| ==> '\n' !in lines[k]
  }

  lemma {:induction false} SplitLinesIsNewlineFree(text: string)
    ensures NewlineFree(SplitLines(text))
    decreases |text|
  {
    if text != "" {
      var n := IndexOf(text, '\n');
      FirstPieceFree(text, '\n');
      if n == |text| {
        assert text[..n] == text;
      } else {
        SplitLinesIsNewlineFree(text[n + 1..]);
      }
    }
  }

  /** Splitting undoes printing one line after another. */
  lemma {:induction false} SplitOfUnlines(lines: seq<string>)
    requires NewlineFree(lines)
    ensures SplitLines(Unlines(lines)) == lines
  {
    if lines != [] {
      var text, rest := Unlines(lines), Unlines(lines[1..]);
      IndexOfAfter(lines[0], '\n', rest);
      assert text[..|lines[0]|] == lines[0] && text[|lines[0]| + 1..] == rest;
      SplitOfUnlines(lines[1..]);
    }
  }

  // The text with its last line ended.
  function Ended(text: string): string {
    if text == "" || text[|text| - 1] == '\n' then text else text + "\n"
  }

  lemma {:induction false} EndedAfter(line: string, rest: string)
    ensures Ended(line + "\n" + rest) == line + "\n" + Ended(rest)
  {
    var text := line + "\n" + rest;
    assert rest != "" ==> text[|text| - 1] == rest[|rest| - 1];
    assert line + "\n" + (rest + "\n") == text + "\n";
  }

  lemma {:induction false} UnlinesCons(line: string, rest: seq<string>)
    ensures Unlines([line] + rest) == line + "\n" + Unlines(rest)
  {
    assert ([line] + rest)[1..] == rest;
  }

  lemma {:induction false} SplitFirst(text: string, n: nat)
    requires n == IndexOf(text, '\n') < |text|
    ensures Unlines(SplitLines(text)) == Ended(text)
    decreases |text|, 0
  {
    var first, rest := text[..n], text[n + 1..];
    UnlinesOfSplit(rest);
    UnlinesCons(first, SplitLines(rest));
    EndedAfter(first, rest);
    assert text == first + "\n" + rest;
  }

  /** Printing undoes splitting, but for a missing final newline. */
  lemma {:induction false} UnlinesOfSplit(text: string)
    ensures Unlines(SplitLines(text)) == Ended(text)
    decreases |text|, 1
  {
    if text != "" {
      var n := IndexOf(text, '\n');
      FirstPieceFree(text, '\n');
      if n == |text| {
        assert text[..n] == text;
        assert [text] + [] == [text];
        UnlinesCons(text, []);
      } else {
        SplitFirst(text, n);
      }
    }
  }

  lemma {:induction false} UnlinesConcat(a: seq<string>, b: seq<string>)
    ensures Unlines(a + b) == Unlines(a) + Unlines(b)
  {
    if a == [] {
      assert a + b == b;
    } else {
      assert (a + b)[1..] == a[1..] + b;
      UnlinesConcat(a[1..], b);
    }
  }

  // ----- decimal numbers

  predicate IsDigit(c: char) {
    '0' <= c <= '9'
  }

  function Digit(d: nat): (c: char)
    requires d < 10
    ensures IsDigit(c) && c as int - '0' as int == d
  {
    ('0' as int + d) as char
  }

  function Decimal(n: nat): (s: string)
    ensures |s| >= 1
  {
    if n < 10 then [Digit(n)] else Decimal(n / 10) + [Digit(n % 10)]
  }

  // The number written by a run of digits.
  function Value(s: string): nat
    requires forall k :: 0 <= k < |s| ==> IsDigit(s[k])
  {
    if s == "" then 0
    else
      assert IsDigit(s[|s| - 1]);
      10 * Value(s[..|s| - 1]) + (s[|s| - 1] as int - '0' as int)
  }

  function DigitRun(s: string): (n: nat)
    ensures n <= |s| && forall k :: 0 <= k < n ==> IsDigit(s[k])
  {
    if s != "" && IsDigit(s[0]) then 1 + DigitRun(s[1..]) else 0
  }

  lemma {:induction false} DecimalReads(n: nat)
    ensures forall k :: 0 <= k < |Decimal(n)| ==> IsDigit(Decimal(n)[k])
    ensures Value(Decimal(n)) == n
  {
    if n >= 10 {
      DecimalReads(n / 10);
      assert Decimal(n)[..|Decimal(n)| - 1] == Decimal(n / 10);
    } else {
      assert Decimal(n)[..0] == "";
    }
  }

  lemma {:induction false} DigitRunOf(digits: string, rest: string)
    requires forall k :: 0 <= k < |digits| ==> IsDigit(digits[k])
    requires rest != "" ==> !IsDigit(rest[0])
    ensures DigitRun(digits + rest) == |digits|
  {
    if digits == "" {
      assert digits + rest == rest;
    } else {
      assert (digits + rest)[1..] == digits[1..] + rest;
      DigitRunOf(digits[1..], rest);
    }
  }
}
