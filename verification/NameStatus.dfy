/** Parsing `git diff --name-status -z`. */
module NameStatus {
  import opened Splitting

  datatype Change = Change(path: string, status: string)

  // ----- fields

  // The text between the NULs; one more field than there are NULs.
  function Fields(raw: string): seq<string> {
    Split(raw, '\0')
  }

  lemma {:induction false} FieldsOf(field: string, rest: string)
    requires '\0' !in field
    ensures Fields(field + "\0" + rest) == [field] + Fields(rest)
  {
    SplitAfter(field, '\0', rest);
  }

  // ----- the parser

  // What one rename or copy adds.
  function Moved(code: char, from: string, next: string): seq<Change> {
    (if code == 'R' && from != "" then [Change(from, "D")] else []) + (if next != "" then [Change(next, "A")] else [])
  }

  // What an ordinary entry adds.
  function Plain(code: char, path: string): seq<Change> {
    if path == "" then []
    else [Change(path, if code == 'A' then "A" else if code == 'D' then "D" else "M")]
  }

  predicate IsMove(status: string) {
    status != "" && (status[0] == 'R' || status[0] == 'C')
  }

  /** The changes a list of fields stands for, record by record. */
  function Parsed(fields: seq<string>): seq<Change>
    decreases |fields|
  {
    if fields == [] then []
    else if fields[0] == "" then Parsed(fields[1..])
    else if IsMove(fields[0]) then
      if |fields| < 3 then [] else Moved(fields[0][0], fields[1], fields[2]) + Parsed(fields[3..])
    else
      if |fields| < 2 then [] else Plain(fields[0][0], fields[1]) + Parsed(fields[2..])
  }

  // The same from position `i` on.
  function ParsedFrom(fields: seq<string>, i: nat): seq<Change>
    requires i <= |fields|
    decreases |fields| - i
  {
    if i == |fields| then []
    else if fields[i] == "" then ParsedFrom(fields, i + 1)
    else if IsMove(fields[i]) then
      if i + 3 > |fields| then [] else Moved(fields[i][0], fields[i + 1], fields[i + 2]) + ParsedFrom(fields, i + 3)
    else
      if i + 2 > |fields| then [] else Plain(fields[i][0], fields[i + 1]) + ParsedFrom(fields, i + 2)
  }

  lemma {:induction false} ParsedFromIsParsed(fields: seq<string>, i: nat)
    requires i <= |fields|
    ensures ParsedFrom(fields, i) == Parsed(fields[i..])
    decreases |fields| - i
  {
    if i < |fields| {
      var rest := fields[i..];
      assert rest[1..] == fields[i + 1..];
      assert i + 2 <= |fields| ==> rest[2..] == fields[i + 2..];
      assert i + 3 <= |fields| ==> rest[3..] == fields[i + 3..];
      ParsedFromIsParsed(fields, i + 1);
      if i + 2 <= |fields| { ParsedFromIsParsed(fields, i + 2); }
      if i + 3 <= |fields| { ParsedFromIsParsed(fields, i + 3); }
    }
  }

  lemma {:induction false} Associative(a: seq<Change>, b: seq<Change>, c: seq<Change>)
    ensures a + (b + c) == (a + b) + c
  {
  }

  method PushPlain(out0: seq<Change>, code: char, path: string) returns (out: seq<Change>)
    ensures out == out0 + Plain(code, path)
  {
    out := out0;
    if path != "" {
      out := out + [Change(path, if code == 'A' then "A" else if code == 'D' then "D" else "M")];
    }
  }

  method PushMove(out0: seq<Change>, code: char, from: string, next: string) returns (out: seq<Change>)
    ensures out == out0 + Moved(code, from, next)
  {
    out := out0;
    if code == 'R' && from != "" {
      out := out + [Change(from, "D")];
    }
    if next != "" {
      out := out + [Change(next, "A")];
    }
  }

  // One turn of the loop: a status and the paths it asks for. Where they are missing, the
  // parse is over.
  method ParseRecord(parts: seq<string>, at: nat, out0: seq<Change>) returns (out: seq<Change>, i: nat)
    requires at < |parts|
    ensures at < i <= |parts|
    ensures out + ParsedFrom(parts, i) == out0 + ParsedFrom(parts, at)
  {
    out := out0;
    var status := parts[at];
    i := at + 1;
    if status == "" {
      return;
    }
    var code := status[0];
    if code == 'R' || code == 'C' {
      if i + 1 >= |parts| {
        return out, |parts|;
      }
      var from, next := parts[i], parts[i + 1];
      i := i + 2;
      Associative(out0, Moved(code, from, next), ParsedFrom(parts, i));
      out := PushMove(out, code, from, next);
      return;
    }
    if i >= |parts| {
      return out, |parts|;
    }
    out := PushPlain(out, code, parts[i]);
    i := i + 1;
    Associative(out0, Plain(code, parts[i - 1]), ParsedFrom(parts, i));
  }

  method ParseNameStatus(raw: string) returns (out: seq<Change>)
    ensures out == Parsed(Fields(raw))
  {
    out := [];
    var parts := Fields(raw);
    ParsedFromIsParsed(parts, 0);
    assert parts[0..] == parts;
    var i := 0;
    while i < |parts|
      invariant i <= |parts|
      invariant out + ParsedFrom(parts, i) == ParsedFrom(parts, 0)
    {
      out, i := ParseRecord(parts, i, out);
    }
    assert out + [] == out;
  }

  // ----- the printer's side

  /** One record as git prints it: an ordinary status and its path, or a rename or copy
      with its score and two paths. */
  datatype Record =
    | Ordinary(status: string, path: string)
    | Renamed(score: string, from: string, next: string)
    | Copied(score: string, from: string, next: string)

  predicate NulFree(s: string) { '\0' !in s }

  predicate GoodRecord(r: Record) {
    match r
    case Ordinary(status, path) => status != "" && !IsMove(status) && path != "" && NulFree(status) && NulFree(path)
    case Renamed(score, from, next) => from != "" && next != "" && NulFree(score) && NulFree(from) && NulFree(next)
    case Copied(score, from, next) => from != "" && next != "" && NulFree(score) && NulFree(from) && NulFree(next)
  }

  function PrintRecord(r: Record): seq<string> {
    match r
    case Ordinary(status, path) => [status, path]
    case Renamed(score, from, next) => ["R" + score, from, next]
    case Copied(score, from, next) => ["C" + score, from, next]
  }

  function Terminated(fields: seq<string>): string {
    if fields == [] then "" else fields[0] + "\0" + Terminated(fields[1..])
  }

  function Print(records: seq<Record>): string {
    if records == [] then "" else Terminated(PrintRecord(records[0])) + Print(records[1..])
  }

  // What a record means relative to the baseline.
  function Meaning(r: Record): seq<Change> {
    match r
    case Ordinary(status, path) =>
      [Change(path, if "A" <= status then "A" else if "D" <= status then "D" else "M")]
    case Renamed(_, from, next) => [Change(from, "D"), Change(next, "A")]
    case Copied(_, _, next) => [Change(next, "A")]
  }

  function Meanings(records: seq<Record>): seq<Change> {
    if records == [] then [] else Meaning(records[0]) + Meanings(records[1..])
  }

  lemma {:induction false} TextCons(first: string, more: string, rest: string)
    ensures first + "\0" + more + rest == first + "\0" + (more + rest)
  {
  }

  lemma {:induction false} Cons(first: string, more: seq<string>, rest: seq<string>)
    ensures [first] + (more + rest) == ([first] + more) + rest
  {
  }

  lemma {:induction false} FirstTerminated(fields: seq<string>, rest: string)
    requires fields != [] && NulFree(fields[0])
    ensures Fields(Terminated(fields) + rest) == [fields[0]] + Fields(Terminated(fields[1..]) + rest)
  {
    var tail := Terminated(fields[1..]) + rest;
    TextCons(fields[0], Terminated(fields[1..]), rest);
    FieldsOf(fields[0], tail);
  }

  lemma {:induction false} FieldsOfTerminated(fields: seq<string>, rest: string)
    requires forall k :: 0 <= k < |fields| ==> NulFree(fields[k])
    ensures Fields(Terminated(fields) + rest) == fields + Fields(rest)
  {
    if fields == [] {
      assert Terminated(fields) + rest == rest;
    } else {
      var first, more := fields[0], fields[1..];
      FirstTerminated(fields, rest);
      FieldsOfTerminated(more, rest);
      Cons(first, more, Fields(rest));
      assert [first] + more == fields;
    }
  }

  lemma {:induction false} ParsedOfRecord(r: Record, rest: seq<string>)
    requires GoodRecord(r)
    ensures Parsed(PrintRecord(r) + rest) == Meaning(r) + Parsed(rest)
  {
    var fields := PrintRecord(r) + rest;
    assert fields[|PrintRecord(r)|..] == rest;
    match r
    case Ordinary(status, path) =>
      assert fields[0] == status && fields[1] == path;
    case Renamed(score, from, next) =>
      assert fields[0][0] == 'R' && fields[1] == from && fields[2] == next;
    case Copied(score, from, next) =>
      assert fields[0][0] == 'C' && fields[1] == from && fields[2] == next;
  }

  /** Parsing undoes printing, for every list of records. */
  lemma {:induction false} ParseOfPrint(records: seq<Record>)
    requires forall k :: 0 <= k < |records| ==> GoodRecord(records[k])
    ensures Parsed(Fields(Print(records))) == Meanings(records)
  {
    if records != [] {
      var r, rest := records[0], Print(records[1..]);
      assert GoodRecord(r);
      FieldsOfTerminated(PrintRecord(r), rest);
      ParsedOfRecord(r, Fields(rest));
      ParseOfPrint(records[1..]);
    }
  }

  // ----- truncated input

  lemma {:induction false} PrefixAfter(head: seq<Change>, a: seq<Change>, b: seq<Change>)
    requires a <= b
    ensures head + a <= head + b
  {
  }

  lemma {:induction false} FewerInMove(fields: seq<string>, n: nat)
    requires 0 < n <= |fields| && fields[0] != "" && IsMove(fields[0])
    requires n >= 3 ==> Parsed(fields[3..][..n - 3]) <= Parsed(fields[3..])
    requires 3 <= n < |fields| ==> Parsed(fields[3..][..n - 3] + [""]) <= Parsed(fields[3..])
    ensures Parsed(fields[..n]) <= Parsed(fields)
    ensures n < |fields| ==> Parsed(fields[..n] + [""]) <= Parsed(fields)
  {
    var cut := fields[..n];
    if n >= 3 {
      var head, rest := Moved(fields[0][0], fields[1], fields[2]), fields[3..][..n - 3];
      assert cut[3..] == rest && (cut + [""])[3..] == rest + [""];
      PrefixAfter(head, Parsed(rest), Parsed(fields[3..]));
      if n < |fields| { PrefixAfter(head, Parsed(rest + [""]), Parsed(fields[3..])); }
    } else if n == 2 && |fields| >= 3 {
      assert (cut + [""])[3..] == [];
      assert Parsed(cut + [""]) == Moved(fields[0][0], fields[1], "");
    }
  }

  lemma {:induction false} FewerInPlain(fields: seq<string>, n: nat)
    requires 0 < n <= |fields| && fields[0] != "" && !IsMove(fields[0])
    requires n >= 2 ==> Parsed(fields[2..][..n - 2]) <= Parsed(fields[2..])
    requires 2 <= n < |fields| ==> Parsed(fields[2..][..n - 2] + [""]) <= Parsed(fields[2..])
    ensures Parsed(fields[..n]) <= Parsed(fields)
    ensures n < |fields| ==> Parsed(fields[..n] + [""]) <= Parsed(fields)
  {
    var cut := fields[..n];
    if n >= 2 {
      var head, rest := Plain(fields[0][0], fields[1]), fields[2..][..n - 2];
      assert cut[2..] == rest && (cut + [""])[2..] == rest + [""];
      PrefixAfter(head, Parsed(rest), Parsed(fields[2..]));
      if n < |fields| { PrefixAfter(head, Parsed(rest + [""]), Parsed(fields[2..])); }
    } else {
      assert (cut + [""])[2..] == [];
    }
  }

  // Stopping after `n` fields, with or without the empty field a final NUL leaves.
  lemma {:induction false} FewerFields(fields: seq<string>, n: nat)
    requires n <= |fields|
    ensures Parsed(fields[..n]) <= Parsed(fields)
    ensures n < |fields| ==> Parsed(fields[..n] + [""]) <= Parsed(fields)
    decreases |fields|
  {
    if n == 0 {
      assert fields[..n] + [""] == [""];
    } else if fields[0] == "" {
      assert fields[..n][1..] == fields[1..][..n - 1] && (fields[..n] + [""])[1..] == fields[1..][..n - 1] + [""];
      FewerFields(fields[1..], n - 1);
    } else if IsMove(fields[0]) {
      if n >= 3 { FewerFields(fields[3..], n - 3); }
      FewerInMove(fields, n);
    } else {
      if n >= 2 { FewerFields(fields[2..], n - 2); }
      FewerInPlain(fields, n);
    }
  }

  lemma {:induction false} CutAtFirst(field: string, rest: string)
    requires '\0' !in field
    ensures var raw := field + "\0" + rest;
            Fields(raw[..|field|]) == [field] && Fields(raw[..|field| + 1]) == [field] + [""]
  {
    var raw := field + "\0" + rest;
    IndexOfAfter(field, '\0', "");
    assert raw[..|field|] == field && raw[..|field| + 1] == field + "\0" + "";
    FieldsOf(field, "");
  }

  lemma {:induction false} CutInside(field: string, rest: string, k: nat)
    requires k < |rest|
    ensures (field + "\0" + rest)[..|field| + 1 + k] == field + "\0" + rest[..k]
    ensures (field + "\0" + rest)[..|field| + 1 + k + 1] == field + "\0" + rest[..k + 1]
  {
  }

  lemma {:induction false} FirstOfCons(field: string, rest: seq<string>, m: nat)
    requires m <= |rest|
    ensures ([field] + rest)[..m + 1] == [field] + rest[..m]
    ensures ([field] + rest)[..m + 1] + [""] == [field] + (rest[..m] + [""])
  {
  }

  lemma {:induction false} CutLater(field: string, rest: string, k: nat, m: nat)
    requires '\0' !in field && k < |rest| && m <= |Fields(rest)|
    requires Fields(rest[..k]) == Fields(rest)[..m] && Fields(rest[..k + 1]) == Fields(rest)[..m] + [""]
    ensures var raw := field + "\0" + rest;
            && Fields(raw[..|field| + 1 + k]) == ([field] + Fields(rest))[..m + 1]
            && Fields(raw[..|field| + 1 + k + 1]) == ([field] + Fields(rest))[..m + 1] + [""]
  {
    CutInside(field, rest, k);
    FieldsOf(field, rest[..k]);
    FieldsOf(field, rest[..k + 1]);
    FirstOfCons(field, Fields(rest), m);
  }

  // The same, with the first field apart.
  lemma {:induction false} CutJoined(field: string, rest: string, at: nat) returns (n: nat)
    requires '\0' !in field && |field| <= at <= |field| + |rest|
    requires at > |field| ==> rest[at - |field| - 1] == '\0'
    ensures n <= |Fields(rest)|
    ensures Fields(field + "\0" + rest) == [field] + Fields(rest)
    ensures Fields((field + "\0" + rest)[..at]) == ([field] + Fields(rest))[..n]
    ensures Fields((field + "\0" + rest)[..at + 1]) == ([field] + Fields(rest))[..n] + [""]
    decreases |field| + |rest|, 1
  {
    FieldsOf(field, rest);
    if at == |field| {
      n := 1;
      CutAtFirst(field, rest);
    } else {
      var m := FieldsOfCut(rest, at - |field| - 1);
      n := m + 1;
      CutLater(field, rest, at - |field| - 1, m);
    }
  }

  lemma {:induction false} FieldEnds(raw: string, at: nat)
    requires at < |raw| && raw[at] == '\0'
    ensures IndexOf(raw, '\0') <= at && raw[IndexOf(raw, '\0')] == '\0' && '\0' !in raw[..IndexOf(raw, '\0')]
  {
    if raw[0] != '\0' {
      FieldEnds(raw[1..], at - 1);
      assert raw[..IndexOf(raw, '\0')] == [raw[0]] + raw[1..][..IndexOf(raw[1..], '\0')];
    }
  }

  // Cutting at a NUL drops whole fields.
  lemma {:induction false} FieldsOfCut(raw: string, at: nat) returns (n: nat)
    requires at < |raw| && raw[at] == '\0'
    ensures n < |Fields(raw)|
    ensures Fields(raw[..at]) == Fields(raw)[..n]
    ensures Fields(raw[..at + 1]) == Fields(raw)[..n] + [""]
    decreases |raw|, 0
  {
    var first := IndexOf(raw, '\0');
    FieldEnds(raw, at);
    var field, rest := raw[..first], raw[first + 1..];
    assert raw == field + "\0" + rest;
    n := CutJoined(field, rest, at);
  }

  /** Input cut at any NUL, keeping it or not, yields a prefix of the full result: no path
      is ever read as a status, or the other way round. */
  lemma {:induction false} TruncationIsPrefix(raw: string, at: nat)
    requires at < |raw| && raw[at] == '\0'
    ensures Parsed(Fields(raw[..at])) <= Parsed(Fields(raw))
    ensures Parsed(Fields(raw[..at + 1])) <= Parsed(Fields(raw))
  {
    var n := FieldsOfCut(raw, at);
    FewerFields(Fields(raw), n);
  }
}
