/** Five-field cron expressions and the search for the next matching minute. */
module CronTable {
  import opened Common
  import opened Remainders
  import opened Splitting

  // Minutes since the epoch.
  type Minute = int

  const MAX_SEARCH_MINUTES: nat := 527_040

  // ----- one field

  datatype Base = Star | Range(first: int, last: int) | Single(value: int)

  /** One element of a comma list: `base` or `base/step`. */
  datatype Token = Token(base: Base, step: int)

  datatype FieldError = BadNumber | BadStep | BadRange

  // How a text reads as a whole number, if it does.
  type Reader = string -> Option<int>

  // The text behind the first separator; empty without one.
  function Behind(text: string, c: char): string {
    var n := IndexOf(text, c);
    if n == |text| then "" else text[n + 1..]
  }

  function ReadBase(base: string, readInt: Reader): Option<Base> {
    if base == "*" then Some(Star)
    else if '-' in base then
      match (readInt(base[..IndexOf(base, '-')]), readInt(Behind(base, '-')))
      case (Some(first), Some(last)) => Some(Range(first, last))
      case _ => None
    else match readInt(base) case Some(value) => Some(Single(value)) case None => None
  }

  /** An element as written: an empty step is no step, and a range is cut at its first `-`. */
  function ReadToken(text: string, readInt: Reader): Option<Token> {
    var base, step := text[..IndexOf(text, '/')], Behind(text, '/');
    match (ReadBase(base, readInt), if step == "" then Some(1) else readInt(step))
    case (Some(b), Some(n)) => Some(Token(b, n))
    case _ => None
  }

  function Span(token: Token, lower: int, upper: int): (int, int) {
    match token.base
    case Star => (lower, upper)
    case Range(first, last) => (first, last)
    case Single(value) => (value, value)
  }

  predicate GoodToken(token: Token, lower: int, upper: int) {
    var (start, end) := Span(token, lower, upper);
    token.step >= 1 && lower <= start <= end <= upper
  }

  /** A value lies on the grid a token selects. */
  predicate Selects(token: Token, lower: int, upper: int, v: int) {
    var (start, end) := Span(token, lower, upper);
    token.step >= 1 && start <= v <= end && (v - start) % token.step == 0
  }

  // The values `start`, `start + step`, and so on up to `end`.
  function Grid(start: int, end: int, step: int): set<int>
    requires step >= 1
    decreases end - start
  {
    if start > end then {} else {start} + Grid(start + step, end, step)
  }

  lemma {:induction false} GridMember(start: int, end: int, step: int, v: int)
    requires step >= 1
    ensures v in Grid(start, end, step) <==> start <= v <= end && (v - start) % step == 0
    decreases end - start
  {
    if start <= end {
      GridMember(start + step, end, step, v);
      if v >= start + step {
        ModShift(v - start, step, step);
      } else if start < v {
        ModUnique(v - start, step, 0, v - start);
      }
    }
  }

  // The grid of one token, value by value.
  method AddGrid(values0: set<int>, start: int, end: int, step: int) returns (values: set<int>)
    requires step >= 1
    ensures values == values0 + Grid(start, end, step)
  {
    values := values0;
    var v := start;
    while v <= end
      invariant values + Grid(v, end, step) == values0 + Grid(start, end, step)
      decreases end - v
    {
      values := values + {v};
      v := v + step;
    }
  }

  // The element is written well, and its range lies within the bounds.
  predicate GoodElement(text: string, lower: int, upper: int, readInt: Reader) {
    var token := ReadToken(text, readInt);
    token.Some? && GoodToken(token.value, lower, upper)
  }

  predicate ElementSelects(text: string, lower: int, upper: int, readInt: Reader, v: int) {
    var token := ReadToken(text, readInt);
    token.Some? && Selects(token.value, lower, upper, v)
  }

  ghost predicate GoodField(elements: seq<string>, lower: int, upper: int, readInt: Reader) {
    forall e :: e in elements ==> GoodElement(e, lower, upper, readInt)
  }

  ghost predicate FieldSelects(elements: seq<string>, lower: int, upper: int, readInt: Reader, v: int) {
    exists e :: e in elements && ElementSelects(e, lower, upper, readInt, v)
  }

  lemma {:induction false} SelectsOneMore(elements: seq<string>, k: nat, lower: int, upper: int, readInt: Reader,
                                          v: int)
    requires k < |elements|
    ensures FieldSelects(elements[..k + 1], lower, upper, readInt, v) <==>
            FieldSelects(elements[..k], lower, upper, readInt, v) ||
            ElementSelects(elements[k], lower, upper, readInt, v)
  {
    assert elements[..k + 1] == elements[..k] + [elements[k]];
    if FieldSelects(elements[..k], lower, upper, readInt, v) {
      var e :| e in elements[..k] && ElementSelects(e, lower, upper, readInt, v);
      assert e in elements[..k + 1];
    }
    assert elements[k] in elements[..k + 1];
  }

  // What is wrong with the first bad element, number `k`.
  ghost predicate FirstBad(elements: seq<string>, k: int, lower: int, upper: int, readInt: Reader, error: FieldError) {
    && 0 <= k < |elements| && GoodField(elements[..k], lower, upper, readInt)
    && var token := ReadToken(elements[k], readInt);
       match error
       case BadNumber => token.None?
       case BadStep => token.Some? && token.value.step < 1
       case BadRange => token.Some? && token.value.step >= 1 && !GoodToken(token.value, lower, upper)
  }

  /** A field is accepted exactly when every element of its comma list is, and selects what
      any element does; otherwise the first bad element is reported. */
  method Part(value: string, lower: int, upper: int, readInt: Reader)
    returns (error: Option<FieldError>, values: set<int>)
    ensures error.None? <==> GoodField(Split(value, ','), lower, upper, readInt)
    ensures error.None? ==> forall v :: v in values <==> FieldSelects(Split(value, ','), lower, upper, readInt, v)
    ensures error.Some? ==> exists k :: FirstBad(Split(value, ','), k, lower, upper, readInt, error.value)
  {
    values := {};
    var elements := Split(value, ',');
    for k := 0 to |elements|
      invariant GoodField(elements[..k], lower, upper, readInt)
      invariant forall v :: v in values <==> FieldSelects(elements[..k], lower, upper, readInt, v)
    {
      var read := ReadToken(elements[k], readInt);
      assert elements[k] in elements && elements[..k + 1] == elements[..k] + [elements[k]];
      if read.None? {
        assert FirstBad(elements, k, lower, upper, readInt, BadNumber);
        return Some(BadNumber), values;
      }
      var token := read.value;
      if token.step < 1 {
        assert FirstBad(elements, k, lower, upper, readInt, BadStep);
        return Some(BadStep), values;
      }
      var (start, end) := Span(token, lower, upper);
      if start < lower || end > upper || start > end {
        assert FirstBad(elements, k, lower, upper, readInt, BadRange);
        return Some(BadRange), values;
      }
      ghost var before := values;
      values := AddGrid(values, start, end, token.step);
      forall v
        ensures v in values <==> FieldSelects(elements[..k + 1], lower, upper, readInt, v)
      {
        GridMember(start, end, token.step, v);
        SelectsOneMore(elements, k, lower, upper, readInt, v);
      }
    }
    assert elements[..|elements|] == elements;
    return None, values;
  }

  // ----- elements as they are written

  // How a base is written, with numbers that hold neither a hyphen nor a slash.
  function WrittenBase(base: Base, show: int -> string): string {
    match base
    case Star => "*"
    case Range(first, last) => show(first) + "-" + show(last)
    case Single(value) => show(value)
  }

  function WrittenToken(token: Token, show: int -> string): string {
    WrittenBase(token.base, show) + if token.step == 1 then "" else "/" + show(token.step)
  }

  ghost predicate Prints(show: int -> string, readInt: Reader, n: int) {
    readInt(show(n)) == Some(n) && show(n) != "" && show(n) != "*" && '-' !in show(n) && '/' !in show(n)
  }

  lemma {:induction false} CutBehind(before: string, c: char, behind: string)
    requires c !in before
    ensures IndexOf(before, c) == |before| && Behind(before, c) == ""
    ensures IndexOf(before + [c] + behind, c) == |before|
    ensures (before + [c] + behind)[..|before|] == before && Behind(before + [c] + behind, c) == behind
  {
    IndexOfAfter(before, c, behind);
  }

  lemma {:induction false} BaseReads(base: Base, show: int -> string, readInt: Reader)
    requires match base
             case Star => true
             case Range(first, last) => Prints(show, readInt, first) && Prints(show, readInt, last)
             case Single(value) => Prints(show, readInt, value)
    ensures ReadBase(WrittenBase(base, show), readInt) == Some(base)
    ensures '/' !in WrittenBase(base, show)
  {
    match base
    case Range(first, last) =>
      CutBehind(show(first), '-', show(last));
      assert WrittenBase(base, show) == show(first) + ['-'] + show(last);
      assert WrittenBase(base, show)[|show(first)|] == '-';
    case _ =>
  }

  /** An element reads back as it was written, whatever the notation of numbers, as long as no number
      is written with a hyphen or a slash. */
  lemma {:induction false} TokenReads(token: Token, show: int -> string, readInt: Reader)
    requires Prints(show, readInt, token.step)
    requires match token.base
             case Star => true
             case Range(first, last) => Prints(show, readInt, first) && Prints(show, readInt, last)
             case Single(value) => Prints(show, readInt, value)
    ensures ReadToken(WrittenToken(token, show), readInt) == Some(token)
  {
    var base := WrittenBase(token.base, show);
    BaseReads(token.base, show, readInt);
    CutBehind(base, '/', show(token.step));
    if token.step == 1 {
      assert WrittenToken(token, show) == base && base[..|base|] == base;
    } else {
      assert WrittenToken(token, show) == base + ['/'] + show(token.step);
    }
  }

  /** What an element selects: a star every value of the field, a range what lies in it, a number
      itself; with a step, only what is a whole number of steps from the start. */
  lemma {:induction false} TokenSelects(step: int, first: int, last: int, lower: int, upper: int, v: int)
    requires step >= 1
    ensures Selects(Token(Star, step), lower, upper, v) <==> lower <= v <= upper && (v - lower) % step == 0
    ensures Selects(Token(Range(first, last), step), lower, upper, v) <==>
      first <= v <= last && (v - first) % step == 0
    ensures Selects(Token(Single(first), step), lower, upper, v) <==> v == first
    ensures GoodToken(Token(Range(first, last), step), lower, upper) <==> lower <= first <= last <= upper
    ensures GoodToken(Token(Single(first), step), lower, upper) <==> lower <= first <= upper
  {
    assert v == first ==> (v - first) % step == 0;
  }

  // The bounds of the five fields.
  function Bounds(field: nat): (int, int)
    requires field < 5
  {
    [(0, 59), (0, 23), (1, 31), (1, 12), (0, 6)][field]
  }

  datatype Cron = Cron(minute: set<int>, hour: set<int>, day: set<int>, month: set<int>, weekday: set<int>)

  function FieldOf(cron: Cron, field: nat): set<int>
    requires field < 5
  {
    [cron.minute, cron.hour, cron.day, cron.month, cron.weekday][field]
  }

  ghost predicate GoodPart(part: string, field: nat, readInt: Reader)
    requires field < 5
  {
    GoodField(Split(part, ','), Bounds(field).0, Bounds(field).1, readInt)
  }

  // The values are those that the part selects of its field.
  ghost predicate Selected(values: set<int>, part: string, field: nat, readInt: Reader)
    requires field < 5
  {
    forall v :: v in values <==> FieldSelects(Split(part, ','), Bounds(field).0, Bounds(field).1, readInt, v)
  }

  ghost predicate GoodExpression(parts: seq<string>, readInt: Reader) {
    |parts| == 5 && forall k :: 0 <= k < 5 ==> GoodPart(parts[k], k, readInt)
  }

  // What an expression reads as.
  ghost predicate ReadAs(parts: seq<string>, readInt: Reader, cron: Cron) {
    GoodExpression(parts, readInt) && forall k :: 0 <= k < 5 ==> Selected(FieldOf(cron, k), parts[k], k, readInt)
  }

  /** An expression, split at white space, is accepted exactly when it has five good fields,
      and each field of the result is what its part selects. */
  method Parse(parts: seq<string>, readInt: Reader) returns (cron: Option<Cron>)
    ensures cron.Some? <==> GoodExpression(parts, readInt)
    ensures cron.Some? ==> ReadAs(parts, readInt, cron.value)
  {
    if |parts| != 5 {
      return None;
    }
    var fields: seq<set<int>> := [];
    for k := 0 to 5
      invariant |fields| == k && forall j :: 0 <= j < k ==> GoodPart(parts[j], j, readInt)
      invariant forall j :: 0 <= j < k ==> Selected(fields[j], parts[j], j, readInt)
    {
      var (lower, upper) := Bounds(k);
      var error, values := Part(parts[k], lower, upper, readInt);
      if error.Some? {
        return None;
      }
      fields := fields + [values];
    }
    cron := Some(Cron(fields[0], fields[1], fields[2], fields[3], fields[4]));
    assert forall k :: 0 <= k < 5 ==> FieldOf(cron.value, k) == fields[k];
  }

  lemma {:induction false} SelectedInBounds(elements: seq<string>, lower: int, upper: int, readInt: Reader, v: int)
    requires GoodField(elements, lower, upper, readInt) && FieldSelects(elements, lower, upper, readInt, v)
    ensures lower <= v <= upper
  {
    var e :| e in elements && ElementSelects(e, lower, upper, readInt, v);
    assert GoodElement(e, lower, upper, readInt);
  }

  lemma {:induction false} StarSelectsAll(lower: int, upper: int, readInt: Reader, v: int)
    requires lower <= upper
    ensures Split("*", ',') == ["*"] && GoodField(["*"], lower, upper, readInt)
    ensures FieldSelects(["*"], lower, upper, readInt, v) <==> lower <= v <= upper
  {
    assert IndexOf("*", ',') == 1 && "*"[..1] == "*";
    assert IndexOf("*", '/') == 1;
    assert ReadToken("*", readInt) == Some(Token(Star, 1));
    assert ElementSelects("*", lower, upper, readInt, v) <==> lower <= v <= upper;
    assert "*" in ["*"];
  }

  /** No expression selects a value outside the calendar, and five stars are an expression that
      selects all of it; weekdays are 0 to 6. */
  lemma {:induction false} SelectsCalendar(parts: seq<string>, readInt: Reader, cron: Cron, v: int)
    ensures ReadAs(parts, readInt, cron) ==>
      && (v in cron.minute ==> 0 <= v <= 59) && (v in cron.hour ==> 0 <= v <= 23)
      && (v in cron.day ==> 1 <= v <= 31) && (v in cron.month ==> 1 <= v <= 12)
      && (v in cron.weekday ==> 0 <= v <= 6)
    ensures parts == ["*", "*", "*", "*", "*"] ==> GoodExpression(parts, readInt)
    ensures parts == ["*", "*", "*", "*", "*"] && ReadAs(parts, readInt, cron) ==>
      && (v in cron.minute <== 0 <= v <= 59) && (v in cron.hour <== 0 <= v <= 23)
      && (v in cron.day <== 1 <= v <= 31) && (v in cron.month <== 1 <= v <= 12)
      && (v in cron.weekday <== 0 <= v <= 6)
  {
    forall k | 0 <= k < 5
      ensures ReadAs(parts, readInt, cron) && v in FieldOf(cron, k) ==> Bounds(k).0 <= v <= Bounds(k).1
      ensures Split("*", ',') == ["*"] && GoodField(["*"], Bounds(k).0, Bounds(k).1, readInt)
      ensures FieldSelects(["*"], Bounds(k).0, Bounds(k).1, readInt, v) <==> Bounds(k).0 <= v <= Bounds(k).1
    {
      StarSelectsAll(Bounds(k).0, Bounds(k).1, readInt, v);
      if ReadAs(parts, readInt, cron) && v in FieldOf(cron, k) {
        SelectedInBounds(Split(parts[k], ','), Bounds(k).0, Bounds(k).1, readInt, v);
      }
    }
    assert cron.minute == FieldOf(cron, 0) && cron.hour == FieldOf(cron, 1) && cron.day == FieldOf(cron, 2);
    assert cron.month == FieldOf(cron, 3) && cron.weekday == FieldOf(cron, 4);
  }

  // ----- matching and searching

  /** The local date and time of a minute; Monday is day 0. */
  datatype Local = Local(minute: int, hour: int, day: int, month: int, weekday: int)

  // Cron counts weekdays from Sunday.
  predicate MatchesLocal(cron: Cron, at: Local) {
    && at.minute in cron.minute
    && at.hour in cron.hour
    && at.day in cron.day
    && at.month in cron.month
    && (at.weekday + 1) % 7 in cron.weekday
  }

  predicate Matches(cron: Cron, clock: Minute -> Local, at: Minute) {
    MatchesLocal(cron, clock(at))
  }

  /** A minute matches if all its parts are selected, its weekday under the number that cron has for
      it: 1 for Monday to 6 for Saturday, and 0 for Sunday. */
  lemma {:induction false} MatchesCalendar(cron: Cron, at: Local)
    requires 0 <= at.weekday <= 6
    ensures MatchesLocal(cron, at) <==>
      && at.minute in cron.minute && at.hour in cron.hour && at.day in cron.day && at.month in cron.month
      && [1, 2, 3, 4, 5, 6, 0][at.weekday] in cron.weekday
  {
    assert (at.weekday + 1) % 7 == [1, 2, 3, 4, 5, 6, 0][at.weekday];
  }

  /** The least matching minute after the one of `after`, a time in seconds; none exactly
      when no minute of the search window matches. */
  method Next(cron: Cron, clock: Minute -> Local, after: int) returns (found: Option<Minute>)
    ensures found.Some? ==>
      && after / 60 < found.value <= after / 60 + 527_040
      && Matches(cron, clock, found.value)
      && forall m :: after / 60 < m < found.value ==> !Matches(cron, clock, m)
    ensures found.None? ==>
      forall m :: after / 60 < m <= after / 60 + 527_040 ==> !Matches(cron, clock, m)
  {
    var candidate := after / 60 + 1;
    for n := 0 to MAX_SEARCH_MINUTES
      invariant candidate == after / 60 + 1 + n
      invariant forall m :: after / 60 < m < candidate ==> !Matches(cron, clock, m)
    {
      if Matches(cron, clock, candidate) {
        return Some(candidate);
      }
      candidate := candidate + 1;
    }
    return None;
  }

  /** The matching minutes in [`from`, `until`), in order. */
  function MatchingMinutes(cron: Cron, clock: Minute -> Local, from: Minute, until: Minute): seq<Minute>
    decreases until - from
  {
    if from >= until then []
    else if Matches(cron, clock, from) then [from] + MatchingMinutes(cron, clock, from + 1, until)
    else MatchingMinutes(cron, clock, from + 1, until)
  }

  ghost predicate Increasing(minutes: seq<Minute>) {
    forall j, k :: 0 <= j < k < |minutes| ==> minutes[j] < minutes[k]
  }

  lemma {:induction false} IncreasingCons(first: Minute, rest: seq<Minute>)
    requires Increasing(rest) && forall m :: m in rest ==> first < m
    ensures Increasing([first] + rest)
  {
    var all := [first] + rest;
    forall j, k | 0 <= j < k < |all|
      ensures all[j] < all[k]
    {
      assert all[k] == rest[k - 1] && rest[k - 1] in rest;
    }
  }

  lemma {:induction false} MatchingMinutesAre(cron: Cron, clock: Minute -> Local, from: Minute, until: Minute)
    ensures forall m :: m in MatchingMinutes(cron, clock, from, until) <==> from <= m < until && Matches(cron, clock, m)
    ensures Increasing(MatchingMinutes(cron, clock, from, until))
    decreases until - from
  {
    if from < until {
      MatchingMinutesAre(cron, clock, from + 1, until);
      IncreasingCons(from, MatchingMinutes(cron, clock, from + 1, until));
    }
  }

  // Minutes that do not match add nothing.
  lemma {:induction false} SkipToMatch(cron: Cron, clock: Minute -> Local, from: Minute, next: Minute, until: Minute)
    requires from <= next <= until && forall m :: from <= m < next ==> !Matches(cron, clock, m)
    ensures MatchingMinutes(cron, clock, from, until) == MatchingMinutes(cron, clock, next, until)
    decreases next - from
  {
    if from < next {
      SkipToMatch(cron, clock, from + 1, next, until);
    }
  }
}
