/** Memory rows and their exponential decay, pass by pass and in closed form. */
module MemoryDecay {
  import opened Common

  // Milliseconds.
  type Time = int

  type Id = string

  const DECAY_FLOOR: real := 0.1
  // Half a day.
  const DECAY_MIN_MILLIS: Time := 43_200_000

  datatype Lifecycle = Candidate | Active | Established | Superseded | Disputed | Expired | Archived

  /** `dataIsObject` says whether the data blob can hold the title, the content, the flag and the
      time of the last decay; they read as empty where it cannot. */
  datatype Row = Row(
    dataIsObject: bool,
    title: string,
    content: string,
    state: Lifecycle,
    supersededBy: Option<Id>,
    disputedBy: Option<Id>,
    pinned: bool,
    createdAt: Option<Time>,
    updatedAt: Option<Time>,
    lastDecayAt: Option<Time>,
    strength: real,
    salience: real)

  /** The decay factor of one millisecond: the half-life fixes it, and any base strictly
      between 0 and 1 behaves the same way. */
  type Base = q: real | 0.0 < q < 1.0 witness 0.5

  function Pow(q: Base, n: nat): (p: real) {
    if n == 0 then 1.0 else q * Pow(q, n - 1)
  }

  lemma {:induction false} ProductInUnit(a: real, b: real)
    requires 0.0 < a < 1.0 && 0.0 < b <= 1.0
    ensures 0.0 < a * b < 1.0
  {
    assert a * b <= a * 1.0;
  }

  lemma {:induction false} PowInUnit(q: Base, n: nat)
    ensures 0.0 < Pow(q, n) <= 1.0
    ensures n > 0 ==> Pow(q, n) < 1.0
  {
    if n > 0 {
      PowInUnit(q, n - 1);
      ProductInUnit(q, Pow(q, n - 1));
    }
  }

  lemma {:induction false} PowSum(q: Base, m: nat, n: nat)
    ensures Pow(q, m + n) == Pow(q, m) * Pow(q, n)
  {
    if m > 0 {
      PowSum(q, m - 1, n);
      assert Pow(q, m + n) == q * (Pow(q, m - 1) * Pow(q, n)) == (q * Pow(q, m - 1)) * Pow(q, n);
    }
  }

  // ----- one row, one pass

  predicate Retrievable(state: Lifecycle) {
    state == Candidate || state == Active || state == Established
  }

  function Later(a: Option<Time>, b: Option<Time>): Option<Time> {
    if a.None? then b else if b.None? then a else if a.value >= b.value then a else b
  }

  // When the row was last decayed or touched.
  function Anchor(row: Row): Option<Time> {
    var last := Later(row.lastDecayAt, row.updatedAt);
    if last.Some? then last else row.createdAt
  }

  function Clamp(x: real): real {
    if x < DECAY_FLOOR then DECAY_FLOOR else if x > 1.0 then 1.0 else x
  }

  // Whether a pass at `now` looks at the row at all.
  predicate Applies(row: Row, now: Time) {
    && row.dataIsObject && Retrievable(row.state) && !row.pinned
    && Anchor(row).Some? && now - Anchor(row).value >= DECAY_MIN_MILLIS
  }

  function DecayRow(q: Base, row: Row, now: Time): Row {
    if !Applies(row, now) then row
    else
      var factor := Pow(q, now - Anchor(row).value);
      var strength, salience := row.strength * factor, row.salience * factor;
      var archived := strength <= DECAY_FLOOR || salience <= DECAY_FLOOR;
      if !archived && strength == row.strength && salience == row.salience then row
      else
        row.(strength := Clamp(strength), salience := Clamp(salience), lastDecayAt := Some(now),
             state := if archived then Archived else row.state)
  }

  // A row as the store keeps it: both values within the unit interval.
  ghost predicate UnitValues(row: Row) {
    0.0 <= row.strength <= 1.0 && 0.0 <= row.salience <= 1.0
  }

  // A value shrinks under a factor from the unit interval.
  lemma {:induction false} Shrinks(x: real, factor: real)
    requires 0.0 <= x <= 1.0 && 0.0 < factor <= 1.0
    ensures 0.0 <= x * factor <= x
    ensures x > 0.0 && factor < 1.0 ==> x * factor < x
  {
    assert x * factor <= x * 1.0;
    if x > 0.0 && factor < 1.0 {
      assert x * factor < x * 1.0;
    }
  }

  // A value has fallen to the floor by `now`.
  ghost predicate AtFloor(q: Base, row: Row, now: Time)
    requires Anchor(row).Some? && now >= Anchor(row).value
  {
    || row.strength * Pow(q, now - Anchor(row).value) <= DECAY_FLOOR
    || row.salience * Pow(q, now - Anchor(row).value) <= DECAY_FLOOR
  }

  // One value is the other after `span` milliseconds of decay.
  ghost predicate Scaled(q: Base, x: real, y: real, span: nat) {
    y == x * Pow(q, span)
  }

  /** The closed form: `final` holds the values of `row` times the factor of the time
      between their anchors. */
  ghost predicate ClosedForm(q: Base, row: Row, final: Row) {
    && Anchor(row).Some? && Anchor(final).Some? && Anchor(final).value >= Anchor(row).value
    && Scaled(q, row.strength, final.strength, Anchor(final).value - Anchor(row).value)
    && Scaled(q, row.salience, final.salience, Anchor(final).value - Anchor(row).value)
  }

  // Everything of a row that decay never changes.
  ghost predicate SameBut(row: Row, other: Row) {
    other.(strength := row.strength, salience := row.salience, lastDecayAt := row.lastDecayAt,
           state := row.state) == row
  }

  /** One pass over a row: what it never touches, where its values lie, and, when the row
      stays in recall, the closed form with the anchor at the pass. It is archived exactly
      when a value would reach the floor. */
  lemma {:induction false} OnePass(q: Base, row: Row, now: Time)
    requires UnitValues(row)
    ensures var next := DecayRow(q, row, now);
            && SameBut(row, next) && UnitValues(next)
            && (next != row ==> DECAY_FLOOR <= next.strength && DECAY_FLOOR <= next.salience)
            && (!Applies(row, now) ==> next == row)
            && (Applies(row, now) && next.state == row.state ==>
                  ClosedForm(q, row, next) && Anchor(next) == Some(now)
                  && next.strength > DECAY_FLOOR && next.salience > DECAY_FLOOR)
            && (Applies(row, now) ==> (next.state == Archived <==> AtFloor(q, row, now)))
            && (next.state != row.state ==>
                  next.state == Archived && next.lastDecayAt == Some(now)
                  && Applies(row, now))
  {
    if Applies(row, now) {
      var factor := Pow(q, now - Anchor(row).value);
      PowInUnit(q, now - Anchor(row).value);
      Shrinks(row.strength, factor);
      Shrinks(row.salience, factor);
    }
  }

  // The row was last decayed or touched at `t`, or made then if neither is known.
  ghost predicate IdleSince(row: Row, t: Time) {
    && (row.lastDecayAt.Some? ==> row.lastDecayAt.value <= t)
    && (row.updatedAt.Some? ==> row.updatedAt.value <= t)
    && (|| row.lastDecayAt == Some(t) || row.updatedAt == Some(t)
        || (row.lastDecayAt.None? && row.updatedAt.None? && row.createdAt == Some(t)))
  }

  /** A pass changes a row if and only if its data can be read, it is in recall and not held, and
      it is known to have been idle for half a day or more: over the reals one of its values then
      always moves. */
  lemma {:induction false} ChangesIff(q: Base, row: Row, now: Time)
    requires UnitValues(row)
    ensures DecayRow(q, row, now) != row <==>
      && row.dataIsObject && !row.pinned
      && (row.state == Candidate || row.state == Active || row.state == Established)
      && exists t :: IdleSince(row, t) && now - t >= 12 * 60 * 60 * 1000
  {
    OnePass(q, row, now);
    assert Anchor(row).Some? ==> IdleSince(row, Anchor(row).value);
  }

  // One value is the other after `span` milliseconds of decay, but not below a tenth.
  ghost predicate Fallen(q: Base, x: real, y: real, span: nat) {
    if x * Pow(q, span) <= 0.1 then y == 0.1 else y == x * Pow(q, span)
  }

  /** What a row becomes that a pass changes: both values shrink by the factor of the idle time, but
      not below a tenth, and the row is archived if one would. */
  lemma {:induction false} ChangedRow(q: Base, row: Row, now: Time, t: Time)
    requires UnitValues(row) && DecayRow(q, row, now) != row && IdleSince(row, t)
    ensures now >= t
    ensures var next, span := DecayRow(q, row, now), now - t;
      && SameBut(row, next) && next.lastDecayAt == Some(now)
      && Fallen(q, row.strength, next.strength, span) && Fallen(q, row.salience, next.salience, span)
      && (next.state == Archived <==> next.strength == 0.1 || next.salience == 0.1)
      && (next.state != Archived ==> next.state == row.state)
  {
    assert Anchor(row) == Some(t) && Applies(row, now);
    PowInUnit(q, now - t);
    Shrinks(row.strength, Pow(q, now - t));
    Shrinks(row.salience, Pow(q, now - t));
  }

  /** After the half-life a row that stays in recall has half its values. */
  lemma {:induction false} HalfLifeHalves(q: Base, row: Row, t: Time, halfLife: nat)
    requires UnitValues(row) && IdleSince(row, t) && Pow(q, halfLife) == 0.5
    requires DecayRow(q, row, t + halfLife) != row && DecayRow(q, row, t + halfLife).state == row.state
    ensures DecayRow(q, row, t + halfLife).strength == row.strength / 2.0
    ensures DecayRow(q, row, t + halfLife).salience == row.salience / 2.0
  {
    OnePass(q, row, t + halfLife);
    ChangedRow(q, row, t + halfLife, t);
  }

  // ----- any number of passes

  function DecayRuns(q: Base, row: Row, passes: seq<Time>): Row
    decreases |passes|
  {
    if passes == [] then row else DecayRuns(q, DecayRow(q, row, passes[0]), passes[1..])
  }

  lemma {:induction false} Compose(q: Base, x: real, y: real, z: real, m: nat, n: nat)
    requires Scaled(q, x, y, m) && Scaled(q, y, z, n)
    ensures Scaled(q, x, z, m + n)
  {
    PowSum(q, m, n);
  }

  lemma {:induction false} ClosedFormIsTransitive(q: Base, a: Row, b: Row, c: Row)
    requires ClosedForm(q, a, b) && ClosedForm(q, b, c)
    ensures ClosedForm(q, a, c)
  {
    var m, n := Anchor(b).value - Anchor(a).value, Anchor(c).value - Anchor(b).value;
    Compose(q, a.strength, b.strength, c.strength, m, n);
    Compose(q, a.salience, b.salience, c.salience, m, n);
  }

  // A row out of recall is not decayed again.
  lemma {:induction false} ArchivedStays(q: Base, row: Row, passes: seq<Time>)
    requires !Retrievable(row.state)
    ensures DecayRuns(q, row, passes) == row
    decreases |passes|
  {
    if passes != [] {
      ArchivedStays(q, row, passes[1..]);
    }
  }

  /** A row that is held is left alone by any passes. */
  lemma {:induction false} PinnedStays(q: Base, row: Row, passes: seq<Time>)
    requires row.pinned
    ensures DecayRuns(q, row, passes) == row
    decreases |passes|
  {
    if passes != [] {
      PinnedStays(q, row, passes[1..]);
    }
  }

  /** Decay telescopes. After any passes at any times, a row that is still in recall holds
      its first values times the factor of the whole time from its first anchor to its last
      applied pass; nothing else of it, and in particular not `updatedAt`, has moved. */
  lemma {:induction false} Telescopes(q: Base, row: Row, passes: seq<Time>)
    requires UnitValues(row) && Retrievable(row.state) && Anchor(row).Some?
    ensures var final := DecayRuns(q, row, passes);
            SameBut(row, final) && UnitValues(final) && (final.state == row.state ==> ClosedForm(q, row, final))
    decreases |passes|
  {
    if passes != [] {
      var next := DecayRow(q, row, passes[0]);
      OnePass(q, row, passes[0]);
      if next.state != row.state {
        ArchivedStays(q, next, passes[1..]);
      } else {
        Telescopes(q, next, passes[1..]);
        if DecayRuns(q, row, passes).state == row.state && next != row {
          ClosedFormIsTransitive(q, row, next, DecayRuns(q, row, passes));
        }
      }
    }
  }

  lemma {:induction false} SameClosedForm(q: Base, row: Row, a: Row, b: Row)
    requires ClosedForm(q, row, a) && ClosedForm(q, row, b) && Anchor(a) == Anchor(b)
    ensures a.strength == b.strength && a.salience == b.salience
  {
  }

  /** How often the passes ran does not matter: two schedules that leave the row in recall
      with the same last applied pass leave the same row. */
  lemma {:induction false} ScheduleDoesNotMatter(q: Base, row: Row, a: seq<Time>, b: seq<Time>)
    requires UnitValues(row) && Retrievable(row.state) && Anchor(row).Some?
    requires DecayRuns(q, row, a).state == row.state && DecayRuns(q, row, b).state == row.state
    requires Anchor(DecayRuns(q, row, a)) == Anchor(DecayRuns(q, row, b))
    ensures DecayRuns(q, row, a).strength == DecayRuns(q, row, b).strength
    ensures DecayRuns(q, row, a).salience == DecayRuns(q, row, b).salience
  {
    Telescopes(q, row, a);
    Telescopes(q, row, b);
    SameClosedForm(q, row, DecayRuns(q, row, a), DecayRuns(q, row, b));
  }

  lemma {:induction false} ScaledDown(a: real, b: real, product: real)
    requires 0.0 < a < 1.0 && 0.0 < b && product == a * b
    ensures product <= b
  {
    assert a * b <= 1.0 * b;
  }

  lemma {:induction false} PowStep(q: Base, n: nat, p: real)
    requires p == Pow(q, n)
    ensures Pow(q, n + 1) <= p
  {
    PowInUnit(q, n);
    ScaledDown(q, p, Pow(q, n + 1));
  }

  lemma {:induction false} PowFalls(q: Base, m: nat, n: nat)
    requires m <= n
    ensures Pow(q, n) <= Pow(q, m)
    decreases n - m
  {
    if m < n {
      PowFalls(q, m, n - 1);
      PowStep(q, n - 1, Pow(q, n - 1));
    }
  }

  lemma {:induction false} ProductFalls(q: Base, x: real, m: nat, n: nat)
    requires x >= 0.0 && m <= n
    ensures x * Pow(q, n) <= x * Pow(q, m)
  {
    PowFalls(q, m, n);
  }

  // Once at the floor, always at the floor.
  lemma {:induction false} FloorIsForGood(q: Base, row: Row, now: Time, later: Time)
    requires UnitValues(row) && Anchor(row).Some? && Anchor(row).value <= now <= later && AtFloor(q, row, now)
    ensures AtFloor(q, row, later)
  {
    ProductFalls(q, row.strength, now - Anchor(row).value, later - Anchor(row).value);
    ProductFalls(q, row.salience, now - Anchor(row).value, later - Anchor(row).value);
  }

  lemma {:induction false} AboveFloor(q: Base, row: Row, final: Row)
    requires ClosedForm(q, row, final) && final.strength > DECAY_FLOOR && final.salience > DECAY_FLOOR
    ensures !AtFloor(q, row, Anchor(final).value)
  {
  }

  // Being at the floor does not depend on where in between the row was last decayed.
  lemma {:induction false} FloorAcrossPasses(q: Base, row: Row, next: Row, now: Time)
    requires ClosedForm(q, row, next) && Anchor(next).value <= now
    ensures AtFloor(q, next, now) <==> AtFloor(q, row, now)
  {
    var m, n := Anchor(next).value - Anchor(row).value, now - Anchor(next).value;
    Compose(q, row.strength, next.strength, next.strength * Pow(q, n), m, n);
    Compose(q, row.salience, next.salience, next.salience * Pow(q, n), m, n);
  }

  // An archived row had reached the floor at the pass that archived it.
  lemma {:induction false} ArchivedAtFloor(q: Base, row: Row, passes: seq<Time>)
    requires UnitValues(row) && Retrievable(row.state) && Anchor(row).Some?
    requires DecayRuns(q, row, passes).state != row.state
    ensures var final := DecayRuns(q, row, passes);
            && final.state == Archived && final.lastDecayAt.Some? && final.lastDecayAt.value >= Anchor(row).value
            && AtFloor(q, row, final.lastDecayAt.value)
    decreases |passes|
  {
    var next := DecayRow(q, row, passes[0]);
    OnePass(q, row, passes[0]);
    if next.state != row.state {
      ArchivedStays(q, next, passes[1..]);
    } else {
      ArchivedAtFloor(q, next, passes[1..]);
      if next != row {
        FloorAcrossPasses(q, row, next, DecayRuns(q, row, passes).lastDecayAt.value);
      }
    }
  }

  lemma {:induction false} KeptValues(q: Base, row: Row, passes: seq<Time>)
    requires UnitValues(row) && Retrievable(row.state) && Anchor(row).Some?
    requires DecayRuns(q, row, passes).state == row.state && DecayRuns(q, row, passes) != row
    ensures DecayRuns(q, row, passes).strength > DECAY_FLOOR && DecayRuns(q, row, passes).salience > DECAY_FLOOR
    decreases |passes|
  {
    if passes != [] {
      var next := DecayRow(q, row, passes[0]);
      OnePass(q, row, passes[0]);
      if next.state != row.state {
        ArchivedStays(q, next, passes[1..]);
      } else if DecayRuns(q, next, passes[1..]) != next {
        KeptValues(q, next, passes[1..]);
      }
    }
  }

  // A row that was decayed and is still in recall is above the floor at its last pass.
  lemma {:induction false} KeptAboveFloor(q: Base, row: Row, passes: seq<Time>)
    requires UnitValues(row) && Retrievable(row.state) && Anchor(row).Some?
    requires DecayRuns(q, row, passes).state == row.state && DecayRuns(q, row, passes) != row
    ensures var final := DecayRuns(q, row, passes);
            && Anchor(final).Some? && Anchor(final).value >= Anchor(row).value
            && !AtFloor(q, row, Anchor(final).value)
  {
    Telescopes(q, row, passes);
    KeptValues(q, row, passes);
    AboveFloor(q, row, DecayRuns(q, row, passes));
  }

  /** Nor does it matter for archiving: once one schedule has archived the row, no schedule
      keeps it in recall with a pass applied at that time or later. */
  lemma {:induction false} ArchivingAgrees(q: Base, row: Row, a: seq<Time>, b: seq<Time>)
    requires UnitValues(row) && Retrievable(row.state) && Anchor(row).Some?
    requires DecayRuns(q, row, a).state != row.state
    requires DecayRuns(q, row, b).state == row.state && DecayRuns(q, row, b) != row
    ensures var archived, kept := DecayRuns(q, row, a).lastDecayAt, Anchor(DecayRuns(q, row, b));
            archived.Some? && kept.Some? && kept.value < archived.value
  {
    ArchivedAtFloor(q, row, a);
    KeptAboveFloor(q, row, b);
    var archived, kept := DecayRuns(q, row, a).lastDecayAt.value, Anchor(DecayRuns(q, row, b)).value;
    if archived <= kept {
      FloorIsForGood(q, row, archived, kept);
    }
  }
}
