/** The memory store under supersede, dispute, resolve, pin and decay: nothing is lost,
    every transition leaves revisions, and the mirrored links follow the columns. */
module MemoryLifecycle {
  import opened Common
  import opened MemoryDecay
  import opened SupersedeChains
  import Whitespace

  datatype Kind = Supersedes | Contradicts

  // `source` is the side a column names, `target` the row that holds the column.
  datatype Link = Link(source: Id, target: Id, kind: Kind)

  // A row's state just before a transition.
  datatype Revision = Revision(
    id: Id, title: string, content: string, state: Lifecycle, supersededBy: Option<Id>, disputedBy: Option<Id>,
    pinned: bool)

  datatype Error = NoReplacement | Itself | NotFound(id: Id) | NotDisputed | BadPreference

  datatype Resolution = Resolution(winner: Id, loser: Id, loserState: Lifecycle)

  datatype Result<T> = Ok(value: T) | Err(error: Error)

  function Pointer(row: Row, kind: Kind): Option<Id> {
    match kind case Supersedes => row.supersededBy case Contradicts => row.disputedBy
  }

  /** The links the columns call for. */
  ghost predicate Mirrors(links: set<Link>, rows: map<Id, Row>) {
    forall link :: link in links <==>
      link.target in rows && Pointer(rows[link.target], link.kind) == Some(link.source)
  }

  // A column names another existing row, if any.
  predicate GoodPointer(pointer: Option<Id>, id: Id, ids: set<Id>) {
    pointer.Some? ==> pointer.value in ids && pointer.value != id && pointer.value != ""
  }

  // Where the data blob is no object, nothing is read from it.
  predicate ReadsAsEmpty(row: Row) {
    !row.dataIsObject ==> row.title == "" && row.content == "" && !row.pinned && row.lastDecayAt.None?
  }

  /** Disputed exactly when contested; no row points at itself or at a missing row. */
  ghost predicate GoodRow(row: Row, id: Id, ids: set<Id>) {
    && (row.state == Disputed <==> row.disputedBy.Some?)
    && GoodPointer(row.supersededBy, id, ids) && GoodPointer(row.disputedBy, id, ids)
    && UnitValues(row) && ReadsAsEmpty(row)
  }

  // Same rows, titles and contents.
  ghost predicate NothingLost(before: map<Id, Row>, after: map<Id, Row>) {
    && before.Keys == after.Keys
    && forall id :: id in before ==> after[id].title == before[id].title && after[id].content == before[id].content
  }

  // ASCII lower case.
  function Lower(s: string): string {
    seq(|s|, i requires 0 <= i < |s| => if 'A' <= s[i] <= 'Z' then (s[i] as int + 32) as char else s[i])
  }

  predicate Dismissal(resolution: string) {
    var word := Lower(Whitespace.Trim(resolution));
    word == "dismiss" || word == "dismissed" || word == "rejected" || word == "discard"
  }

  function Snapshot(id: Id, row: Row): Revision {
    Revision(id, row.title, row.content, row.state, row.supersededBy, row.disputedBy, row.pinned)
  }

  // The rows among `ids` that a pass changes.
  ghost function Touched(pass: Row -> Row, rows: map<Id, Row>, ids: set<Id>): set<Id>
    requires ids <= rows.Keys
  {
    set id | id in ids && pass(rows[id]) != rows[id]
  }

  lemma {:induction false} TouchedOneMore(pass: Row -> Row, rows: map<Id, Row>, ids: set<Id>, id: Id)
    requires ids <= rows.Keys && id in rows && id !in ids
    ensures |Touched(pass, rows, ids + {id})| ==
            |Touched(pass, rows, ids)| + (if pass(rows[id]) != rows[id] then 1 else 0)
  {
    if pass(rows[id]) != rows[id] {
      assert Touched(pass, rows, ids + {id}) == Touched(pass, rows, ids) + {id};
    } else {
      assert Touched(pass, rows, ids + {id}) == Touched(pass, rows, ids);
    }
  }

  lemma {:induction false} DecayedIsGood(q: Base, row: Row, now: Time, id: Id, ids: set<Id>)
    requires GoodRow(row, id, ids)
    ensures GoodRow(DecayRow(q, row, now), id, ids) && SameBut(row, DecayRow(q, row, now))
  {
    OnePass(q, row, now);
  }

  lemma {:induction false} SamePointers(links: set<Link>, before: map<Id, Row>, after: map<Id, Row>)
    requires before.Keys == after.Keys && Mirrors(links, before)
    requires forall id :: id in before ==>
      after[id].supersededBy == before[id].supersededBy && after[id].disputedBy == before[id].disputedBy
    ensures Mirrors(links, after)
  {
  }

  lemma {:induction false} PinnedKeeps(links: set<Link>, rows: map<Id, Row>, id: Id, row: Row)
    requires id in rows && row == rows[id].(pinned := row.pinned, dataIsObject := true)
    requires Mirrors(links, rows) && forall other :: other in rows ==> GoodRow(rows[other], other, rows.Keys)
    ensures var after := rows[id := row];
            Mirrors(links, after) && NothingLost(rows, after) &&
            forall other :: other in after ==> GoodRow(after[other], other, after.Keys)
  {
    var after := rows[id := row];
    assert after.Keys == rows.Keys;
    SamePointers(links, rows, after);
  }

  // The rows once a pair is settled.
  function Settled(rows: map<Id, Row>, winner: Id, loser: Id, loserState: Lifecycle, now: Time): map<Id, Row>
    requires winner in rows && loser in rows
  {
    rows[winner := rows[winner].(state := Active, disputedBy := None, updatedAt := Some(now))]
        [loser := rows[loser].(state := loserState, supersededBy := Some(winner), disputedBy := None)]
  }

  // They stay consistent.
  lemma {:induction false} SettledAreGood(rows: map<Id, Row>, winner: Id, loser: Id, loserState: Lifecycle, now: Time)
    requires forall id :: id in rows ==> GoodRow(rows[id], id, rows.Keys)
    requires "" !in rows && winner in rows && loser in rows && winner != loser
    requires loserState == Expired || loserState == Superseded
    ensures var after := Settled(rows, winner, loser, loserState, now);
      && after.Keys == rows.Keys && NothingLost(rows, after)
      && (forall id :: id in after ==> GoodRow(after[id], id, after.Keys))
      && (forall id :: id in after && id != winner && id != loser ==> after[id] == rows[id])
  {
    var after := Settled(rows, winner, loser, loserState, now);
    assert after.Keys == rows.Keys;
    forall id | id in after
      ensures GoodRow(after[id], id, after.Keys)
    {
      assert GoodRow(rows[id], id, rows.Keys);
    }
  }

  lemma {:induction false} SameMirror(links: set<Link>, before: map<Id, Row>, after: map<Id, Row>)
    requires before.Keys == after.Keys && forall id :: id in before ==> SameBut(before[id], after[id])
    requires Mirrors(links, before)
    ensures Mirrors(links, after) && NothingLost(before, after)
  {
    forall id | id in before
      ensures after[id].supersededBy == before[id].supersededBy && after[id].disputedBy == before[id].disputedBy
      ensures after[id].title == before[id].title && after[id].content == before[id].content
    {
      assert SameBut(before[id], after[id]);
    }
  }

  class Store {
    var rows: map<Id, Row>
    var revisions: seq<Revision>
    var links: set<Link>

    ghost predicate Valid()
      reads this
    {
      && "" !in rows
      && (forall id :: id in rows ==> GoodRow(rows[id], id, rows.Keys))
      && Mirrors(links, rows)
    }

    // Start from rows without disputes or pointers.
    constructor (initial: map<Id, Row>)
      requires "" !in initial
      requires forall id :: id in initial ==>
        && initial[id].state != Disputed && initial[id].disputedBy.None? && initial[id].supersededBy.None?
        && UnitValues(initial[id]) && ReadsAsEmpty(initial[id])
      ensures Valid() && rows == initial && revisions == []
    {
      rows, revisions, links := initial, [], {};
      new;
      forall link: Link
        ensures !(link.target in rows && Pointer(rows[link.target], link.kind) == Some(link.source))
      {
      }
    }

    method PushRevision(id: Id)
      requires id in rows
      modifies this`revisions
      ensures revisions == old(revisions) + [Snapshot(id, rows[id])]
    {
      revisions := revisions + [Snapshot(id, rows[id])];
    }

    method SyncKind(id: Id, kind: Kind)
      requires id in rows && GoodPointer(Pointer(rows[id], kind), id, rows.Keys)
      modifies this`links
      ensures forall link :: link in links <==>
        if link.target == id && link.kind == kind then Pointer(rows[id], kind) == Some(link.source)
        else link in old(links)
    {
      var pointed := Pointer(rows[id], kind);
      var source := if pointed.Some? && pointed.value != "" && pointed.value != id then pointed else None;
      var existing := set link | link in links && link.target == id && link.kind == kind;
      var keeper := set link | link in existing && source == Some(link.source);
      links := links - (existing - keeper);
      if source.Some? && keeper == {} && source.value in rows {
        links := links + {Link(source.value, id, kind)};
      }
      if source.Some? {
        assert keeper == {} || Link(source.value, id, kind) in keeper;
      }
    }

    // Rebuild the links into one row from its two columns.
    method SyncLinks(id: Id)
      requires id in rows && GoodRow(rows[id], id, rows.Keys)
      modifies this`links
      ensures forall link :: link in links <==>
        if link.target == id then Pointer(rows[id], link.kind) == Some(link.source) else link in old(links)
    {
      SyncKind(id, Supersedes);
      SyncKind(id, Contradicts);
    }

    /** Retire a row in favour of another. */
    method Supersede(oldId: Id, newId: Option<string>) returns (r: Result<()>)
      requires Valid()
      modifies this
      ensures Valid() && NothingLost(old(rows), rows)
      ensures r.Err? ==> rows == old(rows) && revisions == old(revisions)
      ensures r.Ok? <==>
        && newId.Some? && Whitespace.Trim(newId.value) in old(rows)
        && Whitespace.Trim(newId.value) != oldId && oldId in old(rows)
      ensures r.Err? ==>
        r.error == if newId.None? || Whitespace.Trim(newId.value) == "" then NoReplacement
                   else if Whitespace.Trim(newId.value) == oldId then Itself
                   else NotFound(if oldId in old(rows) then Whitespace.Trim(newId.value) else oldId)
      ensures r.Ok? ==>
        && rows == old(rows)[oldId := old(rows)[oldId].(state := Superseded,
                                                        supersededBy := Some(Whitespace.Trim(newId.value)),
                                                        disputedBy := None)]
        && revisions == old(revisions) + [Snapshot(oldId, old(rows)[oldId])]
    {
      if newId.None? || Whitespace.Trim(newId.value) == "" {
        return Err(NoReplacement);
      }
      var replacement := Whitespace.Trim(newId.value);
      if replacement == oldId {
        return Err(Itself);
      }
      if oldId !in rows {
        return Err(NotFound(oldId));
      }
      if replacement !in rows {
        return Err(NotFound(replacement));
      }
      PushRevision(oldId);
      rows := rows[oldId := rows[oldId].(state := Superseded, supersededBy := Some(replacement), disputedBy := None)];
      SyncLinks(oldId);
      return Ok(());
    }

    /** Mark one row as contested by another; only the named row changes. */
    method Dispute(id: Id, conflicting: Id) returns (r: Result<()>)
      requires Valid()
      modifies this
      ensures Valid() && NothingLost(old(rows), rows)
      ensures r.Err? ==> rows == old(rows) && revisions == old(revisions)
      ensures r.Ok? <==> id != conflicting && id in old(rows) && conflicting in old(rows)
      ensures r.Err? ==>
        r.error == if id == conflicting then Itself else NotFound(if id in old(rows) then conflicting else id)
      ensures r.Ok? ==>
        && rows == old(rows)[id := old(rows)[id].(state := Disputed, disputedBy := Some(conflicting))]
        && revisions == old(revisions) + [Snapshot(id, old(rows)[id])]
    {
      if id == conflicting {
        return Err(Itself);
      }
      if id !in rows {
        return Err(NotFound(id));
      }
      if conflicting !in rows {
        return Err(NotFound(conflicting));
      }
      PushRevision(id);
      rows := rows[id := rows[id].(state := Disputed, disputedBy := Some(conflicting))];
      SyncLinks(id);
      return Ok(());
    }

    // The mirrors of two rows that moved.
    method SyncPair(a: Id, b: Id, ghost before: map<Id, Row>)
      requires a in rows && b in rows && a != b && rows.Keys == before.Keys && Mirrors(links, before)
      requires forall id :: id in rows ==> GoodRow(rows[id], id, rows.Keys)
      requires forall id :: id in rows && id != a && id != b ==> rows[id] == before[id]
      modifies this`links
      ensures Mirrors(links, rows)
    {
      SyncLinks(a);
      SyncLinks(b);
    }

    // The transaction of a settlement.
    method SettlePair(winner: Id, loser: Id, loserState: Lifecycle, now: Time)
      requires Valid() && winner in rows && loser in rows && winner != loser
      requires loserState == Expired || loserState == Superseded
      modifies this
      ensures Valid() && NothingLost(old(rows), rows)
      ensures rows == Settled(old(rows), winner, loser, loserState, now)
      ensures revisions == old(revisions) + [Snapshot(winner, old(rows)[winner]), Snapshot(loser, old(rows)[loser])]
    {
      ghost var before := rows;
      SettledAreGood(rows, winner, loser, loserState, now);
      PushRevision(winner);
      PushRevision(loser);
      rows := rows[winner := rows[winner].(state := Active, disputedBy := None, updatedAt := Some(now))];
      rows := rows[loser := rows[loser].(state := loserState, supersededBy := Some(winner), disputedBy := None)];
      assert rows == Settled(before, winner, loser, loserState, now);
      SyncPair(winner, loser, before);
    }

    /** Settle a dispute. Without a preference the side already stored is adopted; one
        revision of each side is kept. */
    method ResolveConflict(id: Id, resolution: string, prefer: Option<Id>, now: Time) returns (r: Result<Resolution>)
      requires Valid()
      modifies this
      ensures Valid() && NothingLost(old(rows), rows)
      ensures r.Err? ==> rows == old(rows) && revisions == old(revisions)
      ensures r.Ok? <==>
        && id in old(rows) && old(rows)[id].state == Disputed
        && (prefer.Some? ==> prefer.value == id || prefer == old(rows)[id].disputedBy)
      ensures r.Err? ==>
        r.error == if id in old(rows) && old(rows)[id].state == Disputed then BadPreference else NotDisputed
      ensures r.Ok? ==>
        var Resolution(winner, loser, loserState) := r.value;
        && winner in old(rows) && loser in old(rows) && winner != loser
        && (winner == id || Some(winner) == old(rows)[id].disputedBy)
        && (loser == id || Some(loser) == old(rows)[id].disputedBy)
        && (prefer.None? ==> Some(winner) == old(rows)[id].disputedBy)
        && (prefer.Some? ==> winner == prefer.value)
        && loserState == (if Dismissal(resolution) then Expired else Superseded)
        && rows == old(rows)[winner := old(rows)[winner].(state := Active, disputedBy := None, updatedAt := Some(now))]
                            [loser := old(rows)[loser].(state := loserState, supersededBy := Some(winner),
                                                         disputedBy := None)]
        && revisions == old(revisions) + [Snapshot(winner, old(rows)[winner]), Snapshot(loser, old(rows)[loser])]
    {
      if id !in rows || rows[id].disputedBy.None? || rows[id].disputedBy.value == "" {
        return Err(NotDisputed);
      }
      var other := rows[id].disputedBy.value;
      assert GoodRow(rows[id], id, rows.Keys);
      if prefer.Some? && prefer.value != id && prefer.value != other {
        return Err(BadPreference);
      }
      var winner := if prefer == Some(id) then id else other;
      var loser := if winner == id then other else id;
      if winner !in rows {
        return Err(NotFound(winner));
      }
      if loser !in rows {
        return Err(NotFound(loser));
      }
      var loserState := if Dismissal(resolution) then Expired else Superseded;
      SettlePair(winner, loser, loserState, now);
      return Ok(Resolution(winner, loser, loserState));
    }

    // Hold a row, or let go of it.
    method SetPinned(id: Id, pinned: bool) returns (r: Result<()>)
      requires Valid()
      modifies this
      ensures Valid() && NothingLost(old(rows), rows) && revisions == old(revisions)
      ensures r.Ok? <==> id in old(rows)
      ensures r.Err? ==> r.error == NotFound(id)
      ensures rows == if r.Ok? then old(rows)[id := old(rows)[id].(pinned := pinned, dataIsObject := true)]
                      else old(rows)
    {
      if id !in rows {
        return Err(NotFound(id));
      }
      var row := rows[id];
      assert GoodRow(row, id, rows.Keys);
      if !row.dataIsObject {
        row := row.(dataIsObject := true, title := "", content := "", pinned := false, lastDecayAt := None);
      }
      row := row.(pinned := pinned);
      PinnedKeeps(links, rows, id, row);
      rows := rows[id := row];
      return Ok(());
    }

    // Visit every row, in any order.
    method UpdateRows(pass: Row -> Row) returns (touched: nat)
      modifies this`rows
      ensures rows.Keys == old(rows).Keys && forall id :: id in rows ==> rows[id] == pass(old(rows)[id])
      ensures touched == |Touched(pass, old(rows), old(rows).Keys)|
    {
      ghost var before := rows;
      var remaining := rows.Keys;
      touched := 0;
      while remaining != {}
        invariant remaining <= rows.Keys == before.Keys
        invariant forall id :: id in rows ==> rows[id] == if id in remaining then before[id] else pass(before[id])
        invariant touched == |Touched(pass, before, before.Keys - remaining)|
        decreases remaining
      {
        var id :| id in remaining;
        var next := pass(rows[id]);
        ghost var visited := before.Keys - remaining;
        TouchedOneMore(pass, before, visited, id);
        if next != rows[id] {
          touched := touched + 1;
        }
        rows := rows[id := next];
        remaining := remaining - {id};
        assert before.Keys - remaining == visited + {id};
      }
      assert before.Keys - {} == before.Keys;
    }

    /** One decay pass over the store; it writes no revision and no link. */
    method Decay(q: Base, now: Time) returns (touched: nat)
      requires Valid()
      modifies this
      ensures Valid() && NothingLost(old(rows), rows)
      ensures revisions == old(revisions) && links == old(links)
      ensures rows.Keys == old(rows).Keys && forall id :: id in rows ==> rows[id] == DecayRow(q, old(rows)[id], now)
      ensures touched == |Touched(row => DecayRow(q, row, now), old(rows), old(rows).Keys)|
    {
      ghost var before := rows;
      touched := UpdateRows(row => DecayRow(q, row, now));
      forall id | id in rows
        ensures GoodRow(rows[id], id, rows.Keys) && SameBut(before[id], rows[id])
      {
        assert GoodRow(before[id], id, before.Keys);
        DecayedIsGood(q, before[id], now, id, rows.Keys);
      }
      SameMirror(links, before, rows);
    }
  }

  /** Superseding a row of an acyclic store keeps it acyclic if and only if the replacement does
      not lead to that row. */
  lemma {:induction false} SupersedeClosesNoCycleIff(rows: map<Id, Row>, id: Id, replacement: Id)
    requires Acyclic(rows) && id in rows
    ensures var after := rows[id := rows[id].(state := Superseded, supersededBy := Some(replacement),
                                               disputedBy := None)];
            Acyclic(after) <==> !LeadsTo(rows, replacement, id)
  {
    var after := rows[id := rows[id].(state := Superseded, supersededBy := Some(replacement), disputedBy := None)];
    StaysAcyclicIff(rows, after, id, replacement);
  }

  /** And resolving a conflict does, if and only if the winner does not lead to the loser. */
  lemma {:induction false} ResolveClosesNoCycleIff(rows: map<Id, Row>, winner: Id, loser: Id, loserState: Lifecycle,
                                                   now: Time)
    requires Acyclic(rows) && winner in rows && loser in rows && winner != loser
    ensures var after :=
              rows[winner := rows[winner].(state := Active, disputedBy := None, updatedAt := Some(now))]
                  [loser := rows[loser].(state := loserState, supersededBy := Some(winner), disputedBy := None)];
            Acyclic(after) <==> !LeadsTo(rows, winner, loser)
  {
    var after := rows[winner := rows[winner].(state := Active, disputedBy := None, updatedAt := Some(now))]
                     [loser := rows[loser].(state := loserState, supersededBy := Some(winner), disputedBy := None)];
    StaysAcyclicIff(rows, after, loser, winner);
  }

  /** A cycle: two rows that supersede each other, one after the other. */
  method EachSupersedesTheOther(row: Row) returns (rows: map<Id, Row>)
    requires row.state != Disputed && row.disputedBy.None? && row.supersededBy.None?
             && UnitValues(row) && ReadsAsEmpty(row)
    ensures !Acyclic(rows)
  {
    var store := new Store(map["a" := row, "b" := row]);
    assert "a"[0] != "b"[0];
    assert Whitespace.Trim("a") == "a" && Whitespace.Trim("b") == "b";
    var first := store.Supersede("a", Some("b"));
    var second := store.Supersede("b", Some("a"));
    rows := store.rows;
    assert Reached(rows, "a", 2) == Reached(rows, "b", 1) == Reached(rows, "a", 0) == Some("a");
  }

  /** A row that is held stays as it is through any decay passes, until it is let go. */
  method HeldThroughPasses(store: Store, id: Id, q: Base, passes: seq<Time>)
    requires store.Valid() && id in store.rows
    modifies store
    ensures store.Valid() && id in store.rows
    ensures store.rows[id] == old(store.rows)[id].(pinned := true, dataIsObject := true)
  {
    var pinned := store.SetPinned(id, true);
    ghost var row := store.rows[id];
    for k := 0 to |passes|
      invariant store.Valid() && id in store.rows && store.rows[id] == row
    {
      var touched := store.Decay(q, passes[k]);
    }
  }

  /** The latest revision of a row holds all that a transition of it overwrites, but for the time of
      the change: written back it gives the row as it was. */
  lemma {:induction false} RevisionUndoes(id: Id, before: Row, after: Row)
    requires after == before.(state := after.state, supersededBy := after.supersededBy,
                              disputedBy := after.disputedBy, updatedAt := after.updatedAt)
    ensures var saved := Snapshot(id, before);
      && saved.id == id
      && after.(title := saved.title, content := saved.content, state := saved.state,
                supersededBy := saved.supersededBy, disputedBy := saved.disputedBy, pinned := saved.pinned,
                updatedAt := before.updatedAt) == before
  {
  }

  // Each capital letter becomes the small one at its place in the alphabet, and nothing else changes.
  lemma {:induction false} LowerByPlace(s: string, i: nat, k: nat)
    requires i < |s| && k < 26
    ensures |Lower(s)| == |s|
    ensures s[i] == "ABCDEFGHIJKLMNOPQRSTUVWXYZ"[k] ==> Lower(s)[i] == "abcdefghijklmnopqrstuvwxyz"[k]
    ensures s[i] < 'A' || 'Z' < s[i] ==> Lower(s)[i] == s[i]
  {
  }

  const DISMISSALS: seq<string> := ["dismiss", "dismissed", "rejected", "discard"]

  lemma {:induction false} DismissalIsSolid(word: string)
    requires Lower(word) in DISMISSALS
    ensures word != "" && !Whitespace.IsSpace(word[0]) && !Whitespace.IsSpace(word[|word| - 1])
  {
    var small := Lower(word);
    assert |small| == |word| >= 7;
    assert small[0] == 'd' || small[0] == 'r';
    assert small[|small| - 1] == 's' || small[|small| - 1] == 'd';
  }

  /** Four words dismiss a pair, in any ASCII case and with white space around them. */
  lemma {:induction false} DismissalIff(resolution: string)
    ensures Dismissal(resolution) <==>
      exists before, word, after ::
        && resolution == before + word + after && Whitespace.Blank(before) && Whitespace.Blank(after)
        && Lower(word) in DISMISSALS
  {
    if Dismissal(resolution) {
      var a, b := Whitespace.TrimIsSlice(resolution);
      assert resolution == resolution[..a] + resolution[a..b] + resolution[b..];
    }
    forall before, word, after |
      && resolution == before + word + after && Whitespace.Blank(before) && Whitespace.Blank(after)
      && Lower(word) in DISMISSALS
      ensures Whitespace.Trim(resolution) == word
    {
      DismissalIsSolid(word);
      Whitespace.TrimOfPadded(before, word, after);
    }
  }
}
