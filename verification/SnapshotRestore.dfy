/** The staged restore with its rollback handler, run against a file system whose every
    call may fail. */
module SnapshotRestore {
  import opened Common
  import opened Base64
  import opened Counting
  import opened SnapshotPaths
  import opened SnapshotTree

  /** What one file system call does. A failing write may leave part of the file; a
      failing tree removal leaves whatever it had not removed yet. */
  datatype Fault = Fine | Raises(partial: Option<seq<byte>>, kept: map<string, Node>)

  // The entries a restore replaces.
  function Visible(entries: map<string, Node>): map<string, Node> {
    entries - set name | name in entries && Hidden(name)
  }

  // ----- staging

  // What stands at `q` while the parents of `path` down to depth `k` have been made.
  ghost function StagedKind(files: map<string, string>, names: set<string>, path: seq<string>, k: nat,
                            q: seq<string>): Kind
    requires names <= files.Keys
  {
    if q != [] && |q| < k && |q| < |path| && q == path[..|q|] then ADir else Expected(files, names, q)
  }

  ghost predicate Staging(inner: map<string, Node>, files: map<string, string>, names: set<string>,
                          path: seq<string>, k: nat)
    requires names <= files.Keys
  {
    forall q :: KindAt(inner, q) == StagedKind(files, names, path, k, q)
  }

  lemma {:induction false} OneDeeper(files: map<string, string>, names: set<string>, path: seq<string>, k: nat,
                                     q: seq<string>)
    requires names <= files.Keys && 0 < k < |path|
    ensures StagedKind(files, names, path, k + 1, q) ==
            if q == path[..k] then ADir else StagedKind(files, names, path, k, q)
  {
  }

  lemma {:induction false} StagingParents(inner: map<string, Node>, files: map<string, string>, names: set<string>,
                                          path: seq<string>, k: nat)
    requires names <= files.Keys && Staging(inner, files, names, path, k) && 0 < k <= |path|
    ensures HasParents(inner, path[..k])
  {
    forall j | 0 <= j < k
      ensures KindAt(inner, path[..k][..j]) == ADir
    {
      var q := path[..k][..j];
      assert q == path[..j];
    }
  }

  // The next parent is a directory already or is missing; it is never a file.
  lemma {:induction false} ParentIsNoFile(inner: map<string, Node>, files: map<string, string>, names: set<string>,
                                          name: string, k: nat)
    requires ValidPayload(files) && names <= files.Keys && name in files && name !in names
    requires 0 < k < |Parts(name)| && Staging(inner, files, names, Parts(name), k)
    ensures KindAt(inner, Parts(name)[..k]) == ADir || KindAt(inner, Parts(name)[..k]) == Absent
  {
    FileOfName(files, names, name);
    var q := Parts(name)[..k];
    assert KindAt(inner, q) == StagedKind(files, names, Parts(name), k, q);
    assert FileOf(files, names, q).None?;
  }

  lemma {:induction false} StagingStep(inner: map<string, Node>, files: map<string, string>, names: set<string>,
                                       path: seq<string>, k: nat)
    requires names <= files.Keys && 0 < k < |path| && Staging(inner, files, names, path, k)
    ensures KindAt(inner, path[..k]) == ADir ==> Staging(inner, files, names, path, k + 1)
    ensures KindAt(inner, path[..k]) == Absent ==>
      Staging(PutAt(inner, path[..k], Dir(map[])), files, names, path, k + 1)
  {
    var at := path[..k];
    StagingParents(inner, files, names, path, k);
    if KindAt(inner, at) == ADir {
      forall q
        ensures KindAt(inner, q) == StagedKind(files, names, path, k + 1, q)
      {
        OneDeeper(files, names, path, k, q);
      }
    } else if KindAt(inner, at) == Absent {
      forall q
        ensures KindAt(PutAt(inner, at, Dir(map[])), q) == StagedKind(files, names, path, k + 1, q)
      {
        OneDeeper(files, names, path, k, q);
        KindAfterPut(inner, at, Dir(map[]), q);
      }
    }
  }

  lemma {:induction false} ExpectedWithOneMore(files: map<string, string>, names: set<string>, name: string,
                                               q: seq<string>)
    requires ValidPayload(files) && names <= files.Keys && name in files && name !in names
    ensures Expected(files, names + {name}, q) ==
      if q == Parts(name) then AFile(Decode(files[name]).value)
      else if q != [] && ProperPrefix(q, Parts(name)) then ADir
      else Expected(files, names, q)
  {
    ValidIsClean(name);
    FileOfName(files, names, name);
    if ProperPrefix(q, Parts(name)) {
      assert q == Parts(name)[..|q|];
      assert name in names + {name};
    }
    if DirOf(names, q) && q != [] {
      var other :| other in names && ProperPrefix(q, Parts(other));
      assert other in names + {name};
    }
    if Join(q) in names + {name} && Parts(Join(q)) == q && q != Parts(name) {
      assert Join(q) in names;
    }
  }

  lemma {:induction false} StagedFile(inner: map<string, Node>, files: map<string, string>, names: set<string>,
                                      name: string)
    requires ValidPayload(files) && names <= files.Keys && name in files && name !in names
    requires Staging(inner, files, names, Parts(name), |Parts(name)|)
    ensures Parts(name) != [] && KindAt(inner, Parts(name)) == Absent
    ensures Holds(PutAt(inner, Parts(name), File(Decode(files[name]).value)), files, names + {name})
  {
    var path := Parts(name);
    var leaf := File(Decode(files[name]).value);
    ValidIsClean(name);
    FileOfName(files, names, name);
    assert KindAt(inner, path) == Expected(files, names, path);
    StagingParents(inner, files, names, path, |path|);
    assert path[..|path|] == path;
    forall q
      ensures KindAt(PutAt(inner, path, leaf), q) == Expected(files, names + {name}, q)
    {
      KindAfterPut(inner, path, leaf, q);
      ExpectedWithOneMore(files, names, name, q);
    }
  }

  lemma {:induction false} HoldsEmpty(files: map<string, string>)
    ensures Holds(map[], files, {})
  {
  }

  // What stands at the top of the staged tree.
  ghost function TopNames(files: map<string, string>): set<string> {
    set name | name in files && Parts(name) != [] :: Parts(name)[0]
  }

  lemma {:induction false} TopHasName(files: map<string, string>, x: string)
    requires ValidPayload(files) && Expected(files, files.Keys, [x]) != Absent
    ensures x in TopNames(files)
  {
    var q := [x];
    var full :| full in files && |q| <= |Parts(full)| && q == Parts(full)[..|q|];
    assert Parts(full)[0] == x;
  }

  // The first component of a payload's path is its file, or a directory.
  lemma {:induction false} TopIsStaged(files: map<string, string>, name: string)
    requires ValidPayload(files) && name in files && Parts(name) != []
    ensures Expected(files, files.Keys, [Parts(name)[0]]) != Absent
  {
    var path := Parts(name);
    if |path| == 1 {
      assert path == [path[0]];
      FileOfName(files, files.Keys, name);
    } else {
      assert path[..1] == [path[0]];
      assert ProperPrefix([path[0]], path);
    }
  }

  lemma {:induction false} StagedTop(inner: map<string, Node>, files: map<string, string>)
    requires ValidPayload(files) && Holds(inner, files, files.Keys)
    ensures inner.Keys == TopNames(files)
  {
    forall x
      ensures x in inner <==> x in TopNames(files)
    {
      assert KindAt(inner, [x]) == Expected(files, files.Keys, [x]);
      if x in inner {
        TopHasName(files, x);
      }
      if name :| name in files && Parts(name) != [] && Parts(name)[0] == x {
        TopIsStaged(files, name);
      }
    }
  }

  // A staged tree has no reserved name at its top.
  lemma {:induction false} StagedNames(inner: map<string, Node>, files: map<string, string>)
    requires ValidPayload(files) && Holds(inner, files, files.Keys)
    ensures forall name :: name in inner ==> !Hidden(name)
  {
    forall name | name in inner
      ensures !Hidden(name)
    {
      var q := [name];
      assert KindAt(inner, q) == Expected(files, files.Keys, q);
      var full :| full in files && |q| <= |Parts(full)| && q == Parts(full)[..|q|];
      ValidIsClean(full);
      CleanIsNotHidden(Parts(full));
      assert Parts(full)[0] == name;
    }
  }

  // ----- how many calls a restore makes

  // The directories that stand once these names are staged.
  ghost function StagedDirs(files: map<string, string>, names: set<string>): set<seq<string>> {
    set name, k | name in names && 0 < k < |Parts(name)| :: Parts(name)[..k]
  }

  // With them, those above one more path down to depth `k`.
  ghost function DirsDownTo(files: map<string, string>, names: set<string>, path: seq<string>, k: nat): set<seq<string>>
    requires k <= |path|
  {
    StagedDirs(files, names) + set i | 0 < i < k :: path[..i]
  }

  /** One call for each directory and one for each file. */
  ghost function StagingCalls(files: map<string, string>, names: set<string>): nat {
    Count(StagedDirs(files, names)) + Count(names)
  }

  /** The calls of a restore before its final removal: two directories made, the payload
      staged, every entry set aside, every staged entry installed, and one directory removed. */
  ghost function CallsToRemoval(files: map<string, string>, entries: map<string, Node>): nat {
    2 + StagingCalls(files, files.Keys) + Count(Visible(entries).Keys) + Count(TopNames(files)) + 1
  }

  lemma {:induction false} NotYetMade(path: seq<string>, k: nat)
    requires k <= |path|
    ensures path[..k] !in set i | 0 < i < k :: path[..i]
  {
    forall i | 0 < i < k
      ensures path[..i] != path[..k]
    {
      assert |path[..i]| == i;
    }
  }

  // One level deeper: a directory that stands already, or one more.
  lemma {:induction false} OneMoreDir(files: map<string, string>, names: set<string>, path: seq<string>, k: nat)
    requires 0 < k < |path|
    ensures Count(DirsDownTo(files, names, path, k + 1)) ==
            Count(DirsDownTo(files, names, path, k)) + if path[..k] in StagedDirs(files, names) then 0 else 1
  {
    var before, at := DirsDownTo(files, names, path, k), path[..k];
    NotYetMade(path, k);
    assert DirsDownTo(files, names, path, k + 1) == before + {at};
    CountWith(before, at);
  }

  lemma {:induction false} DirsOfOneMore(files: map<string, string>, names: set<string>, name: string)
    ensures StagedDirs(files, names + {name}) == DirsDownTo(files, names, Parts(name), |Parts(name)|)
    ensures Parts(name) != [] ==> DirsDownTo(files, names, Parts(name), 1) == StagedDirs(files, names)
  {
  }

  lemma {:induction false} DirsGrow(files: map<string, string>, names: set<string>, path: seq<string>, j: nat, k: nat)
    requires j <= k <= |path|
    ensures Count(DirsDownTo(files, names, path, j)) <= Count(DirsDownTo(files, names, path, k))
  {
    SubsetCounts(DirsDownTo(files, names, path, j), DirsDownTo(files, names, path, k));
  }

  lemma {:induction false} StagingCallsGrow(files: map<string, string>, names: set<string>, more: set<string>)
    requires names <= more
    ensures StagingCalls(files, names) <= StagingCalls(files, more)
  {
    SubsetCounts(names, more);
    SubsetCounts(StagedDirs(files, names), StagedDirs(files, more));
  }

  lemma {:induction false} NothingStaged(files: map<string, string>)
    ensures StagingCalls(files, {}) == 0
  {
    assert StagedDirs(files, {}) == {};
    CountOfNone(StagedDirs(files, {}));
    CountOfNone<string>({});
  }

  lemma {:induction false} StagingCallsOneMore(files: map<string, string>, names: set<string>, name: string)
    requires name !in names && Parts(name) != []
    ensures var path := Parts(name);
      StagingCalls(files, names + {name}) ==
      StagingCalls(files, names) + Count(DirsDownTo(files, names, path, |path|))
        - Count(DirsDownTo(files, names, path, 1)) + 1
  {
    DirsOfOneMore(files, names, name);
    CountWith(names, name);
  }

  // A directory stands where staging has made one.
  lemma {:induction false} DirIsStaged(files: map<string, string>, names: set<string>, q: seq<string>)
    requires names <= files.Keys && q != []
    ensures DirOf(names, q) <==> q in StagedDirs(files, names)
  {
  }

  // It is there exactly if staging has made it.
  lemma {:induction false} ParentIsStaged(inner: map<string, Node>, files: map<string, string>, names: set<string>,
                                          name: string, k: nat)
    requires ValidPayload(files) && names <= files.Keys && name in files && name !in names
    requires 0 < k < |Parts(name)| && Staging(inner, files, names, Parts(name), k)
    ensures KindAt(inner, Parts(name)[..k]) == ADir <==> Parts(name)[..k] in StagedDirs(files, names)
  {
    FileOfName(files, names, name);
    var q := Parts(name)[..k];
    assert KindAt(inner, q) == StagedKind(files, names, Parts(name), k, q);
    assert FileOf(files, names, q).None?;
    DirIsStaged(files, names, q);
  }

  // ----- what the handler can undo

  function InsideOf(entries: map<string, Node>, name: string): map<string, Node> {
    if name in entries && entries[name].Dir? then entries[name].entries else map[]
  }

  // The reserved entries other than the two this restore makes.
  function Reserved(entries: map<string, Node>, staging: string, rollback: string): map<string, Node> {
    entries - set name | name in entries && (!Hidden(name) || name == staging || name == rollback)
  }

  /** Reserved entries that stay the same: all entries with a reserved name but those two. */
  lemma {:induction false} ReservedStay(before: map<string, Node>, after: map<string, Node>, staging: string,
                                        rollback: string, name: string)
    requires Reserved(after, staging, rollback) == Reserved(before, staging, rollback)
    requires Hidden(name) && name != staging && name != rollback
    ensures name in after <==> name in before
    ensures name in before ==> after[name] == before[name]
  {
    assert name in Reserved(after, staging, rollback) <==> name in after;
    assert name in before ==> Reserved(before, staging, rollback)[name] == before[name];
    assert name in after ==> Reserved(after, staging, rollback)[name] == after[name];
  }

  /** Every original entry is in place or set aside unchanged, and everything else that
      shows was installed. */
  ghost predicate Undoable(entries: map<string, Node>, rollback: string, original: map<string, Node>,
                           installed: set<string>) {
    var aside := InsideOf(entries, rollback);
    && aside.Keys <= original.Keys
    && (forall name :: name in aside ==> aside[name] == original[name])
    && Visible(entries) - installed == original - aside.Keys
  }

  // What a failed removal leaves of a directory's entries.
  function Left(fault: Fault, entries: map<string, Node>): map<string, Node> {
    if fault.Fine? then map[] else fault.kept - (fault.kept.Keys - entries.Keys)
  }

  /** A failed attempt, as the handler finds it: everything can be put back, or the final
      removal failed and has left its part of what was set aside. */
  ghost predicate Broken(entries: map<string, Node>, rollback: string, original: map<string, Node>,
                         installed: set<string>, removal: Fault)
  {
    if removal.Fine? then Undoable(entries, rollback, original, installed)
    else Visible(entries).Keys == installed && InsideOf(entries, rollback) == Left(removal, original)
  }

  datatype Outcome = Rejected(error: SnapshotError) | Restored | Raised

  // Of `source`, all but `remaining` stand over `base`; now `name` does, too.
  lemma {:induction false} OneMore(base: map<string, Node>, source: map<string, Node>, remaining: set<string>,
                                   name: string)
    requires name in remaining && remaining <= source.Keys
    ensures (base + (source - remaining))[name := source[name]] == base + (source - (remaining - {name}))
  {
  }

  lemma {:induction false} UntouchedIsUndoable(entries: map<string, Node>, rollback: string)
    ensures InsideOf(entries, rollback) == map[] ==> Undoable(entries, rollback, Visible(entries), {})
  {
  }

  lemma {:induction false} OneLessLeft(source: map<string, Node>, remaining: set<string>, name: string)
    requires name in remaining && remaining <= source.Keys
    ensures (source - remaining)[name := source[name]] == source - (remaining - {name})
  {
  }

  // What moving an entry out of the staging directory does to the root.
  lemma {:induction false} MovedOut(now: map<string, Node>, staging: string, rollback: string, name: string)
    requires Hidden(staging) && staging in now && now[staging].Dir?
    requires name in now[staging].entries && !Hidden(name)
    ensures var inner := now[staging].entries;
            var next := now[staging := Dir(inner - {name})][name := inner[name]];
            && Visible(next) == Visible(now)[name := inner[name]]
            && Reserved(next, staging, rollback) == Reserved(now, staging, rollback)
  {
  }

  lemma {:induction false} VisibleTwice(entries: map<string, Node>)
    ensures Visible(Visible(entries)) == Visible(entries)
  {
  }

  lemma {:induction false} UndoneIsOriginal(entries: map<string, Node>, rollback: string,
                                            original: map<string, Node>, installed: set<string>)
    ensures Undoable(entries, rollback, original, installed) ==>
      (Visible(entries) - installed) + InsideOf(entries, rollback) == original
  {
    if Undoable(entries, rollback, original, installed) {
      var aside := InsideOf(entries, rollback);
      assert (original - aside.Keys) + aside == original;
    }
  }

  lemma {:induction false} UndoableMidway(entries: map<string, Node>, rollback: string, original: map<string, Node>,
                                          remaining: set<string>)
    requires remaining <= original.Keys
    requires InsideOf(entries, rollback) == original - remaining
    requires Visible(entries) == original - (original.Keys - remaining)
    ensures Undoable(entries, rollback, original, {})
  {
  }

  lemma {:induction false} AsideOneMore(before: map<string, Node>, now: map<string, Node>,
                                        staging: string, rollback: string,
                                        remaining: set<string>, name: string)
    requires Hidden(rollback) && rollback in now && now[rollback].Dir?
    requires remaining <= Visible(before).Keys && name in remaining
    requires Visible(now) == Visible(before) - (Visible(before).Keys - remaining)
    requires InsideOf(now, rollback) == Visible(before) - remaining && name in now
    ensures var next := (now - {name})[rollback := Dir(InsideOf(now, rollback)[name := now[name]])];
            && Visible(next) == Visible(before) - (Visible(before).Keys - (remaining - {name}))
            && InsideOf(next, rollback) == Visible(before) - (remaining - {name})
            && Reserved(next, staging, rollback) == Reserved(now, staging, rollback)
  {
    var next := (now - {name})[rollback := Dir(InsideOf(now, rollback)[name := now[name]])];
    assert now[name] == Visible(now)[name] == Visible(before)[name];
    assert Visible(next) == Visible(now) - {name};
  }

  lemma {:induction false} SameVisible(before: map<string, Node>, after: map<string, Node>, staging: string)
    requires Hidden(staging) && after - {staging} == before - {staging}
    ensures Visible(after) == Visible(before)
    ensures forall rollback :: Reserved(after, staging, rollback) == Reserved(before, staging, rollback)
    ensures forall name :: name != staging && name in before ==> name in after && after[name] == before[name]
  {
    forall name | name != staging
      ensures name in before <==> name in after
      ensures name in before ==> after[name] == before[name]
    {
      assert name in before <==> name in before - {staging};
      assert name in after <==> name in after - {staging};
      if name in before { assert (after - {staging})[name] == (before - {staging})[name]; }
    }
  }

  class Workspace {
    var entries: map<string, Node>
    // How many calls have been made; `faults` says how each of them goes.
    var calls: nat
    const faults: seq<Fault>

    constructor (entries: map<string, Node>, faults: seq<Fault>)
      ensures this.entries == entries && this.faults == faults && calls == 0
    {
      this.entries := entries;
      this.faults := faults;
      this.calls := 0;
    }

    // ----- file system calls

    // How one call goes; behind the list none fails.
    function FaultAt(n: nat): Fault {
      if n < |faults| then faults[n] else Fine
    }

    // Whether the next call fails.
    method NextFault() returns (fault: Fault)
      modifies this`calls
      ensures fault == FaultAt(old(calls)) && calls == old(calls) + 1
    {
      fault := FaultAt(calls);
      calls := calls + 1;
    }

    // None of these calls fails.
    ghost predicate Clear(from: nat, until: nat) {
      forall n :: from <= n < until ==> FaultAt(n).Fine?
    }

    /** What a piece of work made of `cost` calls has come to: all of them done, or cut short by
        the first that failed. */
    ghost predicate Spent(from: nat, cost: nat, ok: bool)
      reads this`calls
    {
      if ok then calls == from + cost && Clear(from, calls)
      else from < calls <= from + cost && FaultAt(calls - 1).Raises? && Clear(from, calls - 1)
    }

    // How the removal went, if that call has been made.
    ghost function RemovalFault(at: nat): Fault
      reads this`calls
    {
      if calls == at + 1 then FaultAt(at) else Fine
    }

    method MakeDir(name: string) returns (ok: bool)
      modifies this
      ensures ok ==> name !in old(entries) && entries == old(entries)[name := Dir(map[])]
      ensures !ok ==> entries == old(entries)
      ensures name !in old(entries) ==> Spent(old(calls), 1, ok)
    {
      var fault := NextFault();
      ok := fault.Fine? && name !in entries;
      if ok {
        entries := entries[name := Dir(map[])];
      }
    }

    // The staged tree.
    function Inside(name: string): map<string, Node>
      reads this
    {
      if name in entries && entries[name].Dir? then entries[name].entries else map[]
    }

    // Create one missing directory of a parent chain below `staging`.
    method MakeParent(staging: string, path: seq<string>) returns (ok: bool)
      requires path != [] && staging in entries && entries[staging].Dir?
      modifies this
      ensures staging in entries && entries[staging].Dir? && entries - {staging} == old(entries) - {staging}
      ensures var before := old(Inside(staging));
        && (KindAt(before, path) == ADir ==> ok && Inside(staging) == before && calls == old(calls))
        && (KindAt(before, path) == Absent ==>
              Inside(staging) == if ok then PutAt(before, path, Dir(map[])) else before)
        && (KindAt(before, path) == Absent ==> Spent(old(calls), 1, ok))
        && (KindAt(before, path) != Absent && KindAt(before, path) != ADir ==> !ok && Inside(staging) == before)
    {
      if KindAt(entries[staging].entries, path) == ADir {
        return true;
      }
      var fault := NextFault();
      ok := fault.Fine? && KindAt(entries[staging].entries, path) == Absent;
      if ok {
        entries := entries[staging := Dir(PutAt(entries[staging].entries, path, Dir(map[])))];
      }
    }

    method WriteFile(staging: string, path: seq<string>, data: seq<byte>) returns (ok: bool)
      requires path != [] && staging in entries && entries[staging].Dir?
      modifies this
      ensures staging in entries && entries[staging].Dir? && entries - {staging} == old(entries) - {staging}
      ensures ok ==> KindAt(old(Inside(staging)), path) != ADir
      ensures ok ==> Inside(staging) == PutAt(old(Inside(staging)), path, File(data))
      ensures KindAt(old(Inside(staging)), path) == Absent ==> Spent(old(calls), 1, ok)
      ensures !ok ==>
        || Inside(staging) == old(Inside(staging))
        || exists part :: Inside(staging) == PutAt(old(Inside(staging)), path, File(part))
    {
      var fault := NextFault();
      ok := fault.Fine? && KindAt(entries[staging].entries, path) != ADir;
      if ok {
        entries := entries[staging := Dir(PutAt(entries[staging].entries, path, File(data)))];
      } else if fault.Raises? && fault.partial.Some? && KindAt(entries[staging].entries, path) != ADir {
        entries := entries[staging := Dir(PutAt(entries[staging].entries, path, File(fault.partial.value)))];
      }
    }

    // Rename a root entry into a directory that has no entry of that name.
    method MoveInto(name: string, dir: string) returns (ok: bool)
      requires name in entries && dir in entries && entries[dir].Dir? && name != dir
      requires name !in entries[dir].entries
      modifies this
      ensures ok ==> entries == (old(entries) - {name})[dir := Dir(old(Inside(dir))[name := old(entries)[name]])]
      ensures !ok ==> entries == old(entries)
      ensures Spent(old(calls), 1, ok)
    {
      var fault := NextFault();
      ok := fault.Fine?;
      if ok {
        entries := (entries - {name})[dir := Dir(entries[dir].entries[name := entries[name]])];
      }
    }

    // Rename an entry of a directory into the root, where no entry has that name.
    method MoveOut(name: string, dir: string) returns (ok: bool)
      requires dir in entries && entries[dir].Dir? && name in entries[dir].entries && name !in entries
      modifies this
      ensures ok ==> entries == old(entries)[dir := Dir(old(Inside(dir)) - {name})][name := old(Inside(dir))[name]]
      ensures !ok ==> entries == old(entries)
      ensures Spent(old(calls), 1, ok)
    {
      var fault := NextFault();
      ok := fault.Fine?;
      if ok {
        var node := entries[dir].entries[name];
        entries := entries[dir := Dir(entries[dir].entries - {name})][name := node];
      }
    }

    method RemoveEmptyDir(name: string) returns (ok: bool)
      requires name in entries
      modifies this
      ensures ok ==> entries == old(entries) - {name}
      ensures !ok ==> entries == old(entries)
      ensures old(entries)[name] == Dir(map[]) ==> Spent(old(calls), 1, ok)
      ensures old(entries)[name] != Dir(map[]) ==> !ok
    {
      var fault := NextFault();
      ok := fault.Fine? && entries[name] == Dir(map[]);
      if ok {
        entries := entries - {name};
      }
    }

    // Remove a directory and all below it; on failure part of its entries is left.
    method RemoveTree(name: string) returns (ok: bool, kept: map<string, Node>)
      requires name in entries && entries[name].Dir?
      modifies this
      ensures ok ==> entries == old(entries) - {name}
      ensures !ok ==> entries == old(entries)[name := Dir(kept)]
      ensures Spent(old(calls), 1, ok)
      ensures !ok ==> kept == Left(FaultAt(old(calls)), old(Inside(name)))
    {
      var fault := NextFault();
      ok := fault.Fine?;
      kept := map[];
      if ok {
        entries := entries - {name};
      } else {
        kept := Left(fault, entries[name].entries);
        entries := entries[name := Dir(kept)];
      }
    }

    // ----- the restore

    // The directories above one file.
    method MakeParents(files: map<string, string>, ghost names: set<string>, staging: string, name: string)
      returns (ok: bool)
      requires ValidPayload(files) && names <= files.Keys && name in files && name !in names
      requires staging in entries && entries[staging].Dir? && Holds(Inside(staging), files, names)
      modifies this
      ensures staging in entries && entries[staging].Dir? && entries - {staging} == old(entries) - {staging}
      ensures ok ==> Staging(Inside(staging), files, names, Parts(name), |Parts(name)|)
      ensures var path := Parts(name);
        && path != [] && Count(DirsDownTo(files, names, path, 1)) <= Count(DirsDownTo(files, names, path, |path|))
        && Spent(old(calls), Count(DirsDownTo(files, names, path, |path|)) - Count(DirsDownTo(files, names, path, 1)),
                 ok)
    {
      var path := Parts(name);
      ValidIsClean(name);
      ghost var from, others := calls, entries - {staging};
      DirsGrow(files, names, path, 1, |path|);
      for k := 1 to |path|
        invariant staging in entries && entries[staging].Dir? && entries - {staging} == others
        invariant Staging(Inside(staging), files, names, path, k)
        invariant Count(DirsDownTo(files, names, path, 1)) <= Count(DirsDownTo(files, names, path, k))
        invariant Spent(from, Count(DirsDownTo(files, names, path, k)) - Count(DirsDownTo(files, names, path, 1)), true)
      {
        ParentIsNoFile(Inside(staging), files, names, name, k);
        StagingStep(Inside(staging), files, names, path, k);
        ParentIsStaged(Inside(staging), files, names, name, k);
        OneMoreDir(files, names, path, k);
        DirsGrow(files, names, path, k + 1, |path|);
        ok := MakeParent(staging, path[..k]);
        if !ok {
          return;
        }
      }
      ok := true;
    }

    // One file and the directories above it.
    method StageOne(files: map<string, string>, ghost names: set<string>, staging: string, name: string)
      returns (ok: bool)
      requires ValidPayload(files) && names <= files.Keys && name in files && name !in names
      requires staging in entries && entries[staging].Dir? && Holds(Inside(staging), files, names)
      modifies this
      ensures staging in entries && entries[staging].Dir? && entries - {staging} == old(entries) - {staging}
      ensures ok ==> Holds(Inside(staging), files, names + {name})
      ensures StagingCalls(files, names) <= StagingCalls(files, names + {name})
      ensures Spent(old(calls), StagingCalls(files, names + {name}) - StagingCalls(files, names), ok)
    {
      ValidIsClean(name);
      StagingCallsOneMore(files, names, name);
      ok := MakeParents(files, names, staging, name);
      if ok {
        StagedFile(Inside(staging), files, names, name);
        ok := WriteFile(staging, Parts(name), Decode(files[name]).value);
      }
    }

    /** What staging, begun with call `from`, has come to: these files stand below `staging` and
        nothing else has changed, or one of the calls they take has failed. */
    ghost predicate Staged(files: map<string, string>, names: set<string>, staging: string,
                           others: map<string, Node>, from: nat, ok: bool)
      requires names <= files.Keys
      reads this
    {
      && staging in entries && entries[staging].Dir? && entries - {staging} == others
      && (ok ==> Holds(Inside(staging), files, names))
      && Spent(from, StagingCalls(files, names), ok)
    }

    // One more file, with what staging has come to.
    method StageNext(files: map<string, string>, order: seq<string>, k: nat, staging: string,
                     ghost others: map<string, Node>, ghost from: nat)
      returns (ok: bool)
      requires ValidPayload(files) && Ordered(files, order) && k < |order|
      requires Staged(files, Names(order, k), staging, others, from, true)
      modifies this
      ensures Staged(files, Names(order, if ok then k + 1 else |order|), staging, others, from, ok)
    {
      NamesOneMore(files, order, k);
      NamesOfAll(files, order);
      StagingCallsGrow(files, Names(order, k + 1), files.Keys);
      ok := StageOne(files, Names(order, k), staging, order[k]);
    }

    // The files one after another.
    method StageAll(files: map<string, string>, order: seq<string>, staging: string,
                    ghost others: map<string, Node>, ghost from: nat)
      returns (ok: bool)
      requires ValidPayload(files) && Ordered(files, order)
      requires Staged(files, {}, staging, others, from, true)
      modifies this
      ensures Staged(files, files.Keys, staging, others, from, ok)
    {
      NamesOfAll(files, order);
      for k := 0 to |order|
        invariant Staged(files, Names(order, k), staging, others, from, true)
      {
        ok := StageNext(files, order, k, staging, others, from);
        if !ok {
          return;
        }
      }
      ok := true;
    }

    // Write the payload below `staging`.
    method Stage(files: map<string, string>, order: seq<string>, staging: string) returns (ok: bool)
      requires ValidPayload(files) && Ordered(files, order) && staging in entries && entries[staging] == Dir(map[])
      modifies this
      ensures staging in entries && entries[staging].Dir? && entries - {staging} == old(entries) - {staging}
      ensures ok ==> Holds(Inside(staging), files, files.Keys)
      ensures Spent(old(calls), StagingCalls(files, files.Keys), ok)
    {
      HoldsEmpty(files);
      NothingStaged(files);
      ok := StageAll(files, order, staging, entries - {staging}, calls);
    }

    // Set every original entry aside.
    method SetAside(original: set<string>, staging: string, rollback: string) returns (ok: bool)
      requires original == Visible(entries).Keys && Hidden(staging) && Hidden(rollback) && staging != rollback
      requires rollback in entries && entries[rollback] == Dir(map[])
      modifies this
      ensures rollback in entries && entries[rollback].Dir? && Undoable(entries, rollback, old(Visible(entries)), {})
      ensures Reserved(entries, staging, rollback) == old(Reserved(entries, staging, rollback))
      ensures staging in old(entries) ==> staging in entries && entries[staging] == old(entries)[staging]
      ensures ok ==> Visible(entries) == map[] && Inside(rollback) == old(Visible(entries))
      ensures Spent(old(calls), Count(original), ok)
    {
      ghost var before, from, count := entries, calls, 0;
      var remaining := original;
      while remaining != {}
        invariant remaining <= original
        invariant count + Count(remaining) == Count(original) && Spent(from, count, true)
        invariant rollback in entries && entries[rollback].Dir?
        invariant Visible(entries) == Visible(before) - (original - remaining)
        invariant Inside(rollback) == Visible(before) - remaining
        invariant Reserved(entries, staging, rollback) == Reserved(before, staging, rollback)
        invariant staging in before ==> staging in entries && entries[staging] == before[staging]
        decreases remaining
      {
        var name :| name in remaining;
        assert name in Visible(entries);
        CountWithout(remaining, name);
        ghost var now := entries;
        ok := MoveInto(name, rollback);
        if !ok {
          UndoableMidway(entries, rollback, Visible(before), remaining);
          return;
        }
        AsideOneMore(before, now, staging, rollback, remaining, name);
        count := count + 1;
        remaining := remaining - {name};
      }
      UndoableMidway(entries, rollback, Visible(before), {});
      CountOfNone(remaining);
      ok := true;
    }

    // Move the staged entries to the root.
    method Install(staging: string, rollback: string) returns (ok: bool, installed: set<string>)
      requires Hidden(staging) && Hidden(rollback) && staging != rollback
      requires staging in entries && entries[staging].Dir? && Visible(entries) == map[]
      requires forall name :: name in Inside(staging) ==> !Hidden(name)
      modifies this
      ensures InsideOf(entries, rollback) == old(InsideOf(entries, rollback))
      ensures rollback in old(entries) ==> rollback in entries && entries[rollback] == old(entries)[rollback]
      ensures Reserved(entries, staging, rollback) == old(Reserved(entries, staging, rollback))
      ensures Visible(entries).Keys == installed
      ensures staging in entries
      ensures ok ==> Visible(entries) == old(Inside(staging)) && entries[staging] == Dir(map[])
      ensures Spent(old(calls), Count(old(Inside(staging)).Keys), ok)
    {
      ghost var before, from, count := entries, calls, 0;
      ghost var staged := Inside(staging);
      var remaining := entries[staging].entries.Keys;
      installed := {};
      while remaining != {}
        invariant staging in entries && entries[staging].Dir? && remaining == Inside(staging).Keys
        invariant Inside(staging) == staged - installed && installed <= staged.Keys
        invariant count + Count(remaining) == Count(staged.Keys) && Spent(from, count, true)
        invariant Visible(entries) == staged - remaining && installed == staged.Keys - remaining
        invariant Reserved(entries, staging, rollback) == Reserved(before, staging, rollback)
        invariant rollback in before ==> rollback in entries && entries[rollback] == before[rollback]
        invariant rollback !in before ==> rollback !in entries
        decreases remaining
      {
        var name :| name in remaining;
        assert name !in Visible(entries);
        CountWithout(remaining, name);
        ghost var now := entries;
        ok := MoveOut(name, staging);
        if !ok {
          return;
        }
        MovedOut(now, staging, rollback, name);
        OneLessLeft(staged, remaining, name);
        count := count + 1;
        installed := installed + {name};
        remaining := remaining - {name};
      }
      CountOfNone(remaining);
      ok := true;
    }

    // Make the two reserved directories.
    method MakeReserved(staging: string, rollback: string) returns (ok: bool)
      requires Hidden(staging) && Hidden(rollback) && staging != rollback && staging !in entries && rollback !in entries
      modifies this
      ensures Visible(entries) == old(Visible(entries)) && InsideOf(entries, rollback) == map[]
      ensures Reserved(entries, staging, rollback) == old(Reserved(entries, staging, rollback))
      ensures ok ==>
        && rollback in entries && entries[rollback] == Dir(map[])
        && staging in entries && entries[staging] == Dir(map[])
      ensures Spent(old(calls), 2, ok)
    {
      ok := MakeDir(staging);
      if ok {
        ok := MakeDir(rollback);
      }
      assert Visible(entries) == old(Visible(entries));
      assert Reserved(entries, staging, rollback) == old(Reserved(entries, staging, rollback));
    }

    // Make the reserved directories and stage the payload. Nothing visible changes.
    method Prepare(files: map<string, string>, order: seq<string>, staging: string, rollback: string)
      returns (ok: bool)
      requires ValidPayload(files) && Ordered(files, order)
      requires Hidden(staging) && Hidden(rollback) && staging != rollback && staging !in entries && rollback !in entries
      modifies this
      ensures Visible(entries) == old(Visible(entries)) && InsideOf(entries, rollback) == map[]
      ensures Reserved(entries, staging, rollback) == old(Reserved(entries, staging, rollback))
      ensures ok ==>
        && rollback in entries && entries[rollback] == Dir(map[])
        && staging in entries && entries[staging].Dir? && Holds(Inside(staging), files, files.Keys)
      ensures Spent(old(calls), 2 + StagingCalls(files, files.Keys), ok)
    {
      ok := MakeReserved(staging, rollback);
      if ok {
        ghost var made := entries;
        ok := Stage(files, order, staging);
        SameVisible(made, entries, staging);
      }
    }

    // The final removal.
    method RemoveRollback(staging: string, rollback: string) returns (ok: bool)
      requires Hidden(rollback) && rollback in entries && entries[rollback].Dir?
      modifies this
      ensures Visible(entries) == old(Visible(entries))
      ensures Reserved(entries, staging, rollback) == old(Reserved(entries, staging, rollback))
      ensures staging !in old(entries) ==> staging !in entries
      ensures Spent(old(calls), 1, ok)
      ensures ok ==> rollback !in entries
      ensures !ok ==> InsideOf(entries, rollback) == Left(FaultAt(old(calls)), old(Inside(rollback)))
    {
      var kept;
      ok, kept := RemoveTree(rollback);
      assert Visible(entries) == old(Visible(entries));
      assert Reserved(entries, staging, rollback) == old(Reserved(entries, staging, rollback));
    }

    // `staging` is empty by now.
    method RemoveReserved(staging: string, rollback: string) returns (ok: bool)
      requires Hidden(staging) && staging != rollback && staging in entries
      modifies this
      ensures ok ==> staging !in entries
      ensures Visible(entries) == old(Visible(entries))
              && InsideOf(entries, rollback) == old(InsideOf(entries, rollback))
      ensures rollback in old(entries) ==> rollback in entries && entries[rollback] == old(entries)[rollback]
      ensures Reserved(entries, staging, rollback) == old(Reserved(entries, staging, rollback))
      ensures old(entries)[staging] == Dir(map[]) ==> Spent(old(calls), 1, ok)
    {
      ok := RemoveEmptyDir(staging);
    }

    // Exchange the visible entries for the staged ones. Its last call, number `at`, is the final
    // removal.
    method Swap(staging: string, rollback: string, ghost original: map<string, Node>, ghost at: nat)
      returns (ok: bool, installed: set<string>, ghost removal: Fault)
      requires original == Visible(entries) && at == calls + Count(original.Keys) + Count(Inside(staging).Keys) + 1
      requires Hidden(staging) && Hidden(rollback) && staging != rollback
      requires rollback in entries && entries[rollback] == Dir(map[])
      requires staging in entries && entries[staging].Dir?
      requires forall name :: name in Inside(staging) ==> !Hidden(name)
      modifies this
      ensures Reserved(entries, staging, rollback) == old(Reserved(entries, staging, rollback))
      ensures ok ==> Visible(entries) == old(Inside(staging)) && staging !in entries && rollback !in entries
      ensures forall name :: name in installed ==> !Hidden(name)
      ensures Spent(old(calls), at + 1 - old(calls), ok)
      ensures !ok ==> Broken(entries, rollback, original, installed, removal) && removal == RemovalFault(at)
    {
      installed, removal := {}, Fine;
      ghost var staged := Inside(staging);
      ok := SetAside(Visible(entries).Keys, staging, rollback);
      if !ok {
        return;
      }
      ok, installed := Install(staging, rollback);
      if !ok {
        return;
      }
      ok := RemoveReserved(staging, rollback);
      if !ok {
        return;
      }
      removal := FaultAt(calls);
      ok := RemoveRollback(staging, rollback);
    }

    // The body of the restore.
    method Attempt(files: map<string, string>, order: seq<string>, staging: string, rollback: string,
                   ghost original: map<string, Node>, ghost at: nat)
      returns (ok: bool, installed: set<string>, ghost removal: Fault)
      requires ValidPayload(files) && Ordered(files, order)
      requires original == Visible(entries) && at == calls + CallsToRemoval(files, entries)
      requires Hidden(staging) && Hidden(rollback) && staging != rollback && staging !in entries && rollback !in entries
      modifies this
      ensures Reserved(entries, staging, rollback) == old(Reserved(entries, staging, rollback))
      ensures ok ==> Holds(Visible(entries), files, files.Keys) && staging !in entries && rollback !in entries
      ensures forall name :: name in installed ==> !Hidden(name)
      ensures at >= old(calls) && Spent(old(calls), at + 1 - old(calls), ok)
      ensures !ok ==> Broken(entries, rollback, original, installed, removal) && removal == RemovalFault(at)
    {
      installed, removal := {}, Fine;
      ok := Prepare(files, order, staging, rollback);
      if ok {
        StagedNames(Inside(staging), files);
        StagedTop(Inside(staging), files);
        ok, installed, removal := Swap(staging, rollback, original, at);
      } else {
        UntouchedIsUndoable(entries, rollback);
      }
    }

    // ----- the rollback handler

    // One entry that was set aside; whatever stands in its place goes.
    method PutBack(name: string, staging: string, rollback: string)
      requires Hidden(rollback) && !Hidden(name)
      requires rollback in entries && entries[rollback].Dir? && name in entries[rollback].entries
      modifies this`entries
      ensures rollback in entries && entries[rollback].Dir? && Inside(rollback) == old(Inside(rollback)) - {name}
      ensures Visible(entries) == old(Visible(entries))[name := old(Inside(rollback))[name]]
      ensures Reserved(entries, staging, rollback) == old(Reserved(entries, staging, rollback))
    {
      var node := entries[rollback].entries[name];
      entries := entries - {name};
      entries := entries[rollback := Dir(entries[rollback].entries - {name})][name := node];
    }

    method RemoveInstalled(installed: set<string>, staging: string, rollback: string)
      requires Hidden(rollback) && forall name :: name in installed ==> !Hidden(name)
      modifies this`entries
      ensures Visible(entries) == old(Visible(entries)) - installed
      ensures InsideOf(entries, rollback) == old(InsideOf(entries, rollback))
      ensures Reserved(entries, staging, rollback) == old(Reserved(entries, staging, rollback))
    {
      ghost var before := entries;
      var remaining := installed;
      while remaining != {}
        invariant remaining <= installed
        invariant entries == before - (installed - remaining)
        decreases remaining
      {
        var name :| name in remaining;
        entries := entries - {name};
        remaining := remaining - {name};
      }
      assert rollback in before <==> rollback in entries;
    }

    // Remove what was installed, then move back what was set aside.
    method RollBack(installed: set<string>, staging: string, rollback: string)
      requires Hidden(staging) && Hidden(rollback)
      requires forall name :: name in installed ==> !Hidden(name)
      requires forall name :: name in InsideOf(entries, rollback) ==> !Hidden(name)
      modifies this`entries
      ensures Visible(entries) == old((Visible(entries) - installed) + InsideOf(entries, rollback))
      ensures Reserved(entries, staging, rollback) == old(Reserved(entries, staging, rollback))
    {
      RemoveInstalled(installed, staging, rollback);
      if rollback in entries && entries[rollback].Dir? {
        ghost var before, aside := entries, InsideOf(entries, rollback);
        var remaining := entries[rollback].entries.Keys;
        while remaining != {}
          invariant rollback in entries && entries[rollback].Dir? && remaining == Inside(rollback).Keys <= aside.Keys
          invariant forall name :: name in remaining ==> Inside(rollback)[name] == aside[name]
          invariant Visible(entries) == Visible(before) + (aside - remaining)
          invariant Reserved(entries, staging, rollback) == Reserved(before, staging, rollback)
          decreases remaining
        {
          var name :| name in remaining;
          OneMore(Visible(before), aside, remaining, name);
          PutBack(name, staging, rollback);
          remaining := remaining - {name};
        }
      }
    }

    /** What the faults decide of a restore begun over `before` with call `from`, whose final
        removal is call `removal`: with none up to it and in it, the visible entries become
        exactly the payload's tree; with one before it, they are exactly what they were; and if
        only the removal fails, they are what it left. */
    ghost predicate Settled(files: map<string, string>, before: map<string, Node>, from: nat, removal: nat,
                            outcome: Outcome, staging: string, rollback: string)
      reads this`entries
    {
      && (outcome == if Clear(from, removal + 1) then Restored else Raised)
      && (Clear(from, removal + 1) ==>
            Holds(Visible(entries), files, files.Keys) && staging !in entries && rollback !in entries)
      && (!Clear(from, removal) ==> Visible(entries) == Visible(before))
      && (Clear(from, removal) && FaultAt(removal).Raises? ==>
              Visible(entries) == Left(FaultAt(removal), Visible(before)))
    }

    // The handler at work after a failed attempt.
    method Undo(installed: set<string>, staging: string, rollback: string, ghost original: map<string, Node>,
                ghost removal: Fault)
      requires Hidden(staging) && Hidden(rollback) && original == Visible(original)
      requires forall name :: name in installed ==> !Hidden(name)
      requires Broken(entries, rollback, original, installed, removal)
      modifies this`entries
      ensures removal.Fine? ==> Visible(entries) == original
      ensures removal.Raises? ==> Visible(entries) == Left(removal, original)
      ensures Reserved(entries, staging, rollback) == old(Reserved(entries, staging, rollback))
    {
      ghost var now := entries;
      UndoneIsOriginal(now, rollback, original, installed);
      RollBack(installed, staging, rollback);
      if removal.Raises? {
        assert Visible(now) - installed == map[];
        assert map[] + InsideOf(now, rollback) == InsideOf(now, rollback);
      }
    }

    // An attempt, undone if it fails.
    method AllOrNothing(files: map<string, string>, order: seq<string>, staging: string, rollback: string,
                        ghost at: nat)
      returns (ok: bool)
      requires ValidPayload(files) && Ordered(files, order) && at == calls + CallsToRemoval(files, entries)
      requires Hidden(staging) && Hidden(rollback) && staging != rollback && staging !in entries && rollback !in entries
      modifies this
      ensures ok ==> Holds(Visible(entries), files, files.Keys) && staging !in entries && rollback !in entries
      ensures at >= old(calls) && Spent(old(calls), at + 1 - old(calls), ok)
      ensures !ok && RemovalFault(at).Fine? ==> Visible(entries) == old(Visible(entries))
      ensures !ok && RemovalFault(at).Raises? ==> Visible(entries) == Left(RemovalFault(at), old(Visible(entries)))
      ensures Reserved(entries, staging, rollback) == old(Reserved(entries, staging, rollback))
    {
      ghost var original := Visible(entries);
      VisibleTwice(entries);
      var installed;
      ghost var removal;
      ok, installed, removal := Attempt(files, order, staging, rollback, original, at);
      if !ok {
        Undo(installed, staging, rollback, original, removal);
      }
    }

    // The call of the final removal and the faults up to it decide.
    method RestoreValid(files: map<string, string>, order: seq<string>, staging: string, rollback: string,
                        ghost at: nat)
      returns (outcome: Outcome)
      requires ValidPayload(files) && Ordered(files, order) && at == calls + CallsToRemoval(files, entries)
      requires Hidden(staging) && Hidden(rollback) && staging != rollback && staging !in entries && rollback !in entries
      modifies this
      ensures !outcome.Rejected? && Settled(files, old(entries), old(calls), at, outcome, staging, rollback)
      ensures Reserved(entries, staging, rollback) == old(Reserved(entries, staging, rollback))
    {
      var ok := AllOrNothing(files, order, staging, rollback, at);
      outcome := if ok then Restored else Raised;
    }

    /** Restore a payload, if it is valid; otherwise say why not and touch nothing. */
    method Restore(files: map<string, string>, order: seq<string>, staging: string, rollback: string)
      returns (outcome: Outcome)
      requires Ordered(files, order)
      requires Hidden(staging) && Hidden(rollback) && staging != rollback && staging !in entries && rollback !in entries
      modifies this
      ensures outcome.Rejected? <==> !ValidPayload(files)
      ensures outcome.Rejected? ==> entries == old(entries) && calls == old(calls)
      ensures ValidPayload(files) ==>
        Settled(files, old(entries), old(calls), old(calls) + CallsToRemoval(files, old(entries)), outcome,
                staging, rollback)
      ensures Reserved(entries, staging, rollback) == old(Reserved(entries, staging, rollback))
    {
      ghost var at := calls + CallsToRemoval(files, entries);
      var error := Validate(files, order);
      if error.Some? {
        return Rejected(error.value);
      }
      outcome := RestoreValid(files, order, staging, rollback, at);
    }
  }

  /** A failed final removal keeps the originals exactly if it has left every one of them. */
  lemma {:induction false} RemovalKeepsIff(fault: Fault, original: map<string, Node>)
    requires fault.Raises?
    ensures Left(fault, original) == original <==>
      forall name :: name in original ==> name in fault.kept && fault.kept[name] == original[name]
  {
    if Left(fault, original) == original {
      forall name | name in original
        ensures name in fault.kept && fault.kept[name] == original[name]
      {
        assert name in Left(fault, original) && Left(fault, original)[name] == original[name];
      }
    }
  }

  // Four calls clear the way over one entry, and the fifth is the removal.
  lemma {:induction false} FourCalls(entries: map<string, Node>, name: string)
    requires entries.Keys == {name} && !Hidden(name)
    ensures CallsToRemoval(map[], entries) == 4
  {
    var none: map<string, string> := map[];
    NothingStaged(none);
    assert none.Keys == {} && TopNames(none) == {};
    assert Visible(entries).Keys == {name};
    CountIsSize({name});
    CountOfNone(TopNames(none));
  }

  lemma {:induction false} EmptyPayload()
    ensures ValidPayload(map[])
  {
  }

  // An empty payload over one entry, with a failing removal.
  method RestoreNothing(w: Workspace, name: string, staging: string, rollback: string) returns (outcome: Outcome)
    requires w.calls == 0 && w.entries.Keys == {name} && !Hidden(name)
    requires Hidden(staging) && Hidden(rollback) && staging != rollback
    requires w.Clear(0, 4) && w.FaultAt(4).Raises?
    modifies w
    ensures outcome == Raised && Visible(w.entries) == Left(w.FaultAt(4), old(Visible(w.entries)))
  {
    EmptyPayload();
    FourCalls(w.entries, name);
    ghost var before, at := w.entries, w.calls + CallsToRemoval(map[], w.entries);
    assert at == 4;
    outcome := w.Restore(map[], [], staging, rollback);
    assert Visible(w.entries) == Left(w.FaultAt(at), Visible(before));
  }

  lemma {:induction false} TwoReservedNames(staging: string, rollback: string)
    requires staging == ".mix-restore-1" && rollback == ".mix-rollback-1"
    ensures Hidden(staging) && Hidden(rollback) && staging != rollback
  {
    assert staging[6] != rollback[6];
  }

  lemma {:induction false} NothingLeft(entries: map<string, Node>)
    ensures Left(Raises(None, map[]), entries) == map[]
  {
  }

  /** An original lost: an empty payload is restored over one entry, and the removal fails when
      it has removed that entry. */
  method OriginalLost(name: string, node: Node) returns (outcome: Outcome, left: map<string, Node>)
    requires !Hidden(name)
    ensures outcome == Raised && left == map[]
  {
    var staging, rollback := ".mix-restore-1", ".mix-rollback-1";
    TwoReservedNames(staging, rollback);
    var w := new Workspace(map[name := node], [Fine, Fine, Fine, Fine, Raises(None, map[])]);
    NothingLeft(Visible(w.entries));
    outcome := RestoreNothing(w, name, staging, rollback);
    left := Visible(w.entries);
  }
}
