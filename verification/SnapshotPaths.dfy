/** Snapshot path names: which ones validation accepts, and that an accepted payload
    is a prefix-free set of canonical relative paths. */
module SnapshotPaths {
  import opened Common
  import opened Base64
  import opened Splitting

  const LIMIT: nat := 64 * 1024 * 1024
  const MAX_FILES: nat := 10000

  // ----- a POSIX path and its text

  function DropEmpty(components: seq<string>): seq<string> {
    if components == [] then []
    else if components[0] == "" || components[0] == "." then DropEmpty(components[1..])
    else [components[0]] + DropEmpty(components[1..])
  }

  // The parts of a relative path: empty and `.` components vanish.
  function Parts(name: string): seq<string> {
    DropEmpty(Split(name, '/'))
  }

  function Join(parts: seq<string>): string {
    if parts == [] then ""
    else if |parts| == 1 then parts[0]
    else parts[0] + "/" + Join(parts[1..])
  }

  function PathText(parts: seq<string>): string {
    if parts == [] then "." else Join(parts)
  }

  predicate ValidName(name: string) {
    var parts := Parts(name);
    && !(name != "" && name[0] == '/')
    && parts != []
    && ".." !in parts
    && '\\' !in name
    && PathText(parts) == name
    && forall k :: 0 <= k < |parts| ==> !(".mix-" <= parts[k])
  }

  // A path component the payload may use.
  predicate CleanPart(part: string) {
    part != "" && part != "." && part != ".." && '/' !in part && '\\' !in part && !(".mix-" <= part)
  }

  predicate CleanPath(path: seq<string>) {
    path != [] && forall k :: 0 <= k < |path| ==> CleanPart(path[k])
  }

  lemma {:induction false} DropEmptyKeeps(components: seq<string>)
    ensures forall part :: part in DropEmpty(components) ==> part in components && part != "" && part != "."
  {
    if components != [] {
      DropEmptyKeeps(components[1..]);
    }
  }

  // A valid name is the text of its clean parts.
  lemma {:induction false} ValidIsClean(name: string)
    requires ValidName(name)
    ensures CleanPath(Parts(name)) && Join(Parts(name)) == name
  {
    PiecesFree(name, '/');
    DropEmptyKeeps(Split(name, '/'));
    forall k | 0 <= k < |Parts(name)|
      ensures CleanPart(Parts(name)[k])
    {
      assert Parts(name)[k] in Parts(name);
    }
  }

  lemma {:induction false} ComponentsOfJoin(path: seq<string>)
    requires path != [] && forall k :: 0 <= k < |path| ==> '/' !in path[k]
    ensures Split(Join(path), '/') == path
  {
    if |path| == 1 {
      IndexOfAfter(path[0], '/', "");
      assert path == [path[0]];
    } else {
      var name, rest := Join(path), Join(path[1..]);
      IndexOfAfter(path[0], '/', rest);
      assert name[..|path[0]|] == path[0] && name[|path[0]| + 1..] == rest;
      ComponentsOfJoin(path[1..]);
    }
  }

  lemma {:induction false} DropEmptyOfClean(path: seq<string>)
    requires forall k :: 0 <= k < |path| ==> path[k] != "" && path[k] != "."
    ensures DropEmpty(path) == path
  {
    if path != [] {
      DropEmptyOfClean(path[1..]);
    }
  }

  lemma {:induction false} CharsOfJoin(path: seq<string>, c: char)
    requires c != '/' && forall k :: 0 <= k < |path| ==> c !in path[k]
    ensures c !in Join(path)
  {
    if |path| > 1 {
      CharsOfJoin(path[1..], c);
    }
  }

  /** Clean paths and valid names are in one-to-one correspondence. */
  lemma {:induction false} CleanIsValid(path: seq<string>)
    requires CleanPath(path)
    ensures ValidName(Join(path)) && Parts(Join(path)) == path
  {
    ComponentsOfJoin(path);
    DropEmptyOfClean(path);
    CharsOfJoin(path, '\\');
    assert CleanPart(path[0]);
    assert Join(path)[0] == path[0][0];
    forall k | 0 <= k < |path|
      ensures path[k] != ".."
    {
      assert CleanPart(path[k]);
    }
  }

  // ----- payloads

  // A proper ancestor of the path is itself a payload name.
  predicate Collides(names: set<string>, path: seq<string>) {
    exists k :: 0 < k < |path| && Join(path[..k]) in names
  }

  // Bytes of a decodable entry.
  function Size(encoded: string): nat {
    match Decode(encoded) case Some(data) => |data| case None => 0
  }

  ghost function TotalSize(files: map<string, string>, names: set<string>): nat
    requires names <= files.Keys
  {
    if names == {} then 0
    else
      var name :| name in names;
      Size(files[name]) + TotalSize(files, names - {name})
  }

  lemma {:induction false} TotalSizeWithout(files: map<string, string>, names: set<string>, name: string)
    requires names <= files.Keys && name in names
    ensures TotalSize(files, names) == Size(files[name]) + TotalSize(files, names - {name})
    decreases names
  {
    var first :| first in names && TotalSize(files, names) == Size(files[first]) + TotalSize(files, names - {first});
    if first != name {
      TotalSizeWithout(files, names - {first}, name);
      TotalSizeWithout(files, names - {name}, first);
      assert names - {first} - {name} == names - {name} - {first};
    }
  }

  ghost predicate ValidPayload(files: map<string, string>) {
    && |files| <= MAX_FILES
    && (forall name :: name in files ==>
          ValidName(name) && !Collides(files.Keys, Parts(name)) && Decode(files[name]).Some?)
    && TotalSize(files, files.Keys) <= LIMIT
  }

  ghost predicate ProperPrefix(a: seq<string>, b: seq<string>) {
    |a| < |b| && a == b[..|a|]
  }

  lemma {:induction false} PrefixCollides(names: set<string>, a: string, path: seq<string>)
    requires a in names && Join(Parts(a)) == a && Parts(a) != []
    ensures ProperPrefix(Parts(a), path) ==> Collides(names, path)
  {
    if ProperPrefix(Parts(a), path) {
      assert Join(path[..|Parts(a)|]) in names;
    }
  }

  datatype SnapshotError = InvalidSnapshot | InvalidPath | PathCollision | TooLarge

  // What is wrong with one entry, apart from the size of what came before.
  function NameError(files: map<string, string>, name: string): Option<SnapshotError>
    requires name in files
  {
    if !ValidName(name) then Some(InvalidPath)
    else if Collides(files.Keys, Parts(name)) then Some(PathCollision)
    else if Decode(files[name]).None? then Some(InvalidSnapshot)
    else None
  }

  /** The entries of a payload in the order in which the dictionary holds them. */
  ghost predicate Ordered(files: map<string, string>, order: seq<string>) {
    && (forall name :: name in files <==> name in order)
    && (forall j, k :: 0 <= j < k < |order| ==> order[j] != order[k])
  }

  function SizeUpTo(files: map<string, string>, order: seq<string>, k: nat): nat
    requires k <= |order| && forall name :: name in order ==> name in files
  {
    if k == 0 then 0 else SizeUpTo(files, order, k - 1) + Size(files[order[k - 1]])
  }

  // What the loop finds wrong at entry `k`.
  function EntryError(files: map<string, string>, order: seq<string>, k: nat): Option<SnapshotError>
    requires k < |order| && forall name :: name in order ==> name in files
  {
    if NameError(files, order[k]).Some? then NameError(files, order[k])
    else if SizeUpTo(files, order, k + 1) > LIMIT then Some(TooLarge)
    else None
  }

  ghost predicate FirstError(files: map<string, string>, order: seq<string>, k: int, error: Option<SnapshotError>)
    requires forall name :: name in order ==> name in files
  {
    0 <= k < |order| && EntryError(files, order, k) == error
    && forall j :: 0 <= j < k ==> EntryError(files, order, j).None?
  }

  // One turn of the loop.
  method CheckEntry(files: map<string, string>, order: seq<string>, k: nat, total0: nat)
    returns (error: Option<SnapshotError>, total: nat)
    requires k < |order| && (forall name :: name in order ==> name in files) && total0 == SizeUpTo(files, order, k)
    ensures error == EntryError(files, order, k)
    ensures error.None? ==> total == SizeUpTo(files, order, k + 1) <= LIMIT
  {
    var name := order[k];
    total := total0;
    if !ValidName(name) {
      return Some(InvalidPath), total;
    }
    if Collides(files.Keys, Parts(name)) {
      return Some(PathCollision), total;
    }
    var decoded := Decode(files[name]);
    if decoded.None? {
      return Some(InvalidSnapshot), total;
    }
    total := total + |decoded.value|;
    error := if total > LIMIT then Some(TooLarge) else None;
  }

  ghost function Names(order: seq<string>, k: nat): set<string>
    requires k <= |order|
  {
    set j | 0 <= j < k :: order[j]
  }

  lemma {:induction false} NamesOneMore(files: map<string, string>, order: seq<string>, k: nat)
    requires Ordered(files, order) && k < |order|
    ensures order[k] in files && order[k] !in Names(order, k)
    ensures Names(order, k + 1) == Names(order, k) + {order[k]}
  {
  }

  lemma {:induction false} NamesOfAll(files: map<string, string>, order: seq<string>)
    requires Ordered(files, order)
    ensures Names(order, 0) == {} && Names(order, |order|) == files.Keys
    ensures forall k :: 0 <= k <= |order| ==> Names(order, k) <= files.Keys
  {
  }

  // The running total is the size of the entries so far.
  lemma {:induction false} SizeOfAll(files: map<string, string>, order: seq<string>, k: nat)
    requires Ordered(files, order) && k <= |order|
    ensures Names(order, k) <= files.Keys && SizeUpTo(files, order, k) == TotalSize(files, Names(order, k))
    ensures k == |order| ==> Names(order, k) == files.Keys
  {
    if k > 0 {
      SizeOfAll(files, order, k - 1);
      assert Names(order, k) - {order[k - 1]} == Names(order, k - 1);
      TotalSizeWithout(files, Names(order, k), order[k - 1]);
    } else {
      assert Names(order, 0) == {};
    }
  }

  lemma {:induction false} SizesGrow(files: map<string, string>, order: seq<string>, j: nat, k: nat)
    requires j <= k <= |order| && forall name :: name in order ==> name in files
    ensures SizeUpTo(files, order, j) <= SizeUpTo(files, order, k)
    decreases k
  {
    if j < k {
      SizesGrow(files, order, j, k - 1);
    }
  }

  // A payload with an error at some entry is not valid.
  lemma {:induction false} ErrorIsReal(files: map<string, string>, order: seq<string>, k: nat)
    requires Ordered(files, order) && k < |order| && EntryError(files, order, k).Some?
    ensures !ValidPayload(files)
  {
    assert order[k] in files;
    if NameError(files, order[k]).None? {
      SizesGrow(files, order, k + 1, |order|);
      SizeOfAll(files, order, |order|);
    }
  }

  lemma {:induction false} AllEntriesGood(files: map<string, string>, order: seq<string>)
    requires Ordered(files, order) && forall j :: 0 <= j < |order| ==> EntryError(files, order, j).None?
    ensures forall name :: name in files ==> NameError(files, name).None?
  {
    forall name | name in files
      ensures NameError(files, name).None?
    {
      var j :| 0 <= j < |order| && order[j] == name;
      assert EntryError(files, order, j).None?;
    }
  }

  // A payload without an error at any entry is valid.
  lemma {:induction false} NoErrorIsValid(files: map<string, string>, order: seq<string>)
    requires Ordered(files, order) && |files| <= MAX_FILES && SizeUpTo(files, order, |order|) <= LIMIT
    requires forall j :: 0 <= j < |order| ==> EntryError(files, order, j).None?
    ensures ValidPayload(files)
  {
    AllEntriesGood(files, order);
    SizeOfAll(files, order, |order|);
  }

  /** Accepts exactly the valid payloads, and reports of any other the first thing wrong. */
  method Validate(files: map<string, string>, order: seq<string>) returns (error: Option<SnapshotError>)
    requires Ordered(files, order)
    ensures error.None? <==> ValidPayload(files)
    ensures error.Some? ==>
      if |files| > MAX_FILES then error == Some(InvalidSnapshot) else exists k :: FirstError(files, order, k, error)
  {
    if |files| > MAX_FILES {
      return Some(InvalidSnapshot);
    }
    var total := 0;
    for k := 0 to |order|
      invariant total == SizeUpTo(files, order, k) <= LIMIT
      invariant forall j :: 0 <= j < k ==> EntryError(files, order, j).None?
    {
      error, total := CheckEntry(files, order, k, total);
      if error.Some? {
        ErrorIsReal(files, order, k);
        assert FirstError(files, order, k, error);
        return;
      }
    }
    NoErrorIsValid(files, order);
    return None;
  }

  /** In a valid payload no path stands where another needs a directory. */
  lemma {:induction false} PayloadIsPrefixFree(files: map<string, string>, a: string, b: string)
    requires ValidPayload(files) && a in files && b in files
    ensures !ProperPrefix(Parts(a), Parts(b))
    ensures Parts(a) == Parts(b) ==> a == b
  {
    ValidIsClean(a);
    ValidIsClean(b);
    PrefixCollides(files.Keys, a, Parts(b));
  }

  // The name is the text of this path.
  ghost predicate IsText(name: string, path: seq<string>) {
    CleanPath(path) && Join(path) == name
  }

  lemma {:induction false} NamedIffValid(name: string)
    ensures ValidName(name) <==> exists path :: IsText(name, path)
    ensures forall path :: IsText(name, path) ==> path == Parts(name)
  {
    if ValidName(name) {
      ValidIsClean(name);
      assert IsText(name, Parts(name));
    }
    forall path | IsText(name, path)
      ensures ValidName(name) && path == Parts(name)
    {
      CleanIsValid(path);
    }
  }

  // A file of the payload stands where the path needs a directory.
  ghost predicate Blocked(files: map<string, string>, path: seq<string>) {
    exists other, above :: other in files && IsText(other, above) && ProperPrefix(above, path)
  }

  lemma {:induction false} CollidesIffBlocked(files: map<string, string>, path: seq<string>)
    requires CleanPath(path)
    ensures Collides(files.Keys, path) <==> Blocked(files, path)
  {
    if Collides(files.Keys, path) {
      var k :| 0 < k < |path| && Join(path[..k]) in files.Keys;
      assert IsText(Join(path[..k]), path[..k]) && ProperPrefix(path[..k], path);
    }
    if Blocked(files, path) {
      var other, above :| other in files && IsText(other, above) && ProperPrefix(above, path);
      assert Join(path[..|above|]) in files.Keys;
    }
  }

  /** A payload is valid if and only if it has at most 10000 files, the name of each is a path of
      ordinary components with no file above it, and their contents are base 64 and no larger than
      64 MiB together. */
  lemma {:induction false} ValidIff(files: map<string, string>)
    ensures ValidPayload(files) <==>
      && |files| <= 10_000
      && (forall name :: name in files ==>
            (exists path :: IsText(name, path)) && !Blocked(files, Parts(name)) && WellFormed(files[name]))
      && TotalSize(files, files.Keys) <= 64 * 0x10_0000
  {
    forall name | name in files
      ensures ValidName(name) && !Collides(files.Keys, Parts(name)) && Decode(files[name]).Some? <==>
        (exists path :: IsText(name, path)) && !Blocked(files, Parts(name)) && WellFormed(files[name])
    {
      NamedIffValid(name);
      DecodesIff(files[name]);
      if ValidName(name) {
        ValidIsClean(name);
        CollidesIffBlocked(files, Parts(name));
      }
    }
  }

  /** What each error says of the entry it is reported for: its name is no path of ordinary
      components; or a file stands where it needs a directory; or its content is not base 64; or
      with it the contents are larger than 64 MiB. The first of these in this order is reported. */
  lemma {:induction false} WhatIsWrong(files: map<string, string>, order: seq<string>, k: nat)
    requires Ordered(files, order) && k < |order|
    ensures EntryError(files, order, k) ==
      if !exists path :: IsText(order[k], path) then Some(InvalidPath)
      else if Blocked(files, Parts(order[k])) then Some(PathCollision)
      else if !WellFormed(files[order[k]]) then Some(InvalidSnapshot)
      else if SizeUpTo(files, order, k + 1) > 64 * 0x10_0000 then Some(TooLarge)
      else None
  {
    var name := order[k];
    NamedIffValid(name);
    DecodesIff(files[name]);
    if ValidName(name) {
      ValidIsClean(name);
      CollidesIffBlocked(files, Parts(name));
    }
  }
}
