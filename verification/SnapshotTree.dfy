/** Directory trees, seen as what stands at each path. */
module SnapshotTree {
  import opened Common
  import opened Base64
  import opened SnapshotPaths

  // `Special` covers symlinks, sockets, devices: everything a snapshot refuses.
  datatype Node = File(data: seq<byte>) | Dir(entries: map<string, Node>) | Special

  datatype Kind = Absent | AFile(data: seq<byte>) | ADir | ASpecial

  function KindOf(node: Node): Kind {
    match node case File(data) => AFile(data) case Dir(_) => ADir case Special => ASpecial
  }

  // What stands at a path below a directory.
  function KindAt(entries: map<string, Node>, path: seq<string>): Kind
    decreases |path|
  {
    if path == [] then ADir
    else if path[0] !in entries then Absent
    else if |path| == 1 then KindOf(entries[path[0]])
    else match entries[path[0]] case Dir(inner) => KindAt(inner, path[1..]) case _ => Absent
  }

  // The directory with `leaf` put at a path whose parent directories exist.
  function PutAt(entries: map<string, Node>, path: seq<string>, leaf: Node): map<string, Node>
    requires path != []
    decreases |path|
  {
    if |path| == 1 then entries[path[0] := leaf]
    else if path[0] in entries && entries[path[0]].Dir? then
      entries[path[0] := Dir(PutAt(entries[path[0]].entries, path[1..], leaf))]
    else entries
  }

  ghost predicate HasParents(entries: map<string, Node>, path: seq<string>) {
    forall k {:trigger path[..k]} :: 0 <= k < |path| ==> KindAt(entries, path[..k]) == ADir
  }

  lemma {:induction false} ParentsBelow(entries: map<string, Node>, path: seq<string>)
    requires |path| > 1 && HasParents(entries, path)
    ensures path[0] in entries && entries[path[0]].Dir? && HasParents(entries[path[0]].entries, path[1..])
  {
    assert path[..1] == [path[0]];
    assert KindAt(entries, path[..1]) == ADir;
    forall k | 0 <= k < |path| - 1
      ensures KindAt(entries[path[0]].entries, path[1..][..k]) == ADir
    {
      assert KindAt(entries, path[..k + 1]) == ADir;
      assert path[..k + 1][1..] == path[1..][..k];
    }
  }

  // Putting a file or an empty directory changes what stands at that one path only.
  lemma {:induction false} KindAfterPut(entries: map<string, Node>, path: seq<string>, leaf: Node, q: seq<string>)
    requires path != [] && HasParents(entries, path) && KindAt(entries, path) != ADir
    requires leaf.File? || leaf == Dir(map[])
    ensures KindAt(PutAt(entries, path, leaf), q) == if q == path then KindOf(leaf) else KindAt(entries, q)
    decreases |path|
  {
    if q != [] {
      if |path| == 1 {
        if q[0] == path[0] && |q| == 1 {
          assert q == path;
        }
      } else {
        ParentsBelow(entries, path);
        if q[0] == path[0] {
          assert q == [q[0]] + q[1..] && path == [path[0]] + path[1..];
          KindAfterPut(entries[path[0]].entries, path[1..], leaf, q[1..]);
        }
      }
    }
  }

  // ----- the tree a payload describes

  // The decoded content of the payload file at a path, if there is one.
  function FileOf(files: map<string, string>, names: set<string>, path: seq<string>): Option<seq<byte>>
    requires names <= files.Keys
  {
    if Join(path) in names && Parts(Join(path)) == path then Decode(files[Join(path)]) else None
  }

  ghost predicate DirOf(names: set<string>, path: seq<string>) {
    path == [] || exists name :: name in names && ProperPrefix(path, Parts(name))
  }

  /** What the files `names` of a payload put at a path: their contents, and directories
      exactly where one of them needs a parent. */
  ghost function Expected(files: map<string, string>, names: set<string>, path: seq<string>): Kind
    requires names <= files.Keys
  {
    if FileOf(files, names, path).Some? then AFile(FileOf(files, names, path).value)
    else if DirOf(names, path) then ADir
    else Absent
  }

  ghost predicate Holds(entries: map<string, Node>, files: map<string, string>, names: set<string>)
    requires names <= files.Keys
  {
    forall path :: KindAt(entries, path) == Expected(files, names, path)
  }

  // The file of a valid name is found at its parts, and nowhere below or above it is a file.
  lemma {:induction false} FileOfName(files: map<string, string>, names: set<string>, name: string)
    requires ValidPayload(files) && names <= files.Keys && name in files
    ensures FileOf(files, names, Parts(name)) == if name in names then Decode(files[name]) else None
    ensures !DirOf(names, Parts(name))
    ensures forall k :: 0 <= k < |Parts(name)| ==> FileOf(files, names, Parts(name)[..k]).None?
  {
    ValidIsClean(name);
    forall other | other in names
      ensures !ProperPrefix(Parts(name), Parts(other))
    {
      PayloadIsPrefixFree(files, name, other);
    }
    forall k | 0 <= k < |Parts(name)|
      ensures FileOf(files, names, Parts(name)[..k]).None?
    {
      var q := Parts(name)[..k];
      if Join(q) in names && Parts(Join(q)) == q {
        PayloadIsPrefixFree(files, Join(q), name);
      }
    }
  }

  // ----- capture

  // Whether a directory name is left out of snapshots.
  predicate Hidden(name: string) {
    ".mix-rollback-" <= name || ".mix-restore-" <= name
  }

  /** These are the two prefixes, each also by itself. */
  lemma {:induction false} HiddenIff(name: string)
    ensures Hidden(name) <==>
      exists rest :: name == ".mix-rollback-" + rest || name == ".mix-restore-" + rest
  {
    if ".mix-rollback-" <= name {
      assert name == ".mix-rollback-" + name[|".mix-rollback-"|..];
    }
    if ".mix-restore-" <= name {
      assert name == ".mix-restore-" + name[|".mix-restore-"|..];
    }
  }

  // A file a snapshot sees: no directory on the way is left out.
  function Seen(entries: map<string, Node>, path: seq<string>): Option<seq<byte>>
    decreases |path|
  {
    if path == [] || path[0] !in entries then None
    else
      match entries[path[0]]
      case File(data) => if |path| == 1 then Some(data) else None
      case Dir(inner) => if |path| > 1 && !Hidden(path[0]) then Seen(inner, path[1..]) else None
      case Special => None
  }

  // No link or special file, here or in any directory that is walked.
  predicate Regular(node: Node) {
    match node
    case File(_) => true
    case Special => false
    case Dir(inner) => forall name :: name in inner ==> (inner[name].Dir? && Hidden(name)) || Regular(inner[name])
  }

  // A link or special file, with no directory on the way to it left out.
  predicate InTheWay(entries: map<string, Node>, path: seq<string>) {
    path != [] && KindAt(entries, path) == ASpecial && forall k :: 0 <= k < |path| - 1 ==> !Hidden(path[k])
  }

  lemma {:induction false} IrregularIfInTheWay(entries: map<string, Node>, path: seq<string>)
    requires InTheWay(entries, path)
    ensures !Regular(Dir(entries))
    decreases |path|
  {
    if |path| > 1 {
      IrregularIfInTheWay(entries[path[0]].entries, path[1..]);
    }
  }

  lemma {:induction false} InTheWayIfIrregular(node: Node) returns (path: seq<string>)
    requires node.Dir? && !Regular(node)
    ensures InTheWay(node.entries, path)
    decreases node
  {
    var entries := node.entries;
    var name :| name in entries && !((entries[name].Dir? && Hidden(name)) || Regular(entries[name]));
    path := [name];
    if entries[name].Dir? {
      var rest := InTheWayIfIrregular(entries[name]);
      path := [name] + rest;
      assert path[1..] == rest;
    }
  }

  /** A tree is regular if and only if a walk of it meets no link or special file. */
  lemma {:induction false} RegularIff(entries: map<string, Node>)
    ensures Regular(Dir(entries)) <==> !exists path :: InTheWay(entries, path)
  {
    if !Regular(Dir(entries)) {
      var path := InTheWayIfIrregular(Dir(entries));
    }
    forall path | InTheWay(entries, path)
      ensures !Regular(Dir(entries))
    {
      IrregularIfInTheWay(entries, path);
    }
  }

  // A name a directory can hold.
  predicate EntryName(name: string) {
    name != "" && name != "." && name != ".." && '/' !in name
  }

  predicate WellNamed(node: Node) {
    node.Dir? ==> forall name :: name in node.entries ==> EntryName(name) && WellNamed(node.entries[name])
  }

  predicate EntryPath(path: seq<string>) {
    path != [] && forall k :: 0 <= k < |path| ==> EntryName(path[k])
  }

  lemma {:induction false} SeenIsNamed(entries: map<string, Node>, path: seq<string>)
    requires WellNamed(Dir(entries)) && Seen(entries, path).Some?
    ensures EntryPath(path)
    decreases |path|
  {
    if entries[path[0]].Dir? {
      SeenIsNamed(entries[path[0]].entries, path[1..]);
      assert forall k :: 0 < k < |path| ==> path[k] == path[1..][k - 1];
    }
  }

  // The text of a path of directory entries determines the path.
  lemma {:induction false} JoinIsInjective(a: seq<string>, b: seq<string>)
    requires EntryPath(a) && EntryPath(b) && Join(a) == Join(b)
    ensures a == b
  {
    ComponentsOfJoin(a);
    ComponentsOfJoin(b);
  }

  /** `files` holds exactly the seen files at the paths `done`, encoded, by their text. */
  ghost predicate Captured(root: map<string, Node>, files: map<string, string>, done: set<seq<string>>) {
    && (forall path :: path in done ==>
          && EntryPath(path) && Seen(root, path).Some?
          && Join(path) in files && files[Join(path)] == Encode(Seen(root, path).value))
    && (forall name :: name in files ==> exists path :: path in done && Join(path) == name)
  }

  lemma {:induction false} TotalSizeSame(files: map<string, string>, other: map<string, string>, names: set<string>)
    requires names <= files.Keys && names <= other.Keys
    requires forall name :: name in names ==> files[name] == other[name]
    ensures TotalSize(files, names) == TotalSize(other, names)
    decreases names
  {
    if names != {} {
      var name :| name in names && TotalSize(files, names) == Size(files[name]) + TotalSize(files, names - {name});
      TotalSizeWithout(other, names, name);
      TotalSizeSame(files, other, names - {name});
    }
  }

  lemma {:induction false} NotYetNamed(root: map<string, Node>, files: map<string, string>, done: set<seq<string>>,
                                       path: seq<string>)
    requires Captured(root, files, done) && path !in done && EntryPath(path)
    ensures Join(path) !in files
    ensures forall p :: p in done ==> Join(p) != Join(path)
  {
    forall p | p in done
      ensures Join(p) != Join(path)
    {
      if Join(p) == Join(path) { JoinIsInjective(p, path); }
    }
  }

  lemma {:induction false} SizeOfOneMore(files: map<string, string>, name: string, data: seq<byte>)
    requires name !in files
    ensures var more := files[name := Encode(data)];
            TotalSize(more, more.Keys) == TotalSize(files, files.Keys) + |data|
  {
    var more := files[name := Encode(data)];
    TotalSizeWithout(more, more.Keys, name);
    assert more.Keys - {name} == files.Keys;
    TotalSizeSame(more, files, files.Keys);
    DecodeEncode(data);
  }

  // Adding one more seen file to what was captured.
  lemma {:induction false} CaptureOne(root: map<string, Node>, files: map<string, string>, done: set<seq<string>>,
                   path: seq<string>, data: seq<byte>)
    requires Captured(root, files, done) && path !in done
    requires EntryPath(path) && Seen(root, path) == Some(data)
    ensures Captured(root, files[Join(path) := Encode(data)], done + {path})
    ensures var more := files[Join(path) := Encode(data)];
            TotalSize(more, more.Keys) == TotalSize(files, files.Keys) + |data|
  {
    var name := Join(path);
    NotYetNamed(root, files, done, path);
    var more := files[name := Encode(data)];
    forall n | n in more
      ensures exists p :: p in done + {path} && Join(p) == n
    {
      var p :| (n == name && p == path) || (n != name && p in done && Join(p) == n);
      assert p in done + {path};
    }
    SizeOfOneMore(files, name, data);
  }

  datatype CaptureError = LinkOrSpecial | Oversized

  // What a walk of the directory at `prefix` has captured while `remaining` are to come.
  ghost predicate WalkedTo(root: map<string, Node>, prefix: seq<string>, done0: set<seq<string>>,
                           done: set<seq<string>>, remaining: set<string>)
  {
    forall path :: path in done <==>
      path in done0 || (prefix < path && Seen(root, path).Some? && path[|prefix|] !in remaining)
  }

  lemma {:induction false} BelowEntry(prefix: seq<string>, name: string, path: seq<string>)
    ensures prefix + [name] <= path <==> prefix < path && path[|prefix|] == name
  {
  }

  lemma {:induction false} NotYetWalked(root: map<string, Node>, prefix: seq<string>, done0: set<seq<string>>,
                     done: set<seq<string>>, remaining: set<string>, name: string)
    requires WalkedTo(root, prefix, done0, done, remaining) && name in remaining
    requires forall path :: path in done0 ==> !(prefix < path)
    ensures forall path :: path in done ==> !(prefix + [name] <= path)
  {
    forall path | path in done
      ensures !(prefix + [name] <= path)
    {
      BelowEntry(prefix, name, path);
    }
  }

  lemma {:induction false} WalkedOneMore(root: map<string, Node>, prefix: seq<string>, done0: set<seq<string>>,
                      before: set<seq<string>>, done: set<seq<string>>, remaining: set<string>, name: string)
    requires WalkedTo(root, prefix, done0, before, remaining) && name in remaining
    requires forall path :: path in done <==> path in before || (prefix + [name] <= path && Seen(root, path).Some?)
    ensures WalkedTo(root, prefix, done0, done, remaining - {name})
  {
    forall path
      ensures path in done <==>
        path in done0 || (prefix < path && Seen(root, path).Some? && path[|prefix|] !in remaining - {name})
    {
      BelowEntry(prefix, name, path);
    }
  }

  // What is seen through one entry of a directory at `prefix`.
  lemma {:induction false} SeenBelow(root: map<string, Node>, entries: map<string, Node>, prefix: seq<string>,
                                     name: string)
    requires forall q :: q != [] ==> Seen(root, prefix + q) == Seen(entries, q)
    requires name in entries
    ensures var path := prefix + [name];
            && (entries[name].File? ==>
                 && Seen(root, path) == Some(entries[name].data)
                 && forall p :: path < p ==> Seen(root, p).None?)
            && (entries[name].Dir? ==> Seen(root, path).None?)
            && (entries[name].Dir? && !Hidden(name) ==>
                 forall q :: q != [] ==> Seen(root, path + q) == Seen(entries[name].entries, q))
            && (entries[name].Dir? && Hidden(name) ==> forall p :: path < p ==> Seen(root, p).None?)
  {
    var path := prefix + [name];
    assert Seen(root, path) == Seen(entries, [name]);
    forall q: seq<string> | q != []
      ensures Seen(root, path + q) == Seen(entries, [name] + q) && ([name] + q)[1..] == q
    {
      assert path + q == prefix + ([name] + q);
    }
    forall p | path < p
      ensures Seen(root, p) == Seen(entries, [name] + p[|path|..]) && ([name] + p[|path|..])[1..] == p[|path|..]
    {
      assert p == path + p[|path|..];
    }
  }

  // A file seen below a directory is seen through one of its entries.
  lemma {:induction false} SeenEnters(root: map<string, Node>, entries: map<string, Node>, prefix: seq<string>,
                                      done0: set<seq<string>>)
    requires forall q :: q != [] ==> Seen(root, prefix + q) == Seen(entries, q)
    ensures WalkedTo(root, prefix, done0, done0, entries.Keys)
  {
    forall path | prefix < path && Seen(root, path).Some?
      ensures path[|prefix|] in entries
    {
      assert path == prefix + path[|prefix|..];
    }
  }

  /** Walk one directory, at `prefix` below the root, adding the files seen in it. */
  method Walk(ghost root: map<string, Node>, node: Node, prefix: seq<string>,
              files0: map<string, string>, total0: nat, ghost done0: set<seq<string>>)
    returns (error: Option<CaptureError>, files: map<string, string>, total: nat, ghost done: set<seq<string>>)
    requires node.Dir? && WellNamed(node) && forall k :: 0 <= k < |prefix| ==> EntryName(prefix[k])
    requires forall q :: q != [] ==> Seen(root, prefix + q) == Seen(node.entries, q)
    requires Captured(root, files0, done0) && total0 == TotalSize(files0, files0.Keys) <= LIMIT
    requires forall path :: path in done0 ==> !(prefix < path)
    ensures Captured(root, files, done) && total == TotalSize(files, files.Keys)
    ensures error.None? ==>
      && total <= LIMIT && Regular(node)
      && forall path :: path in done <==> path in done0 || (prefix < path && Seen(root, path).Some?)
    ensures error == Some(LinkOrSpecial) ==> !Regular(node)
    ensures error == Some(Oversized) ==> total > LIMIT
    decreases node, 1
  {
    error, files, total, done := None, files0, total0, done0;
    var entries := node.entries;
    var remaining := entries.Keys;
    SeenEnters(root, entries, prefix, done0);
    while remaining != {}
      invariant remaining <= entries.Keys && error.None?
      invariant Captured(root, files, done) && total == TotalSize(files, files.Keys) <= LIMIT
      invariant forall name :: name in entries.Keys - remaining ==>
        (entries[name].Dir? && Hidden(name)) || Regular(entries[name])
      invariant WalkedTo(root, prefix, done0, done, remaining)
      decreases remaining
    {
      var name :| name in remaining;
      ghost var before := done;
      NotYetWalked(root, prefix, done0, done, remaining, name);
      error, files, total, done := WalkEntry(root, node, name, prefix, files, total, done);
      if error.Some? {
        return;
      }
      WalkedOneMore(root, prefix, done0, before, done, remaining, name);
      remaining := remaining - {name};
    }
  }

  method WalkEntry(ghost root: map<string, Node>, node: Node, name: string, prefix: seq<string>,
                   files0: map<string, string>, total0: nat, ghost done0: set<seq<string>>)
    returns (error: Option<CaptureError>, files: map<string, string>, total: nat, ghost done: set<seq<string>>)
    requires node.Dir? && name in node.entries
    requires WellNamed(node) && forall k :: 0 <= k < |prefix| ==> EntryName(prefix[k])
    requires forall q :: q != [] ==> Seen(root, prefix + q) == Seen(node.entries, q)
    requires Captured(root, files0, done0) && total0 == TotalSize(files0, files0.Keys) <= LIMIT
    requires forall path :: path in done0 ==> !(prefix + [name] <= path)
    ensures Captured(root, files, done) && total == TotalSize(files, files.Keys)
    ensures error.None? ==>
      && total <= LIMIT && ((node.entries[name].Dir? && Hidden(name)) || Regular(node.entries[name]))
      && forall path :: path in done <==> path in done0 || (prefix + [name] <= path && Seen(root, path).Some?)
    ensures error == Some(LinkOrSpecial) ==> !Regular(node)
    ensures error == Some(Oversized) ==> total > LIMIT
    decreases node, 0
  {
    error, files, total, done := None, files0, total0, done0;
    var path := prefix + [name];
    SeenBelow(root, node.entries, prefix, name);
    assert forall p :: path <= p && Seen(root, p).Some? ==> p == path || path < p;
    match node.entries[name] {
      case Special =>
        error := Some(LinkOrSpecial);
      case File(data) =>
        CaptureOne(root, files, done, path, data);
        files := files[Join(path) := Encode(data)];
        total := total + |data|;
        done := done + {path};
        if total > LIMIT {
          error := Some(Oversized);
        }
      case Dir(inner) =>
        if !Hidden(name) {
          error, files, total, done := Walk(root, node.entries[name], path, files, total, done);
        }
    }
  }

  /** `files` is the snapshot of the tree. */
  ghost predicate IsCapture(root: map<string, Node>, files: map<string, string>) {
    && TotalSize(files, files.Keys) <= LIMIT
    && (forall path :: Seen(root, path).Some? ==>
          Join(path) in files && files[Join(path)] == Encode(Seen(root, path).value))
    && (forall name :: name in files ==> exists path :: EntryPath(path) && Seen(root, path).Some? && Join(path) == name)
  }

  /** The snapshot of a tree: every seen file under its path text, or a refusal. */
  method Capture(root: map<string, Node>) returns (error: Option<CaptureError>, files: map<string, string>)
    requires WellNamed(Dir(root))
    ensures error.None? ==> IsCapture(root, files) && Regular(Dir(root))
    ensures error == Some(LinkOrSpecial) ==> !Regular(Dir(root))
    ensures error == Some(Oversized) ==>
      TotalSize(files, files.Keys) > LIMIT && exists done :: Captured(root, files, done)
  {
    forall q: seq<string>
      ensures [] + q == q
    {
    }
    var total;
    ghost var done;
    error, files, total, done := Walk(root, Dir(root), [], map[], 0, {});
    if error.None? {
      forall path | Seen(root, path).Some?
        ensures path in done
      {
        SeenIsNamed(root, path);
        assert [] < path;
      }
    }
  }

  predicate BackupPart(part: string) {
    '\\' !in part && !(".mix-" <= part)
  }

  predicate BackupPath(path: seq<string>) {
    forall k :: 0 <= k < |path| ==> BackupPart(path[k])
  }

  lemma {:induction false} CapturedName(root: map<string, Node>, files: map<string, string>, path: seq<string>)
    requires IsCapture(root, files) && WellNamed(Dir(root)) && Seen(root, path).Some?
    requires BackupPath(path)
    ensures ValidName(Join(path)) && Parts(Join(path)) == path
  {
    SeenIsNamed(root, path);
    CleanIsValid(path);
  }

  // No file is seen below a file.
  lemma {:induction false} SeenIsLeaf(entries: map<string, Node>, path: seq<string>, k: nat)
    requires Seen(entries, path).Some? && 0 < k < |path|
    ensures Seen(entries, path[..k]).None?
    decreases |path|
  {
    if k > 1 {
      SeenIsLeaf(entries[path[0]].entries, path[1..], k - 1);
      assert path[..k][1..] == path[1..][..k - 1];
    }
  }

  lemma {:induction false} ValidNameIsBackup(path: seq<string>)
    requires EntryPath(path) && ValidName(Join(path))
    ensures BackupPath(path)
  {
    ValidIsClean(Join(path));
    ComponentsOfJoin(path);
    DropEmptyOfClean(path);
    assert forall k :: 0 <= k < |path| ==> CleanPart(path[k]);
  }

  lemma {:induction false} CapturedDoesNotCollide(root: map<string, Node>, files: map<string, string>,
                                                  path: seq<string>)
    requires IsCapture(root, files) && EntryPath(path) && Seen(root, path).Some?
    ensures !Collides(files.Keys, path)
  {
    if Collides(files.Keys, path) {
      var k :| 0 < k < |path| && Join(path[..k]) in files.Keys;
      var other :| EntryPath(other) && Seen(root, other).Some? && Join(other) == Join(path[..k]);
      JoinIsInjective(other, path[..k]);
      SeenIsLeaf(root, path, k);
    }
  }

  lemma {:induction false} CapturedEntry(root: map<string, Node>, files: map<string, string>, name: string)
    requires IsCapture(root, files) && WellNamed(Dir(root)) && name in files
    requires forall path :: Seen(root, path).Some? ==> BackupPath(path)
    ensures ValidName(name) && !Collides(files.Keys, Parts(name)) && Decode(files[name]).Some?
  {
    var path :| EntryPath(path) && Seen(root, path).Some? && Join(path) == name;
    CapturedName(root, files, path);
    DecodeEncode(Seen(root, path).value);
    CapturedDoesNotCollide(root, files, path);
  }

  /** A snapshot is accepted back exactly when it has at most 10000 files and no path of
      it has a backslash or a component with the reserved prefix. */
  lemma {:induction false} CaptureValidates(root: map<string, Node>, files: map<string, string>)
    requires IsCapture(root, files) && WellNamed(Dir(root))
    ensures ValidPayload(files) <==>
      |files| <= MAX_FILES && forall path :: Seen(root, path).Some? ==> BackupPath(path)
  {
    if ValidPayload(files) {
      forall path | Seen(root, path).Some?
        ensures BackupPath(path)
      {
        SeenIsNamed(root, path);
        ValidNameIsBackup(path);
      }
    } else if forall path :: Seen(root, path).Some? ==> BackupPath(path) {
      forall name | name in files
        ensures ValidName(name) && !Collides(files.Keys, Parts(name)) && Decode(files[name]).Some?
      {
        CapturedEntry(root, files, name);
      }
    }
  }

  // Below a directory without reserved names, seeing a file is finding it.
  lemma {:induction false} SeenIsFound(entries: map<string, Node>, path: seq<string>)
    requires forall k :: 0 <= k < |path| ==> !Hidden(path[k])
    ensures Seen(entries, path) == match KindAt(entries, path) case AFile(data) => Some(data) case _ => None
    decreases |path|
  {
    if |path| > 1 && path[0] in entries && entries[path[0]].Dir? {
      SeenIsFound(entries[path[0]].entries, path[1..]);
    }
  }

  lemma {:induction false} SeenIsAFile(entries: map<string, Node>, path: seq<string>)
    requires Seen(entries, path).Some?
    ensures KindAt(entries, path) == AFile(Seen(entries, path).value)
    decreases |path|
  {
    if |path| > 1 {
      SeenIsAFile(entries[path[0]].entries, path[1..]);
    }
  }

  lemma {:induction false} HiddenStart(name: string)
    requires Hidden(name)
    ensures ".mix-" <= name
  {
    var start := if ".mix-rollback-" <= name then ".mix-rollback-" else ".mix-restore-";
    assert name[..5] == start[..5] == ".mix-";
  }

  lemma {:induction false} CleanIsNotHidden(path: seq<string>)
    requires CleanPath(path)
    ensures forall k :: 0 <= k < |path| ==> !Hidden(path[k])
  {
    forall k | 0 <= k < |path|
      ensures !Hidden(path[k])
    {
      assert CleanPart(path[k]);
      if Hidden(path[k]) { HiddenStart(path[k]); }
    }
  }

  lemma {:induction false} RestoredIsSeen(entries: map<string, Node>, files: map<string, string>, name: string)
    requires ValidPayload(files) && Holds(entries, files, files.Keys) && name in files
    ensures Seen(entries, Parts(name)) == Decode(files[name]) && Join(Parts(name)) == name
  {
    var path := Parts(name);
    ValidIsClean(name);
    FileOfName(files, files.Keys, name);
    assert KindAt(entries, path) == Expected(files, files.Keys, path);
    CleanIsNotHidden(path);
    SeenIsFound(entries, path);
  }

  lemma {:induction false} RestoredSeesNoOther(entries: map<string, Node>, files: map<string, string>,
                                               path: seq<string>)
    requires Holds(entries, files, files.Keys) && Seen(entries, path).Some?
    ensures Join(path) in files
  {
    SeenIsAFile(entries, path);
    assert KindAt(entries, path) == Expected(files, files.Keys, path);
  }

  /** Snapshot, restore, snapshot: a tree built from a payload is captured as the same
      names with the same contents. */
  lemma {:induction false} CaptureOfRestored(entries: map<string, Node>, files: map<string, string>,
                                             again: map<string, string>)
    requires ValidPayload(files) && Holds(entries, files, files.Keys) && IsCapture(entries, again)
    ensures again.Keys == files.Keys
    ensures forall name :: name in files ==> Decode(again[name]) == Decode(files[name])
  {
    forall name | name in files
      ensures name in again && Decode(again[name]) == Decode(files[name])
    {
      RestoredIsSeen(entries, files, name);
      DecodeEncode(Seen(entries, Parts(name)).value);
    }
    forall name | name in again
      ensures name in files
    {
      var path :| EntryPath(path) && Seen(entries, path).Some? && Join(path) == name;
      RestoredSeesNoOther(entries, files, path);
    }
  }

  /** Restore of a snapshot reproduces every seen file, at its path, and no other. */
  lemma {:induction false} RestoreOfCaptured(root: map<string, Node>, files: map<string, string>,
                                             entries: map<string, Node>, path: seq<string>)
    requires WellNamed(Dir(root)) && IsCapture(root, files)
    requires ValidPayload(files) && Holds(entries, files, files.Keys)
    ensures Seen(root, path).Some? ==> KindAt(entries, path) == AFile(Seen(root, path).value)
    ensures KindAt(entries, path).AFile? ==> Seen(root, path) == Some(KindAt(entries, path).data)
  {
    assert KindAt(entries, path) == Expected(files, files.Keys, path);
    if Seen(root, path).Some? {
      CaptureValidates(root, files);
      CapturedName(root, files, path);
      DecodeEncode(Seen(root, path).value);
      FileOfName(files, files.Keys, Join(path));
    }
    if KindAt(entries, path).AFile? {
      var name := Join(path);
      var source :| EntryPath(source) && Seen(root, source).Some? && Join(source) == name;
      CaptureValidates(root, files);
      CapturedName(root, files, source);
      DecodeEncode(Seen(root, source).value);
    }
  }
}
