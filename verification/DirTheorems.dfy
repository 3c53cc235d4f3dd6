// Whole runs of link(), unlink() and create() from a new file system.

module DirTheorems {
  import opened Wrappers
  import opened DirTree
  import opened DirLinks
  import opened DirPaths
  import opened DirNames
  import opened DirSyscalls

  // ---------------------------------------------------------------- a new file system

  function FileEntry(names: seq<string>, k: nat): Dirent
    requires k < |names|
  {
    Dirent(k + 2, names[k])
  }

  // The root as mkfs leaves it: rounding its size up adds empty entries.
  function RootEntries(names: seq<string>, spare: nat): (e: seq<Dirent>)
    ensures |e| == |names| + 2 + spare
  {
    [Dirent(ROOT, "."), Dirent(ROOT, "..")]
    + seq(|names|, k requires 0 <= k < |names| => FileEntry(names, k)) + seq(spare, _ => EMPTY)
  }

  // What mkfs writes: the root, one inode for each file, and free inodes.
  function Formatted(names: seq<string>, spare: nat, free: nat): seq<Inode> {
    [Inode(Free, 0, []), Inode(Dir, 1, RootEntries(names, spare))]
    + seq(|names|, _ => Inode(File, 1, [])) + seq(free, _ => Inode(Free, 0, []))
  }

  predicate GoodNames(names: seq<string>) {
    && (forall k | 0 <= k < |names| :: EntryName(names[k]))
    && (forall k | 0 <= k < |names| :: names[k] != "." && names[k] != "..")
    && (forall j, k | 0 <= j < k < |names| :: names[j] != names[k])
  }

  lemma RootEntry(names: seq<string>, spare: nat, k: nat)
    requires k < |RootEntries(names, spare)|
    ensures RootEntries(names, spare)[k] ==
      if k == 0 then Dirent(ROOT, ".") else if k == 1 then Dirent(ROOT, "..")
      else if k < |names| + 2 then FileEntry(names, k - 2) else EMPTY
  {
  }

  lemma FormattedInode(names: seq<string>, spare: nat, free: nat, i: nat)
    requires i < |Formatted(names, spare, free)|
    ensures Formatted(names, spare, free)[i] ==
      if i == ROOT then Inode(Dir, 1, RootEntries(names, spare))
      else if 2 <= i < |names| + 2 then Inode(File, 1, []) else Inode(Free, 0, [])
  {
  }

  lemma FormattedLinks(names: seq<string>, spare: nat, free: nat, i: nat)
    requires GoodNames(names) && i > 0
    ensures Links(Formatted(names, spare, free), i) == if i < |names| + 2 then {(ROOT, i)} else {}
  {
    var t := Formatted(names, spare, free);
    forall d: nat, k: nat | d < |t| && k < |t[d].entries|
      ensures IsLink(t, i, d, k) <==> d == ROOT && k == i && i < |names| + 2
    {
      FormattedInode(names, spare, free, d);
      if d == ROOT { RootEntry(names, spare, k); }
    }
    FormattedInode(names, spare, free, ROOT);
  }

  lemma RootIsGood(names: seq<string>, spare: nat, free: nat)
    requires GoodNames(names)
    ensures DirOk(Formatted(names, spare, free), ROOT)
  {
    var t := Formatted(names, spare, free);
    FormattedInode(names, spare, free, ROOT);
    forall k | 0 <= k < |t[ROOT].entries|
      ensures t[ROOT].entries[k] ==
        if k == 0 then Dirent(ROOT, ".") else if k == 1 then Dirent(ROOT, "..")
        else if k < |names| + 2 then FileEntry(names, k - 2) else EMPTY
    {
      RootEntry(names, spare, k);
    }
  }

  // A new file system is in order.
  lemma FormattedIsGood(names: seq<string>, spare: nat, free: nat, depth: seq<nat>)
    requires GoodNames(names) && |depth| == |Formatted(names, spare, free)|
    ensures Inv(Formatted(names, spare, free), depth)
  {
    var t := Formatted(names, spare, free);
    forall i: nat | i < |t|
      ensures t[i].nlink == (if 0 < i < |names| + 2 then 1 else 0) && (LinkedDir(t[i]) <==> i == ROOT)
      ensures t[i].kind.Free? ==> t[i].nlink == 0
    {
      FormattedInode(names, spare, free, i);
    }
    forall i: nat | 0 < i < |t| ensures t[i].nlink == |Links(t, i)| { FormattedLinks(names, spare, free, i); }
    RootIsGood(names, spare, free);
    FormattedInode(names, spare, free, ROOT);
    forall k: nat | 2 <= k < |t[ROOT].entries| ensures OnlyPlace(t, ROOT, k) {
      RootEntry(names, spare, k);
      if k < |names| + 2 { FormattedInode(names, spare, free, k); }
    }
  }

  // ---------------------------------------------------------------- runs

  // One system call that succeeded, or the last close of an inode without links.
  datatype Op =
    | Link(cwd: nat, oldPath: string, newPath: string)
    | Unlink(cwd: nat, path: string, last: bool)
    | Create(cwd: nat, path: string, kind: Kind, i: nat)
    | Close(i: nat)

  ghost predicate Did(t: seq<Inode>, op: Op, t': seq<Inode>) {
    match op
    case Link(cwd, oldPath, newPath) => InTree(t, cwd) && DidLink(t, t', cwd, oldPath, newPath)
    case Unlink(cwd, path, last) =>
      InTree(t, cwd) && MayUnlink(t, cwd, path) && DidUnlink(t, t', cwd, path, last)
    case Create(cwd, path, kind, i) => InTree(t, cwd) && DidCreate(t, t', cwd, path, kind, i)
    case Close(i) => 0 < i < |t| && t' == Dropped(t, i)
  }

  ghost predicate Good(t: seq<Inode>) {
    exists depth :: Inv(t, depth)
  }

  ghost predicate Run(states: seq<seq<Inode>>, ops: seq<Op>) {
    |states| == |ops| + 1 && forall k | 0 <= k < |ops| :: Did(states[k], ops[k], states[k + 1])
  }

  lemma UnlinkStep(t: seq<Inode>, depth: seq<nat>, d: nat, name: string, last: bool, t': seq<Inode>)
    requires Inv(t, depth) && InTree(t, d) && name != "." && name != ".." && Removable(t, d, name)
    requires IsUnlinked(t, t', d, name, last)
    ensures Inv(t', depth)
  {
    var k := Lookup(t[d].entries, name, 0);
    var i := t[d].entries[k].inum;
    UnlinkNeverPanics(t, depth, d, name, k, i);
    UnlinkedKeeps(t, depth, d, k, i);
    if last && Unlinked(t, d, k, i)[i].nlink == 0 { TypedKeeps(Unlinked(t, d, k, i), depth, i, Inode(Free, 0, [])); }
  }

  lemma UnlinkGood(t: seq<Inode>, depth: seq<nat>, cwd: nat, path: string, last: bool, t': seq<Inode>)
    requires Inv(t, depth) && InTree(t, cwd) && MayUnlink(t, cwd, path) && DidUnlink(t, t', cwd, path, last)
    ensures Good(t')
  {
    var d: nat, name: string :| Target(t, cwd, path, d, name) && d < |t| && IsUnlinked(t, t', d, name, last);
    ParentLinked(t, depth, cwd, path);
    UnlinkStep(t, depth, d, name, last, t');
  }

  lemma LinkGood(t: seq<Inode>, depth: seq<nat>, cwd: nat, oldPath: string, newPath: string, t': seq<Inode>)
    requires Inv(t, depth) && InTree(t, cwd) && DidLink(t, t', cwd, oldPath, newPath)
    ensures Good(t')
  {
    ResolveLinked(t, depth, cwd, oldPath);
    var i := Resolve(t, cwd, oldPath).value;
    var d: nat, name: string :| Target(t, cwd, newPath, d, name) && IsLinked(t, t', d, name, i);
    LinkDone(t, t', depth, cwd, newPath, d, name, i);
  }

  lemma CreateGood(t: seq<Inode>, depth: seq<nat>, cwd: nat, path: string, kind: Kind, i: nat, t': seq<Inode>)
    requires Inv(t, depth) && InTree(t, cwd) && DidCreate(t, t', cwd, path, kind, i)
    ensures Good(t')
  {
    var d: nat, name: string :| Target(t, cwd, path, d, name) && IsCreated(t, t', d, name, i, kind);
    ParentLinked(t, depth, cwd, path);
    NotDot(t, depth, d, name);
    CreateKeeps(t, t', depth, d, name, i, kind);
  }

  lemma StepGood(t: seq<Inode>, op: Op, t': seq<Inode>)
    requires Good(t) && Did(t, op, t')
    ensures Good(t')
  {
    var depth :| Inv(t, depth);
    match op
    case Link(cwd, oldPath, newPath) => LinkGood(t, depth, cwd, oldPath, newPath, t');
    case Unlink(cwd, path, last) => UnlinkGood(t, depth, cwd, path, last, t');
    case Create(cwd, path, kind, i) => CreateGood(t, depth, cwd, path, kind, i, t');
    case Close(i) => if t[i].nlink == 0 { TypedKeeps(t, depth, i, Inode(Free, 0, [])); }
  }

  lemma {:induction false} RunGood(states: seq<seq<Inode>>, ops: seq<Op>, n: nat)
    requires Run(states, ops) && Good(states[0]) && n < |states|
    ensures Good(states[n])
  {
    if n > 0 {
      var t, op, t' := states[n - 1], ops[n - 1], states[n];
      assert Did(t, op, t') by { assert states[n - 1 + 1] == t'; }
      RunGood(states, ops, n - 1);
      StepGood(t, op, t');
    }
  }

  lemma FormattedNames(names: seq<string>, spare: nat, free: nat)
    requires GoodNames(names)
    ensures EntryNames(Formatted(names, spare, free))
  {
    var t := Formatted(names, spare, free);
    forall d: nat, name, i: nat | Names(t, d, name, i) ensures EntryName(name) {
      FormattedInode(names, spare, free, d);
      var k :| 0 <= k < |t[d].entries| && t[d].entries[k] == Dirent(i, name);
      RootEntry(names, spare, k);
    }
  }

  // Every call leaves names that paths can spell and entries can hold.
  lemma StepNames(t: seq<Inode>, op: Op, t': seq<Inode>)
    requires Good(t) && EntryNames(t) && Did(t, op, t')
    ensures EntryNames(t')
  {
    var depth :| Inv(t, depth);
    match op
    case Link(cwd, oldPath, newPath) =>
      ResolveLinked(t, depth, cwd, oldPath);
      var i := Resolve(t, cwd, oldPath).value;
      var d: nat, name: string :| Target(t, cwd, newPath, d, name) && IsLinked(t, t', d, name, i);
      ElementNames(newPath, 0);
      LinkNames(t, t', d, name, i);
    case Unlink(cwd, path, last) =>
      var d: nat, name: string :| Target(t, cwd, path, d, name) && d < |t| && IsUnlinked(t, t', d, name, last);
      ParentLinked(t, depth, cwd, path);
      UnlinkNames(t, t', depth, d, name, last);
    case Create(cwd, path, kind, i) =>
      var d: nat, name: string :| Target(t, cwd, path, d, name) && IsCreated(t, t', d, name, i, kind);
      ParentLinked(t, depth, cwd, path);
      ElementNames(path, 0);
      CreateNames(t, t', d, name, i, kind);
    case Close(i) =>
      forall d: nat, name, x: nat | Names(t', d, name, x) ensures EntryName(name) { assert Names(t, d, name, x); }
  }

  lemma {:induction false} RunNames(states: seq<seq<Inode>>, ops: seq<Op>, n: nat)
    requires Run(states, ops) && Good(states[0]) && EntryNames(states[0]) && n < |states|
    ensures EntryNames(states[n])
  {
    if n > 0 {
      assert Did(states[n - 1], ops[n - 1], states[n]) by { assert states[n - 1 + 1] == states[n]; }
      RunNames(states, ops, n - 1);
      RunGood(states, ops, n - 1);
      StepNames(states[n - 1], ops[n - 1], states[n]);
    }
  }

  // In every state of every run from a new file system, each inode's count is the
  // number of its names, names in a directory are unique, every linked directory
  // has a path that finds it from anywhere, and each but the root has exactly one name.
  lemma TreeTheorem(names: seq<string>, spare: nat, free: nat, states: seq<seq<Inode>>, ops: seq<Op>, n: nat)
    requires GoodNames(names) && Run(states, ops) && states[0] == Formatted(names, spare, free) && n < |states|
    ensures forall i | 0 < i < |states[n]| :: states[n][i].nlink == |Links(states[n], i)|
    ensures forall d | 0 <= d < |states[n]| && LinkedDir(states[n][d]) :: UniqueNames(states[n][d].entries)
    ensures forall d | 0 <= d < |states[n]| && LinkedDir(states[n][d]) :: HasPath(states[n], d)
    ensures forall d: nat | d < |states[n]| && LinkedDir(states[n][d]) && d != ROOT :: OneName(states[n], d)
    ensures forall p: nat, k: nat :: !IsName(states[n], p, k, ROOT)
  {
    FormattedIsGood(names, spare, free, seq(|Formatted(names, spare, free)|, _ => 0));
    RunGood(states, ops, n);
    FormattedNames(names, spare, free);
    RunNames(states, ops, n);
    var depth :| Inv(states[n], depth);
    forall d | 0 <= d < |states[n]| && LinkedDir(states[n][d])
      ensures UniqueNames(states[n][d].entries) && HasPath(states[n], d)
    {
      assert DirOk(states[n], d);
      PathToDir(states[n], depth, d);
      WalkIsPath(states[n], d);
    }
    forall d: nat | d < |states[n]| && LinkedDir(states[n][d]) ensures d != ROOT ==> OneName(states[n], d) {
      if d != ROOT { NamedOnce(states[n], depth, d); }
    }
    forall p: nat, k: nat ensures !IsName(states[n], p, k, ROOT) {
      assert 0 <= p < |states[n]| && LinkedDir(states[n][p]) && 2 <= k < |states[n][p].entries| ==>
          OnlyPlace(states[n], p, k);
    }
  }

  // Entry k of the linked directory p, behind "." and "..", names d.
  predicate IsName(t: seq<Inode>, p: nat, k: nat, d: nat) {
    p < |t| && LinkedDir(t[p]) && 2 <= k < |t[p].entries| && t[p].entries[k].inum == d
  }

  ghost predicate OneName(t: seq<Inode>, d: nat) {
    exists p: nat, k: nat :: IsName(t, p, k, d) && forall q: nat, j: nat | IsName(t, q, j, d) :: q == p && j == k
  }

  lemma NamedOnce(t: seq<Inode>, depth: seq<nat>, d: nat)
    requires Inv(t, depth) && d < |t| && LinkedDir(t[d]) && d != ROOT
    ensures OneName(t, d)
  {
    assert DirOk(t, d) && Hangs(t, depth, d);
    var p := Parent(t, d);
    var k: nat :| 2 <= k < |t[p].entries| && t[p].entries[k].inum == d;
    assert IsName(t, p, k, d);
    forall q: nat, j: nat | IsName(t, q, j, d) ensures q == p && j == k {
      assert OnlyPlace(t, q, j);
    }
  }

  // A walk from the root ends at d.
  ghost predicate HasWalk(t: seq<Inode>, d: nat) {
    exists names :: Walk(t, ROOT, names) == Some(d)
  }

  // A path that finds d from every directory.
  ghost predicate IsPath(t: seq<Inode>, path: string, d: nat) {
    forall cwd: nat :: Resolve(t, cwd, path) == Some(d)
  }

  ghost predicate HasPath(t: seq<Inode>, d: nat) {
    exists path :: IsPath(t, path, d)
  }

  lemma WalkIsPath(t: seq<Inode>, d: nat)
    requires EntryNames(t) && HasWalk(t, d)
    ensures HasPath(t, d)
  {
    var names :| Walk(t, ROOT, names) == Some(d);
    WalkNames(t, ROOT, names);
    forall cwd: nat ensures Resolve(t, cwd, Spelled(names)) == Some(d) { SpelledResolves(t, cwd, names); }
    assert IsPath(t, Spelled(names), d);
  }

  lemma {:induction false} PathToDir(t: seq<Inode>, depth: seq<nat>, d: nat)
    requires Inv(t, depth) && 0 <= d < |t| && LinkedDir(t[d])
    ensures HasWalk(t, d)
    decreases if d < |depth| then depth[d] else 0
  {
    if d == ROOT {
      assert Walk(t, ROOT, []) == Some(d);
    } else {
      assert DirOk(t, d) && Hangs(t, depth, d);
      var p := Parent(t, d);
      PathToDir(t, depth, p);
      assert DirOk(t, p) && d != 0;
      PathExtends(t, p, d);
    }
  }

  lemma PathExtends(t: seq<Inode>, p: nat, d: nat)
    requires HasWalk(t, p) && p < |t| && LinkedDir(t[p]) && UniqueNames(t[p].entries) && d != 0
    requires exists k :: 2 <= k < |t[p].entries| && t[p].entries[k].inum == d
    ensures HasWalk(t, d)
  {
    var names :| Walk(t, ROOT, names) == Some(p);
    var k :| 2 <= k < |t[p].entries| && t[p].entries[k].inum == d;
    var name := t[p].entries[k].name;
    LookupExact(t[p].entries, k);
    WalkMore(t, ROOT, names, name);
    assert Walk(t, d, []) == Some(d);
    assert Walk(t, ROOT, names + [name]) == Some(d);
  }
}
