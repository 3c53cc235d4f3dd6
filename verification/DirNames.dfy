// What the names of the tree mean: which paths lead where, and what each system
// call does to the names.

module DirNames {
  import opened Wrappers
  import opened DirTree
  import opened DirLinks
  import opened DirPaths
  import opened DirSyscalls

  // Directory d has an entry in use that gives inode i this name.
  predicate Names(t: seq<Inode>, d: nat, name: string, i: nat) {
    d < |t| && t[d].kind.Dir? && i != 0 && Dirent(i, name) in t[d].entries
  }

  predicate InTree(t: seq<Inode>, d: nat) {
    0 < d < |t| && LinkedDir(t[d])
  }

  predicate UniqueNames(e: seq<Dirent>) {
    forall j, k | 0 <= j < k < |e| && e[j].inum != 0 && e[k].inum != 0 :: e[j].name != e[k].name
  }

  // With unique names, a lookup finds the entry of that name.
  lemma LookupExact(e: seq<Dirent>, k: nat)
    requires UniqueNames(e) && k < |e| && e[k].inum != 0
    ensures Lookup(e, e[k].name, 0) == k
  {
    LookupFinds(e, e[k].name, 0);
  }

  // ---------------------------------------------------------------- walks are routes

  // The inodes met on the way, each named by the one before it.
  predicate Route(t: seq<Inode>, names: seq<string>, route: seq<nat>) {
    |route| == |names| + 1 && forall k | 0 <= k < |names| :: StepAt(t, names, route, k)
  }

  predicate StepAt(t: seq<Inode>, names: seq<string>, route: seq<nat>, k: nat)
    requires k < |names| && |route| == |names| + 1
  {
    Names(t, route[k], names[k], route[k + 1])
  }

  lemma {:induction false} WalkRoute(t: seq<Inode>, i: nat, names: seq<string>) returns (route: seq<nat>)
    requires Walk(t, i, names).Some?
    ensures Route(t, names, route) && route[0] == i && Some(route[|names|]) == Walk(t, i, names)
    decreases |names|
  {
    if names == [] {
      route := [i];
    } else {
      var e := t[i].entries;
      var k := Lookup(e, names[0], 0);
      assert e[k] == Dirent(e[k].inum, names[0]);
      var more := WalkRoute(t, e[k].inum, names[1..]);
      route := [i] + more;
      forall m | 0 <= m < |names| ensures StepAt(t, names, route, m) {
        if m > 0 { assert StepAt(t, names[1..], more, m - 1); }
      }
    }
  }

  lemma {:induction false} RouteWalk(t: seq<Inode>, depth: seq<nat>, names: seq<string>, route: seq<nat>)
    requires Inv(t, depth) && Route(t, names, route) && 0 < route[0] < |t| && t[route[0]].nlink > 0
    ensures Walk(t, route[0], names) == Some(route[|names|])
    decreases |names|
  {
    if names != [] {
      var i := route[0];
      var e := t[i].entries;
      assert StepAt(t, names, route, 0);
      var k :| 0 <= k < |e| && e[k] == Dirent(route[1], names[0]);
      assert DirOk(t, i);
      LookupExact(e, k);
      StepLinked(t, depth, i, names[0], k);
      forall m | 0 <= m < |names| - 1 ensures StepAt(t, names[1..], route[1..], m) {
        assert StepAt(t, names, route, m + 1);
      }
      RouteWalk(t, depth, names[1..], route[1..]);
    }
  }

  ghost predicate Leads(t: seq<Inode>, i: nat, names: seq<string>, j: nat) {
    exists route :: Route(t, names, route) && route[0] == i && route[|names|] == j
  }

  // From a linked inode, a walk ends at j if and only if the names lead there.
  lemma WalkIff(t: seq<Inode>, depth: seq<nat>, i: nat, names: seq<string>, j: nat)
    requires Inv(t, depth) && 0 < i < |t| && t[i].nlink > 0
    ensures Walk(t, i, names) == Some(j) <==> Leads(t, i, names, j)
  {
    if Walk(t, i, names) == Some(j) { var _ := WalkRoute(t, i, names); }
    if Leads(t, i, names, j) {
      var route :| Route(t, names, route) && route[0] == i && route[|names|] == j;
      RouteWalk(t, depth, names, route);
    }
  }

  // A tree with more names, t', and one with fewer, t.
  ghost predicate MoreNames(t: seq<Inode>, t': seq<Inode>) {
    |t'| == |t| && forall d: nat, name, i: nat | Names(t, d, name, i) :: Names(t', d, name, i)
  }

  lemma WalkGrows(t: seq<Inode>, t': seq<Inode>, depth: seq<nat>, i: nat, names: seq<string>)
    requires MoreNames(t, t') && Inv(t', depth) && 0 < i < |t| && t'[i].nlink > 0 && Walk(t, i, names).Some?
    ensures Walk(t', i, names) == Walk(t, i, names)
  {
    var route := WalkRoute(t, i, names);
    forall k | 0 <= k < |names| ensures StepAt(t', names, route, k) { assert StepAt(t, names, route, k); }
    RouteWalk(t', depth, names, route);
  }

  // ---------------------------------------------------------------- one call, one name

  // t' has the names of t and this one.
  ghost predicate AddsName(t: seq<Inode>, t': seq<Inode>, d: nat, name: string, i: nat) {
    forall x: nat, n, y: nat :: Names(t', x, n, y) <==> Names(t, x, n, y) || (x == d && n == name && y == i)
  }

  lemma LinkNames(t: seq<Inode>, t': seq<Inode>, d: nat, name: string, i: nat)
    requires d < |t| && t[d].kind.Dir? && i != 0 && IsLinked(t, t', d, name, i)
    ensures AddsName(t, t', d, name, i)
  {
    var e, k := t[d].entries, FreeSlot(t[d].entries, 0);
    var e' := PutAt(e, k, Dirent(i, name));
    forall x: nat, n, y: nat
      ensures Names(t', x, n, y) <==> Names(t, x, n, y) || (x == d && n == name && y == i)
    {
      if x == d && y != 0 { PutNames(e, k, Dirent(i, name), Dirent(y, n)); }
    }
  }

  lemma PutNames(e: seq<Dirent>, k: nat, x: Dirent, z: Dirent)
    requires k <= |e| && (k < |e| ==> e[k].inum == 0) && z.inum != 0
    ensures z in PutAt(e, k, x) <==> z in e || z == x
  {
    var e' := PutAt(e, k, x);
    assert e'[k] == x;
    if z in e {
      var j :| 0 <= j < |e| && e[j] == z;
      assert e'[j] == z;
    }
  }

  // The names after a new inode: its own, and those of a new directory.
  lemma CreateNames(t: seq<Inode>, t': seq<Inode>, d: nat, name: string, i: nat, kind: Kind)
    requires d < |t| && t[d].kind.Dir? && d != 0 && IsCreated(t, t', d, name, i, kind)
    ensures forall x: nat, n, y: nat :: Names(t', x, n, y) <==>
      || Names(t, x, n, y) || (x == d && n == name && y == i)
      || (kind.Dir? && x == i && ((n == "." && y == i) || (n == ".." && y == d)))
  {
    var e, k := t[d].entries, FreeSlot(t[d].entries, 0);
    forall x: nat, n, y: nat ensures Names(t', x, n, y) <==>
      || Names(t, x, n, y) || (x == d && n == name && y == i)
      || (kind.Dir? && x == i && ((n == "." && y == i) || (n == ".." && y == d)))
    {
      if x == d && y != 0 { PutNames(e, k, Dirent(i, name), Dirent(y, n)); }
    }
  }

  // t' has the names of t without this one; a directory that is freed has none.
  ghost predicate LosesName(t: seq<Inode>, t': seq<Inode>, d: nat, name: string) {
    |t'| == |t| && forall x: nat, n, y: nat ::
      Names(t', x, n, y) <==> Names(t, x, n, y) && !(x == d && n == name) && t'[x].kind.Dir?
  }

  lemma UnlinkNames(t: seq<Inode>, t': seq<Inode>, depth: seq<nat>, d: nat, name: string, last: bool)
    requires Inv(t, depth) && InTree(t, d) && IsUnlinked(t, t', d, name, last)
    ensures LosesName(t, t', d, name)
  {
    var e, k := t[d].entries, Lookup(t[d].entries, name, 0);
    assert DirOk(t, d);
    forall x: nat, n, y: nat
      ensures Names(t', x, n, y) <==> Names(t, x, n, y) && !(x == d && n == name) && x < |t'| && t'[x].kind.Dir?
    {
      if x == d && y != 0 { ClearNames(e, k, name, Dirent(y, n)); }
    }
  }

  // The inode of the name has a link less, and is free if that was the last link and
  // the last reference.
  lemma UnlinkInode(t: seq<Inode>, t': seq<Inode>, depth: seq<nat>, d: nat, name: string, last: bool, i: nat)
    requires Inv(t, depth) && InTree(t, d) && Names(t, d, name, i) && name != "." && IsUnlinked(t, t', d, name, last)
    ensures i < |t| == |t'| && t'[i].nlink == t[i].nlink - 1
    ensures t'[i].kind == if last && t[i].nlink == 1 then Free else t[i].kind
  {
    var e := t[d].entries;
    var k :| 0 <= k < |e| && e[k] == Dirent(i, name);
    assert DirOk(t, d);
    LookupExact(e, k);
  }

  lemma ClearNames(e: seq<Dirent>, k: nat, name: string, z: Dirent)
    requires UniqueNames(e) && k < |e| && e[k].inum != 0 && e[k].name == name && z.inum != 0
    ensures z in e[k := EMPTY] <==> z in e && z.name != name
  {
    if z in e && z.name != name {
      var j :| 0 <= j < |e| && e[j] == z;
      assert e[k := EMPTY][j] == z;
    }
  }

  // ---------------------------------------------------------------- what paths find afterwards

  // The last step of a path, from its directory.
  lemma ResolveLast(t: seq<Inode>, cwd: nat, path: string, d: nat, name: string)
    requires Target(t, cwd, path, d, name)
    ensures d < |t| && t[d].kind.Dir? && Resolve(t, cwd, path) == Walk(t, d, [name])
    ensures Walk(t, From(cwd, path), Elements(path, 0)[..|Elements(path, 0)| - 1]) == Some(d)
  {
    var names := Elements(path, 0);
    WalkMore(t, From(cwd, path), names[..|names| - 1], name);
    assert names[..|names| - 1] + [name] == names;
  }

  // What a path found is found after names were added.
  lemma ResolveGrows(t: seq<Inode>, t': seq<Inode>, depth: seq<nat>, cwd: nat, path: string)
    requires MoreNames(t, t') && Inv(t', depth) && 0 < cwd < |t| && t'[cwd].nlink > 0 && Resolve(t, cwd, path).Some?
    ensures Resolve(t', cwd, path) == Resolve(t, cwd, path)
  {
    WalkGrows(t, t', depth, From(cwd, path), Elements(path, 0));
  }

  lemma TargetGrows(t: seq<Inode>, t': seq<Inode>, depth: seq<nat>, cwd: nat, path: string, d: nat, name: string,
                    i: nat)
    requires MoreNames(t, t') && Inv(t', depth) && 0 < cwd < |t| && t'[cwd].nlink > 0
    requires Target(t, cwd, path, d, name) && Names(t', d, name, i)
    ensures Resolve(t', cwd, path) == Some(i)
  {
    var names := Elements(path, 0);
    var from, most := From(cwd, path), names[..|names| - 1];
    ResolveLast(t, cwd, path, d, name);
    WalkGrows(t, t', depth, from, most);
    WalkLinked(t', depth, from, most);
    assert StepAt(t', [name], [d, i], 0);
    RouteWalk(t', depth, [name], [d, i]);
    WalkMore(t', from, most, name);
    assert most + [name] == names;
  }

  // After link() the new path finds what the old one did, and no path has changed.
  lemma LinkResolves(t: seq<Inode>, depth: seq<nat>, cwd: nat, oldPath: string, newPath: string, t': seq<Inode>)
    requires Inv(t, depth) && InTree(t, cwd) && DidLink(t, t', cwd, oldPath, newPath)
    ensures Resolve(t', cwd, newPath) == Resolve(t, cwd, oldPath)
    ensures forall w, path | InTree(t, w) && Resolve(t, w, path).Some? :: Resolve(t', w, path) == Resolve(t, w, path)
  {
    var i := Resolve(t, cwd, oldPath).value;
    ResolveLinked(t, depth, cwd, oldPath);
    var d: nat, name: string :| Target(t, cwd, newPath, d, name) && IsLinked(t, t', d, name, i);
    LinkDone(t, t', depth, cwd, newPath, d, name, i);
    ResolveLast(t, cwd, newPath, d, name);
    LinkNames(t, t', d, name, i);
    TargetGrows(t, t', depth, cwd, newPath, d, name, i);
    forall w, path | InTree(t, w) && Resolve(t, w, path).Some? ensures Resolve(t', w, path) == Resolve(t, w, path) {
      ResolveGrows(t, t', depth, w, path);
    }
  }

  // After create() the path finds the new inode, and no path has changed.
  lemma CreateResolves(t: seq<Inode>, depth: seq<nat>, cwd: nat, path: string, kind: Kind, i: nat, t': seq<Inode>)
    requires Inv(t, depth) && InTree(t, cwd) && DidCreate(t, t', cwd, path, kind, i)
    ensures Resolve(t', cwd, path) == Some(i) && t'[i].kind == kind && t'[i].nlink == 1
    ensures forall w, p | InTree(t, w) && Resolve(t, w, p).Some? :: Resolve(t', w, p) == Resolve(t, w, p)
  {
    var d: nat, name: string :| Target(t, cwd, path, d, name) && IsCreated(t, t', d, name, i, kind);
    ParentLinked(t, depth, cwd, path);
    NotDot(t, depth, d, name);
    CreateKeeps(t, t', depth, d, name, i, kind);
    var depth' := if kind.Dir? then depth[i := depth[d] + 1] else depth;
    CreateNames(t, t', d, name, i, kind);
    TargetGrows(t, t', depth', cwd, path, d, name, i);
    forall w, p | InTree(t, w) && Resolve(t, w, p).Some? ensures Resolve(t', w, p) == Resolve(t, w, p) {
      ResolveGrows(t, t', depth', w, p);
    }
  }

  // After unlink() the path finds nothing, and what is still found is what was.
  lemma UnlinkResolves(t: seq<Inode>, depth: seq<nat>, cwd: nat, path: string, last: bool, t': seq<Inode>)
    requires Inv(t, depth) && InTree(t, cwd) && DidUnlink(t, t', cwd, path, last)
    ensures Resolve(t', cwd, path).None?
    ensures forall w, p | InTree(t, w) && Resolve(t', w, p).Some? :: Resolve(t', w, p) == Resolve(t, w, p)
  {
    var d: nat, name: string :| Target(t, cwd, path, d, name) && d < |t| && IsUnlinked(t, t', d, name, last);
    ParentLinked(t, depth, cwd, path);
    UnlinkNames(t, t', depth, d, name, last);
    forall w, p | InTree(t, w) && Resolve(t', w, p).Some? ensures Resolve(t', w, p) == Resolve(t, w, p) {
      WalkGrows(t', t, depth, From(w, p), Elements(p, 0));
    }
    NameGone(t, t', depth, cwd, path, d, name);
  }

  lemma NameGone(t: seq<Inode>, t': seq<Inode>, depth: seq<nat>, cwd: nat, path: string, d: nat, name: string)
    requires Inv(t, depth) && InTree(t, cwd) && Target(t, cwd, path, d, name) && LosesName(t, t', d, name)
    ensures Resolve(t', cwd, path).None?
  {
    if Resolve(t', cwd, path).Some? {
      var names := Elements(path, 0);
      var most := names[..|names| - 1];
      ResolveLast(t, cwd, path, d, name);
      WalkMore(t', From(cwd, path), most, name);
      assert most + [name] == names;
      WalkGrows(t', t, depth, From(cwd, path), most);
      var e := t'[d].entries;
      var k := Lookup(e, name, 0);
      assert e[k] == Dirent(e[k].inum, name);
      assert Names(t', d, name, e[k].inum);
      assert false;
    }
  }

  // ---------------------------------------------------------------- when the calls succeed

  ghost predicate Taken(t: seq<Inode>, d: nat, name: string) {
    exists i: nat :: Names(t, d, name, i)
  }

  lemma HasIsTaken(t: seq<Inode>, d: nat, name: string)
    requires d < |t| && t[d].kind.Dir?
    ensures Has(t[d].entries, name) <==> Taken(t, d, name)
  {
    if Has(t[d].entries, name) {
      var k :| 0 <= k < |t[d].entries| && t[d].entries[k].inum != 0 && t[d].entries[k].name == name;
      assert t[d].entries[k] == Dirent(t[d].entries[k].inum, name);
      assert Names(t, d, name, t[d].entries[k].inum);
    }
  }

  // The directory has no names but "." and "..".
  ghost predicate OnlyDots(t: seq<Inode>, d: nat) {
    forall name, i: nat | Names(t, d, name, i) :: name == "." || name == ".."
  }

  lemma EmptyIsOnlyDots(t: seq<Inode>, d: nat)
    requires 0 < d < |t| && t[d].kind.Dir? && DirOk(t, d)
    ensures EmptyDir(t[d].entries) <==> OnlyDots(t, d)
  {
    var e := t[d].entries;
    if OnlyDots(t, d) {
      forall k | 2 <= k < |e| ensures e[k].inum == 0 {
        assert e[k] == Dirent(e[k].inum, e[k].name);
        assert e[k].inum != 0 ==> Names(t, d, e[k].name, e[k].inum);
      }
    }
  }

  // unlink() may remove a name exactly when it is not "." or "..", is there, and does
  // not name a directory with names of its own.
  lemma MayUnlinkExactly(t: seq<Inode>, depth: seq<nat>, cwd: nat, path: string)
    requires Inv(t, depth) && InTree(t, cwd)
    ensures MayUnlink(t, cwd, path) <==>
      exists d: nat, name, i: nat :: Target(t, cwd, path, d, name) && Removes(t, d, name, i)
  {
    if ResolveParent(t, cwd, path).Some? && Elements(path, 0) != [] {
      ParentLinked(t, depth, cwd, path);
      var d, name := ResolveParent(t, cwd, path).value, Elements(path, 0)[|Elements(path, 0)| - 1];
      assert Target(t, cwd, path, d, name) && DirOk(t, d);
      var e := t[d].entries;
      var k := Lookup(e, name, 0);
      LookupFinds(e, name, 0);
      if k < |e| && name != "." && name != ".." {
        assert e[k] == Dirent(e[k].inum, name) && Names(t, d, name, e[k].inum);
        StepLinked(t, depth, d, name, k);
        var i := e[k].inum;
        if t[i].kind.Dir? {
          assert DirOk(t, i);
          EmptyIsOnlyDots(t, i);
        }
        assert MayUnlink(t, cwd, path) <==> Removes(t, d, name, i);
      }
      forall i: nat | Names(t, d, name, i) ensures k < |e| && i == e[k].inum {
        var m :| 0 <= m < |e| && e[m] == Dirent(i, name);
        LookupExact(e, m);
      }
    }
  }

  ghost predicate Removes(t: seq<Inode>, d: nat, name: string, i: nat) {
    name != "." && name != ".." && Names(t, d, name, i) && i < |t| && (t[i].kind.Dir? ==> OnlyDots(t, i))
  }

  // A new name can be placed exactly when its directory is there and does not have it.
  lemma CanPlaceExactly(t: seq<Inode>, cwd: nat, path: string)
    ensures CanPlace(t, cwd, path) <==> exists d: nat, name :: Target(t, cwd, path, d, name) && !Taken(t, d, name)
  {
    if ResolveParent(t, cwd, path).Some? && Elements(path, 0) != [] {
      var d, name := ResolveParent(t, cwd, path).value, Elements(path, 0)[|Elements(path, 0)| - 1];
      assert Target(t, cwd, path, d, name);
      HasIsTaken(t, d, name);
    }
  }

  // ---------------------------------------------------------------- paths as strings

  // A name that a path can spell and an entry can hold.
  predicate EntryName(name: string) {
    ProperName(name) && |name| <= DIRSIZ
  }

  ghost predicate EntryNames(t: seq<Inode>) {
    forall d: nat, name, i: nat | Names(t, d, name, i) :: EntryName(name)
  }

  lemma {:induction false} ElementNames(path: string, i: nat)
    requires i <= |path|
    ensures forall name | name in Elements(path, i) :: EntryName(name)
    decreases |path| - i
  {
    var j := SkipSlashes(path, i);
    if j < |path| {
      var e := ElemEnd(path, j);
      KeepsToName(path, j);
      assert forall c | c in Cut(path[j..e]) :: c in path[j..e];
      ElementNames(path, e);
    }
  }

  // The names, each behind a slash, and one slash more.
  function Spelled(names: seq<string>): (path: string)
    ensures path != "" && path[0] == '/'
  {
    if names == [] then "/" else "/" + names[0] + Spelled(names[1..])
  }

  lemma {:induction false} SpelledSpells(names: seq<string>)
    requires forall k | 0 <= k < |names| :: EntryName(names[k])
    ensures Spells(seq(|names|, _ => "/"), names, "/") && Spell(seq(|names|, _ => "/"), names, "/") == Spelled(names)
    ensures Shortened(names) == names
    decreases |names|
  {
    if names != [] {
      SpelledSpells(names[1..]);
      assert seq(|names|, _ => "/")[1..] == seq(|names| - 1, _ => "/");
    }
  }

  // A directory whose names are such has its walk spelled out as a path.
  lemma SpelledResolves(t: seq<Inode>, cwd: nat, names: seq<string>)
    requires forall k | 0 <= k < |names| :: EntryName(names[k])
    ensures Resolve(t, cwd, Spelled(names)) == Walk(t, ROOT, names)
  {
    var path := Spelled(names);
    SpelledSpells(names);
    assert path[0..] == path;
    ElementsOfPath(path, 0, seq(|names|, _ => "/"), names, "/");
  }

  // A walk only uses names that entries hold.
  lemma {:induction false} WalkNames(t: seq<Inode>, i: nat, names: seq<string>)
    requires EntryNames(t) && Walk(t, i, names).Some?
    ensures forall k | 0 <= k < |names| :: EntryName(names[k])
    decreases |names|
  {
    if names != [] {
      var k := Lookup(t[i].entries, names[0], 0);
      assert t[i].entries[k] == Dirent(t[i].entries[k].inum, names[0]);
      assert Names(t, i, names[0], t[i].entries[k].inum);
      WalkNames(t, t[i].entries[k].inum, names[1..]);
      forall m | 0 <= m < |names| ensures EntryName(names[m]) {
        if m > 0 { assert names[m] == names[1..][m - 1]; }
      }
    }
  }
}
