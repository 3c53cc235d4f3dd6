// sysfile.c: link(), unlink() and create() on the tree, with their ways back.

module DirSyscalls {
  import opened Wrappers
  import opened DirTree
  import opened DirLinks
  import opened DirPaths

  // Panic: the kernel stops, because a directory or the inode table is full.
  datatype Outcome = Done | Failed | Panic

  // The parent directory and last name of a path, relative to cwd unless it starts with '/'.
  predicate Target(t: seq<Inode>, cwd: nat, path: string, d: nat, name: string) {
    && ResolveParent(t, cwd, path) == Some(d)
    && Elements(path, 0) != [] && name == Elements(path, 0)[|Elements(path, 0)| - 1]
  }

  class Tree {
    // MAXFILE * BSIZE / sizeof(struct dirent)
    const maxEntries: nat
    var inode: seq<Inode>
    ghost var depth: seq<nat>

    ghost predicate Valid()
      reads this
    {
      Inv(inode, depth) && maxEntries >= 2
    }

    // writei() of a directory entry at slot k.
    method PutEntry(d: nat, k: nat, e: Dirent)
      requires d < |inode| && k <= |inode[d].entries|
      modifies this`inode
      ensures inode == old(inode)[d := old(inode)[d].(entries := PutAt(old(inode)[d].entries, k, e))]
    {
      var entries := inode[d].entries;
      inode := inode[d := inode[d].(entries := if k == |entries| then entries + [e] else entries[k := e])];
    }

    // dirlink(): refused when the name is there.
    method Dirlink(d: nat, name: string, i: nat) returns (o: Outcome)
      requires d < |inode| && i != 0
      modifies this`inode
      ensures o.Failed? <==> Has(old(inode)[d].entries, name)
      ensures o.Failed? || o.Panic? ==> inode == old(inode)
      ensures o.Panic? ==> FreeSlot(inode[d].entries, 0) >= maxEntries
      ensures o.Done? ==> inode == WithEntry(old(inode), d, name, i)
    {
      var e := inode[d].entries;
      var there := Dirlookup(e, name);
      if there < |e| { return Failed; }
      var k := 0;
      while k < |e| && e[k].inum != 0
        invariant k <= |e| && FreeSlot(e, k) == FreeSlot(e, 0)
      {
        k := k + 1;
      }
      if k >= maxEntries { return Panic; }
      PutEntry(d, k, Dirent(i, name));
      o := Done;
    }

    method IsDirEmpty(i: nat) returns (r: bool)
      requires i < |inode|
      ensures r <==> EmptyDir(inode[i].entries)
    {
      var off := 2;
      while off < |inode[i].entries|
        invariant forall m | 2 <= m < off && m < |inode[i].entries| :: inode[i].entries[m].inum == 0
      {
        if inode[i].entries[off].inum != 0 { return false; }
        off := off + 1;
      }
      r := true;
    }

    method AddLink(i: nat, n: int)
      requires i < |inode|
      modifies this`inode
      ensures inode == old(inode)[i := old(inode)[i].(nlink := old(inode)[i].nlink + n)]
    {
      inode := inode[i := inode[i].(nlink := inode[i].nlink + n)];
    }

    // link(): a second name for a file; on any failure the tree is as before.
    method SysLink(cwd: nat, oldPath: string, newPath: string) returns (o: Outcome)
      requires Valid() && 0 < cwd < |inode| && LinkedDir(inode[cwd])
      modifies this`inode
      ensures o.Done? ==> Valid() && DidLink(old(inode), inode, cwd, oldPath, newPath)
      ensures o.Failed? ==> inode == old(inode) && !MayLink(old(inode), cwd, oldPath, newPath)
      ensures o.Panic? ==>
        MayLink(old(inode), cwd, oldPath, newPath) && ParentFull(old(inode), cwd, newPath, maxEntries)
    {
      var ip, _ := Namex(inode, cwd, oldPath, false);
      if ip.None? { return Failed; }
      ResolveLinked(inode, depth, cwd, oldPath);
      if inode[ip.value].kind.Dir? { return Failed; }
      ghost var t := inode;
      ghost var d, name;
      o, d, name := LinkInode(cwd, newPath, ip.value);
      if o.Done? { LinkDone(t, inode, depth, cwd, newPath, d, name, ip.value); }
    }

    // link() once the file is found. Its count is raised first, and lowered again
    // on the way back.
    method LinkInode(cwd: nat, newPath: string, i: nat) returns (o: Outcome, ghost d: nat, ghost name: string)
      requires 0 < i < |inode| && !inode[i].kind.Dir?
      modifies this`inode
      ensures o.Done? ==> Target(old(inode), cwd, newPath, d, name) && IsLinked(old(inode), inode, d, name, i)
      ensures o.Failed? ==> inode == old(inode) && !CanPlace(old(inode), cwd, newPath)
      ensures o.Panic? ==> CanPlace(old(inode), cwd, newPath) && ParentFull(old(inode), cwd, newPath, maxEntries)
    {
      ghost var t := inode;
      AddLink(i, 1);
      ghost var t1 := inode;
      var dp, last := Namex(inode, cwd, newPath, true);
      d, name := 0, last;
      ParentSame(t, t1, cwd, newPath);
      if dp.None? {
        AddLink(i, -1);
        BackAgain(t, t1, inode, i);
        return Failed, d, name;
      }
      d := dp.value;
      assert t1[d].entries == t[d].entries;
      o := Dirlink(dp.value, last, i);
      if o.Failed? {
        AddLink(i, -1);
        BackAgain(t, t1, inode, i);
      }
      if o.Done? { LinkedIs(t, d, name, i); }
    }

    // unlink(): the entry goes, with one link of its inode; a directory must be
    // empty, and takes its ".." with it. The panic for a count below 1 never comes.
    method SysUnlink(cwd: nat, path: string, last: bool) returns (o: Outcome)
      requires Valid() && 0 < cwd < |inode| && LinkedDir(inode[cwd])
      modifies this`inode
      ensures Valid() && !o.Panic?
      ensures o.Done? ==> DidUnlink(old(inode), inode, cwd, path, last)
      ensures o.Failed? ==> inode == old(inode)
      ensures o.Done? <==> MayUnlink(old(inode), cwd, path)
    {
      ghost var t := inode;
      var dp, name := Namex(inode, cwd, path, true);
      if dp.None? { return Failed; }
      var d := dp.value;
      ParentLinked(t, depth, cwd, path);
      assert Target(t, cwd, path, d, name);
      o := UnlinkName(d, name, last);
      if o.Done? { UnlinkDone(t, inode, cwd, path, last, d, name); }
    }

    // unlink() of a name in directory d.
    method UnlinkName(d: nat, name: string, last: bool) returns (o: Outcome)
      requires Valid() && 0 < d < |inode| && LinkedDir(inode[d])
      modifies this`inode
      ensures Valid() && !o.Panic?
      ensures o.Done? ==> IsUnlinked(old(inode), inode, d, name, last)
      ensures o.Failed? ==> inode == old(inode)
      ensures o.Done? <==> name != "." && name != ".." && Removable(old(inode), d, name)
    {
      ghost var t := inode;
      if name == "." || name == ".." { return Failed; }
      assert DirOk(t, d);
      var i, k;
      o, i, k := UnlinkAt(d, name);
      UnlinkNeverPanics(t, depth, d, name, k, i);
      if o.Done? {
        UnlinkedKeeps(t, depth, d, k, i);
        Iput(i, last);
      }
    }

    method UnlinkAt(d: nat, name: string) returns (o: Outcome, i: nat, k: nat)
      requires d < |inode| && forall m | 0 <= m < |inode[d].entries| :: inode[d].entries[m].inum < |inode|
      modifies this`inode
      ensures k == Lookup(old(inode)[d].entries, name, 0)
      ensures k < |old(inode)[d].entries| <==> Has(old(inode)[d].entries, name)
      ensures k < |old(inode)[d].entries| ==> i == old(inode)[d].entries[k].inum
      ensures o.Panic? <==> k < |old(inode)[d].entries| && old(inode)[i].nlink < 1
      ensures o.Done? <==>
        && k < |old(inode)[d].entries| && old(inode)[i].nlink >= 1
        && (old(inode)[i].kind.Dir? ==> EmptyDir(old(inode)[i].entries))
      ensures o.Done? && d != i ==> inode == Unlinked(old(inode), d, k, i)
      ensures !o.Done? ==> inode == old(inode)
    {
      ghost var t := inode;
      i := 0;
      k := Dirlookup(inode[d].entries, name);
      if k == |inode[d].entries| { return Failed, i, k; }
      i := inode[d].entries[k].inum;
      if inode[i].nlink < 1 { return Panic, i, k; }
      if inode[i].kind.Dir? {
        var empty := IsDirEmpty(i);
        if !empty { return Failed, i, k; }
      }
      var isDir := inode[i].kind.Dir?;
      PutEntry(d, k, EMPTY);
      if isDir { AddLink(d, -1); }
      AddLink(i, -1);
      if d != i { UnlinkedIs(t, inode, d, k, i); }
      o := Done;
    }

    // The reference goes; an inode without links and references is freed.
    method Iput(i: nat, last: bool)
      requires Valid() && 0 < i < |inode|
      modifies this`inode
      ensures Valid() && inode == if last then Dropped(old(inode), i) else old(inode)
      ensures inode[i].kind == if last && old(inode)[i].nlink == 0 then Free else old(inode)[i].kind
    {
      if last && inode[i].nlink == 0 {
        TypedKeeps(inode, depth, i, Inode(Free, 0, []));
        inode := inode[i := Inode(Free, 0, [])];
      }
    }

    // ialloc(): the first free inode.
    method Ialloc() returns (r: Option<nat>)
      requires |inode| > ROOT
      ensures r.None? <==> forall i | 0 < i < |inode| :: !inode[i].kind.Free?
      ensures r.Some? ==> FirstFree(inode, r.value)
    {
      for i := 1 to |inode|
        invariant forall j | 0 < j < i :: !inode[j].kind.Free?
      {
        if inode[i].kind.Free? { return Some(i); }
      }
      r := None;
    }

    // create(): a file that is there already is returned for T_FILE; otherwise a
    // new inode, linked, and for a directory with its two entries. It panics for want
    // of an inode or of room in the directory only.
    method Create(cwd: nat, path: string, kind: Kind) returns (o: Outcome, ip: nat)
      requires Valid() && 0 < cwd < |inode| && LinkedDir(inode[cwd]) && !kind.Free?
      modifies this
      ensures !o.Panic? ==> Valid()
      ensures o.Done? && inode == old(inode) ==> kind.File? && NamesFile(inode, cwd, path, ip)
      ensures o.Done? && inode != old(inode) ==>
        DidCreate(old(inode), inode, cwd, path, kind, ip) && FirstFree(old(inode), ip)
      ensures o.Failed? ==>
        inode == old(inode) && !CanPlace(inode, cwd, path) && (kind.File? ==> !NamesFile(inode, cwd, path, ip))
      ensures o.Panic? ==>
        CanPlace(old(inode), cwd, path) && (NoInode(old(inode)) || ParentFull(old(inode), cwd, path, maxEntries))
    {
      ghost var t := inode;
      ip := 0;
      var dp, name := Namex(inode, cwd, path, true);
      if dp.None? { return Failed, ip; }
      var d := dp.value;
      ParentLinked(t, depth, cwd, path);
      var k := Dirlookup(inode[d].entries, name);
      if k < |inode[d].entries| {
        StepLinked(t, depth, d, name, k);
        ip := inode[d].entries[k].inum;
        assert Target(t, cwd, path, d, name);
        return if kind.File? && inode[ip].kind.File? then Done else Failed, ip;
      }
      assert !Has(t[d].entries, name) && Target(t, cwd, path, d, name);
      o, ip := Make(d, name, kind);
      if o.Done? { CreateDone(t, inode, cwd, path, kind, ip, d, name); }
    }

    // create() once the name is known to be free.
    method Make(d: nat, name: string, kind: Kind) returns (o: Outcome, ip: nat)
      requires Valid() && 0 < d < |inode| && LinkedDir(inode[d]) && !Has(inode[d].entries, name) && !kind.Free?
      modifies this
      ensures !o.Failed? && (o.Panic? ==> NoInode(old(inode)) || NoRoom(old(inode), d, maxEntries))
      ensures o.Done? ==> Valid() && IsCreated(old(inode), inode, d, name, ip, kind) && FirstFree(old(inode), ip)
    {
      ghost var t := inode;
      var free := Ialloc();
      if free.None? { return Panic, 0; }
      ip := free.value;
      NotDot(t, depth, d, name);
      o := Fill(d, name, ip, kind);
      if o.Done? {
        CreateKeeps(t, inode, depth, d, name, ip, kind);
        if kind.Dir? { depth := depth[ip := depth[d] + 1]; }
      }
    }

    // The new inode's fields and entries.
    method Fill(d: nat, name: string, i: nat, kind: Kind) returns (o: Outcome)
      requires d < |inode| && 0 < i < |inode| && d != i && d > 0 && maxEntries >= 2 && !Has(inode[d].entries, name)
      modifies this`inode
      ensures !o.Failed? && (o.Panic? ==> NoRoom(old(inode), d, maxEntries))
      ensures o.Done? ==> inode == NewInode(old(inode), d, name, i, kind)
    {
      ghost var t := inode;
      inode := inode[i := Inode(kind, 1, [])];
      if kind.Dir? {
        AddLink(d, 1);
        var dot := Dirlink(i, ".", i);
        DotsFit(inode[i].entries, i);
        var dotdot := Dirlink(i, "..", d);
        assert dot.Done? && dotdot.Done?;
      }
      assert inode[d].entries == t[d].entries;
      o := Dirlink(d, name, i);
      if o.Done? { NewInodeIs(t, inode, d, name, i, kind); }
    }
  }

  // The inode ialloc() takes: the lowest that is free.
  predicate FirstFree(t: seq<Inode>, i: nat) {
    0 < i < |t| && t[i].kind.Free? && forall j | 0 < j < i :: !t[j].kind.Free?
  }

  function NewInode(t: seq<Inode>, d: nat, name: string, i: nat, kind: Kind): seq<Inode>
    requires d < |t| && i < |t| && d != i
  {
    if kind.Dir? then MadeDir(t, d, name, i) else Created(t, d, name, i, kind)
  }

  ghost predicate DidCreate(t: seq<Inode>, t': seq<Inode>, cwd: nat, path: string, kind: Kind, i: nat) {
    exists d: nat, name: string :: Target(t, cwd, path, d, name) && IsCreated(t, t', d, name, i, kind)
  }

  // t' is t with the free inode i made, and linked from d under a new name.
  predicate IsCreated(t: seq<Inode>, t': seq<Inode>, d: nat, name: string, i: nat, kind: Kind) {
    && d < |t| && 0 < i < |t| && d != i && t[i].kind.Free? && !kind.Free?
    && !Has(t[d].entries, name) && t' == NewInode(t, d, name, i, kind)
  }

  // The path names a file, inode i.
  predicate NamesFile(t: seq<Inode>, cwd: nat, path: string, i: nat) {
    var names := Elements(path, 0);
    match ResolveParent(t, cwd, path)
    case None => false
    case Some(d) => d < |t| && names != [] && IsFileAt(t, d, names[|names| - 1], i)
  }

  predicate IsFileAt(t: seq<Inode>, d: nat, name: string, i: nat)
    requires d < |t|
  {
    var k := Lookup(t[d].entries, name, 0);
    k < |t[d].entries| && t[d].entries[k].inum == i && i < |t| && t[i].kind.File?
  }

  predicate NoInode(t: seq<Inode>) {
    forall i | 0 < i < |t| :: !t[i].kind.Free?
  }

  predicate NoRoom(t: seq<Inode>, d: nat, maxEntries: nat) {
    d < |t| && FreeSlot(t[d].entries, 0) >= maxEntries
  }

  // The path's directory has no slot left.
  predicate ParentFull(t: seq<Inode>, cwd: nat, path: string, maxEntries: nat) {
    match ResolveParent(t, cwd, path)
    case None => false
    case Some(d) => NoRoom(t, d, maxEntries)
  }

  lemma CreateDone(t: seq<Inode>, t': seq<Inode>, cwd: nat, path: string, kind: Kind, i: nat, d: nat, name: string)
    requires Target(t, cwd, path, d, name) && IsCreated(t, t', d, name, i, kind)
    ensures DidCreate(t, t', cwd, path, kind, i) && t' != t
  {
    assert t'[i].kind == kind;
  }

  lemma DotsFit(e: seq<Dirent>, i: nat)
    ensures e == [Dirent(i, ".")] && i != 0 ==> !Has(e, "..") && FreeSlot(e, 0) == 1
    ensures e == [] ==> !Has(e, ".") && FreeSlot(e, 0) == 0
  {
  }

  lemma NewInodeIs(t: seq<Inode>, t': seq<Inode>, d: nat, name: string, i: nat, kind: Kind)
    requires d < |t| && i < |t| && d != i && |t'| == |t|
    requires forall x | 0 <= x < |t| && x != d && x != i :: t'[x] == t[x]
    requires t'[d] == t[d].(nlink := t[d].nlink + (if kind.Dir? then 1 else 0),
                            entries := PutAt(t[d].entries, FreeSlot(t[d].entries, 0), Dirent(i, name)))
    requires t'[i] == Inode(kind, 1, if kind.Dir? then [Dirent(i, "."), Dirent(d, "..")] else [])
    ensures t' == NewInode(t, d, name, i, kind)
  {
  }

  lemma CreateKeeps(t: seq<Inode>, t': seq<Inode>, depth: seq<nat>, d: nat, name: string, i: nat, kind: Kind)
    requires CanLink(t, depth, d, name, i) && t[i].kind.Free? && !kind.Free? && t' == NewInode(t, d, name, i, kind)
    ensures Inv(t', if kind.Dir? then depth[i := depth[d] + 1] else depth)
  {
    if kind.Dir? {
      MadeDirKeeps(t, depth, d, name, i);
    } else {
      var t1 := t[i := Inode(kind, 0, [])];
      TypedKeeps(t, depth, i, Inode(kind, 0, []));
      StillCanLink(t, t1, depth, d, name, i);
      LinkedKeeps(t1, depth, d, name, i);
    }
  }

  // ---------------------------------------------------------------- unlink()

  predicate MayUnlink(t: seq<Inode>, cwd: nat, path: string) {
    var names := Elements(path, 0);
    match ResolveParent(t, cwd, path)
    case None => false
    case Some(d) =>
      d < |t| && names != [] && var name := names[|names| - 1]; name != "." && name != ".." && Removable(t, d, name)
  }

  predicate Removable(t: seq<Inode>, d: nat, name: string)
    requires d < |t|
  {
    var k := Lookup(t[d].entries, name, 0);
    k < |t[d].entries| && var i := t[d].entries[k].inum; i < |t| && (t[i].kind.Dir? ==> EmptyDir(t[i].entries))
  }

  ghost predicate DidUnlink(t: seq<Inode>, t': seq<Inode>, cwd: nat, path: string, last: bool) {
    exists d: nat, name: string :: Target(t, cwd, path, d, name) && d < |t| && IsUnlinked(t, t', d, name, last)
  }

  predicate IsUnlinked(t: seq<Inode>, t': seq<Inode>, d: nat, name: string, last: bool)
    requires d < |t|
  {
    var k := Lookup(t[d].entries, name, 0);
    k < |t[d].entries| && var i := t[d].entries[k].inum;
    i < |t| && d != i && var t1 := Unlinked(t, d, k, i); t' == if last then Dropped(t1, i) else t1
  }

  lemma UnlinkDone(t: seq<Inode>, t': seq<Inode>, cwd: nat, path: string, last: bool, d: nat, name: string)
    requires Target(t, cwd, path, d, name) && d < |t| && IsUnlinked(t, t', d, name, last)
    ensures DidUnlink(t, t', cwd, path, last)
  {
  }

  lemma UnlinkedIs(t: seq<Inode>, t': seq<Inode>, d: nat, k: nat, i: nat)
    requires d < |t| && i < |t| && d != i && k < |t[d].entries| && |t'| == |t|
    requires forall x | 0 <= x < |t| && x != d && x != i :: t'[x] == t[x]
    requires t'[d] == t[d].(nlink := t[d].nlink - (if t[i].kind.Dir? then 1 else 0),
                            entries := t[d].entries[k := EMPTY])
    requires t'[i] == t[i].(nlink := t[i].nlink - 1)
    ensures t' == Unlinked(t, d, k, i)
  {
  }

  // An entry with a name of its own names an inode with a link.
  lemma UnlinkNeverPanics(t: seq<Inode>, depth: seq<nat>, d: nat, name: string, k: nat, i: nat)
    requires Inv(t, depth) && 0 < d < |t| && LinkedDir(t[d]) && name != "." && name != ".."
    requires k == Lookup(t[d].entries, name, 0) && (k < |t[d].entries| ==> i == t[d].entries[k].inum)
    ensures k < |t[d].entries| ==> k >= 2 && 0 < i < |t| && t[i].nlink >= 1
    ensures k < |t[d].entries| && (t[i].kind.Dir? ==> EmptyDir(t[i].entries)) ==> CanUnlink(t, depth, d, k, i)
  {
    assert DirOk(t, d);
    if k < |t[d].entries| { StepLinked(t, depth, d, name, k); }
  }

  lemma BackAgain(t: seq<Inode>, t1: seq<Inode>, t2: seq<Inode>, i: nat)
    requires i < |t| && t1 == t[i := t[i].(nlink := t[i].nlink + 1)] && t2 == t1[i := t1[i].(nlink := t1[i].nlink + -1)]
    ensures t2 == t
  {
  }

  // t' is t with one more link, from the directory that newPath names.
  ghost predicate LinkedAt(t: seq<Inode>, t': seq<Inode>, cwd: nat, newPath: string, i: nat) {
    exists d: nat, name: string :: Target(t, cwd, newPath, d, name) && IsLinked(t, t', d, name, i)
  }

  predicate IsLinked(t: seq<Inode>, t': seq<Inode>, d: nat, name: string, i: nat) {
    d < |t| && i < |t| && d != i && !Has(t[d].entries, name) && t' == Linked(t, d, name, i)
  }

  ghost predicate DidLink(t: seq<Inode>, t': seq<Inode>, cwd: nat, oldPath: string, newPath: string) {
    match Resolve(t, cwd, oldPath)
    case None => false
    case Some(i) => i < |t| && !t[i].kind.Dir? && LinkedAt(t, t', cwd, newPath, i)
  }

  // The old path names something that is not a directory, and the new name is free.
  predicate MayLink(t: seq<Inode>, cwd: nat, oldPath: string, newPath: string) {
    match Resolve(t, cwd, oldPath)
    case None => false
    case Some(i) => i < |t| && !t[i].kind.Dir? && CanPlace(t, cwd, newPath)
  }

  lemma LinkDone(t: seq<Inode>, t': seq<Inode>, depth: seq<nat>, cwd: nat, newPath: string, d: nat, name: string,
                 i: nat)
    requires Inv(t, depth) && 0 < cwd < |t| && t[cwd].nlink > 0 && 0 < i < |t| && t[i].nlink > 0 && !t[i].kind.Dir?
    requires Target(t, cwd, newPath, d, name) && IsLinked(t, t', d, name, i)
    ensures Inv(t', depth)
  {
    ParentLinked(t, depth, cwd, newPath);
    NotDot(t, depth, d, name);
    UsedInode(t, i);
    LinkedKeeps(t, depth, d, name, i);
  }

  function WithEntry(t: seq<Inode>, d: nat, name: string, i: nat): seq<Inode>
    requires d < |t|
  {
    t[d := t[d].(entries := PutAt(t[d].entries, FreeSlot(t[d].entries, 0), Dirent(i, name)))]
  }

  // The path names a place in an existing directory that is not taken.
  predicate CanPlace(t: seq<Inode>, cwd: nat, path: string) {
    var names := Elements(path, 0);
    match ResolveParent(t, cwd, path)
    case None => false
    case Some(d) => d < |t| && names != [] && !Has(t[d].entries, names[|names| - 1])
  }

  lemma ParentSame(t: seq<Inode>, t': seq<Inode>, cwd: nat, path: string)
    requires |t'| == |t| && forall x | 0 <= x < |t| :: t'[x].kind == t[x].kind && t'[x].entries == t[x].entries
    ensures ResolveParent(t', cwd, path) == ResolveParent(t, cwd, path)
  {
    var names := Elements(path, 0);
    if names != [] { WalkSame(t, t', From(cwd, path), names[..|names| - 1]); }
  }

  lemma ResolveLinked(t: seq<Inode>, depth: seq<nat>, cwd: nat, path: string)
    requires Inv(t, depth) && 0 < cwd < |t| && t[cwd].nlink > 0 && Resolve(t, cwd, path).Some?
    ensures 0 < Resolve(t, cwd, path).value < |t| && t[Resolve(t, cwd, path).value].nlink > 0
  {
    WalkLinked(t, depth, From(cwd, path), Elements(path, 0));
  }

  lemma ParentLinked(t: seq<Inode>, depth: seq<nat>, cwd: nat, path: string)
    requires Inv(t, depth) && 0 < cwd < |t| && t[cwd].nlink > 0 && ResolveParent(t, cwd, path).Some?
    ensures 0 < ResolveParent(t, cwd, path).value < |t| && LinkedDir(t[ResolveParent(t, cwd, path).value])
  {
    var names := Elements(path, 0);
    WalkLinked(t, depth, From(cwd, path), names[..|names| - 1]);
  }

  lemma LinkedIs(t: seq<Inode>, d: nat, name: string, i: nat)
    requires d < |t| && i < |t| && d != i
    ensures WithEntry(t[i := t[i].(nlink := t[i].nlink + 1)], d, name, i) == Linked(t, d, name, i)
  {
  }

  lemma NotDot(t: seq<Inode>, depth: seq<nat>, d: nat, name: string)
    requires Inv(t, depth) && 0 < d < |t| && LinkedDir(t[d]) && !Has(t[d].entries, name)
    ensures name != "." && name != ".."
  {
    assert DirOk(t, d);
    assert t[d].entries[0].inum != 0 && t[d].entries[1].inum != 0;
  }

  lemma UsedInode(t: seq<Inode>, i: nat)
    requires CountInv(t) && i < |t| && t[i].nlink > 0
    ensures !t[i].kind.Free?
  {
  }
}
