// Every directory operation keeps link counts, unique names and the tree.

module DirLinks {
  import opened DirTree

  // ---------------------------------------------------------------- links as sets

  lemma IsLinkIn(t: seq<Inode>, i: nat, d: nat, k: nat)
    ensures (d, k) in Links(t, i) <==> IsLink(t, i, d, k)
  {
  }

  // Links of t' are those of t, plus or minus one.
  lemma OneMore(t: seq<Inode>, t': seq<Inode>, i: nat, d: nat, k: nat)
    requires !IsLink(t, i, d, k) && IsLink(t', i, d, k)
    requires forall x: nat, y: nat | x != d || y != k :: IsLink(t', i, x, y) <==> IsLink(t, i, x, y)
    ensures |Links(t', i)| == |Links(t, i)| + 1
  {
    assert Links(t', i) == Links(t, i) + {(d, k)};
  }

  lemma Same(t: seq<Inode>, t': seq<Inode>, i: nat)
    requires forall x: nat, y: nat :: IsLink(t', i, x, y) <==> IsLink(t, i, x, y)
    ensures |Links(t', i)| == |Links(t, i)|
  {
    assert Links(t', i) == Links(t, i);
  }

  // An inode with a link has a positive count, and is in use.
  lemma LinkedIsUsed(t: seq<Inode>, i: nat, d: nat, k: nat)
    requires CountInv(t) && 0 < i < |t| && IsLink(t, i, d, k)
    ensures t[i].nlink > 0 && !t[i].kind.Free?
  {
    assert (d, k) in Links(t, i);
  }

  lemma NoLinks(t: seq<Inode>, i: nat, d: nat, k: nat)
    requires CountInv(t) && 0 < i < |t| && t[i].nlink == 0
    ensures !IsLink(t, i, d, k)
  {
    IsLinkIn(t, i, d, k);
  }

  // ---------------------------------------------------------------- link()

  // What dirlink() may be asked to do.
  ghost predicate CanLink(t: seq<Inode>, depth: seq<nat>, d: nat, name: string, i: nat) {
    && Inv(t, depth) && 0 < d < |t| && 0 < i < |t| && LinkedDir(t[d]) && name != "." && !Has(t[d].entries, name)
    && d != i
  }

  lemma SlotIsFree(t: seq<Inode>, depth: seq<nat>, d: nat) returns (k: nat)
    requires Inv(t, depth) && 0 < d < |t| && LinkedDir(t[d])
    ensures k == FreeSlot(t[d].entries, 0) && k >= 2 && (k < |t[d].entries| ==> t[d].entries[k].inum == 0)
  {
    assert DirOk(t, d);
    k := FreeSlot(t[d].entries, 0);
  }

  lemma LinkedCount(t: seq<Inode>, d: nat, name: string, i: nat, j: nat)
    requires d < |t| && 0 < i < |t| && 0 < j < |t| && d != i && LinkedDir(t[d]) && name != "." && !t[i].kind.Dir?
    requires t[j].nlink == |Links(t, j)|
    ensures Linked(t, d, name, i)[j].nlink == |Links(Linked(t, d, name, i), j)|
  {
    var t' := Linked(t, d, name, i);
    var k := FreeSlot(t[d].entries, 0);
    if j == i { OneMore(t, t', i, d, k); } else { Same(t, t', j); }
  }

  lemma PutDirOk(t: seq<Inode>, t': seq<Inode>, depth: seq<nat>, d: nat, name: string, i: nat)
    requires CanLink(t, depth, d, name, i) && |t'| == |t|
    requires t'[d].entries == PutAt(t[d].entries, FreeSlot(t[d].entries, 0), Dirent(i, name))
    ensures DirOk(t', d)
  {
    var k := SlotIsFree(t, depth, d);
    var e, e' := t[d].entries, t'[d].entries;
    assert DirOk(t, d);
    forall a, b | 0 <= a < b < |e'| && e'[a].inum != 0 && e'[b].inum != 0 ensures e'[a].name != e'[b].name {
      if a == k { assert e[b].inum != 0; }
    }
  }

  // Directories keep their places when an entry is added and no directory changes.
  ghost predicate Adds(t: seq<Inode>, t': seq<Inode>, d: nat, slot: nat) {
    && |t'| == |t| && d < |t| && 2 <= slot < |t'[d].entries|
    && (slot < |t[d].entries| ==> t[d].entries[slot].inum == 0)
    && |t[d].entries| <= |t'[d].entries| <= |t[d].entries| + 1
    && (|t'[d].entries| == |t[d].entries| + 1 ==> slot == |t[d].entries|)
    && (forall k | 0 <= k < |t[d].entries| && k != slot :: t'[d].entries[k] == t[d].entries[k])
    && (forall x | 0 <= x < |t| && x != d && LinkedDir(t[x]) :: t'[x].entries == t[x].entries)
    && (forall x | 0 <= x < |t| && LinkedDir(t[x]) :: LinkedDir(t'[x]))
  }

  lemma HangsStill(t: seq<Inode>, t': seq<Inode>, depth: seq<nat>, depth': seq<nat>, d: nat, slot: nat, x: nat)
    requires Adds(t, t', d, slot) && DirInv(t) && DirInv(t') && 0 < x < |t| && LinkedDir(t[x])
    requires |depth| == |t| == |depth'|
    requires DirOk(t, x) && DirOk(t', x) && Hangs(t, depth, x)
    requires depth'[x] == depth[x] && depth'[Parent(t, x)] == depth[Parent(t, x)]
    ensures Hangs(t', depth', x)
  {
    var p := Parent(t, x);
    var k :| 2 <= k < |t[p].entries| && t[p].entries[k].inum == x;
    assert t'[p].entries[k].inum == x;
  }

  lemma OnlyStill(t: seq<Inode>, t': seq<Inode>, d: nat, slot: nat, p: nat, k: nat)
    requires Adds(t, t', d, slot) && DirInv(t) && DirInv(t') && p < |t| && LinkedDir(t[p]) && LinkedDir(t'[p])
    requires 2 <= k < |t'[p].entries| && !(p == d && k == slot) && OnlyPlace(t, p, k)
    requires var c := t[p].entries[k].inum; c < |t| && t'[c].kind.Dir? ==> t[c].kind.Dir?
    requires t'[d].entries[slot].inum != t[p].entries[k].inum
    ensures OnlyPlace(t', p, k)
  {
    var c := t[p].entries[k].inum;
    assert t'[p].entries[k] == t[p].entries[k];
    assert DirOk(t, p);
    if c != 0 && t'[c].kind.Dir? {
      assert LinkedDir(t[c]) && Parent(t, c) == p && DirOk(t, c);
      forall j | 2 <= j < |t'[p].entries| && t'[p].entries[j].inum == c ensures j == k {
      }
    }
  }

  lemma LinkedAdds(t: seq<Inode>, d: nat, name: string, i: nat, slot: nat)
    requires d < |t| && i < |t| && d != i && LinkedDir(t[d]) && !t[i].kind.Dir?
    requires slot == FreeSlot(t[d].entries, 0) && 2 <= slot
    ensures Adds(t, Linked(t, d, name, i), d, slot)
  {
  }

  lemma LinkedDirs(t: seq<Inode>, depth: seq<nat>, d: nat, name: string, i: nat)
    requires CanLink(t, depth, d, name, i) && !t[i].kind.Dir?
    ensures DirInv(Linked(t, d, name, i))
  {
    var t' := Linked(t, d, name, i);
    forall x | 0 <= x < |t'| && LinkedDir(t'[x]) ensures DirOk(t', x) {
      if x == d { PutDirOk(t, t', depth, d, name, i); } else { assert DirOk(t, x); }
    }
  }

  lemma LinkedOnly(t: seq<Inode>, d: nat, name: string, i: nat, t': seq<Inode>, p: nat, k: nat)
    requires d < |t| && i < |t| && d != i && t' == Linked(t, d, name, i) && DirInv(t) && DirInv(t') && !t[i].kind.Dir?
    requires Adds(t, t', d, FreeSlot(t[d].entries, 0)) && p < |t| && LinkedDir(t[p]) && LinkedDir(t'[p])
    requires 2 <= k < |t'[p].entries|
    requires (p == d && k == FreeSlot(t[d].entries, 0)) || (k < |t[p].entries| && OnlyPlace(t, p, k))
    ensures OnlyPlace(t', p, k)
  {
    var slot := FreeSlot(t[d].entries, 0);
    assert t'[d].entries[slot].inum == i;
    if p == d && k == slot {
    } else if t[p].entries[k].inum == i {
      assert t'[p].entries[k].inum == i;
    } else {
      assert DirOk(t, p);
      OnlyStill(t, t', d, slot, p, k);
    }
  }

  lemma LinkedTree(t: seq<Inode>, depth: seq<nat>, d: nat, name: string, i: nat, t': seq<Inode>)
    requires CanLink(t, depth, d, name, i) && !t[i].kind.Dir? && t' == Linked(t, d, name, i) && DirInv(t')
    requires Adds(t, t', d, FreeSlot(t[d].entries, 0))
    ensures TreeInv(t', depth)
  {
    var slot := FreeSlot(t[d].entries, 0);
    forall x | 0 <= x < |t'| && LinkedDir(t'[x]) && x != ROOT ensures Hangs(t', depth, x) {
      assert LinkedDir(t[x]) && Hangs(t, depth, x) && DirOk(t, x);
      HangsStill(t, t', depth, depth, d, slot, x);
    }
    forall p, k | 0 <= p < |t'| && LinkedDir(t'[p]) && 2 <= k < |t'[p].entries| ensures OnlyPlace(t', p, k) {
      assert LinkedDir(t[p]);
      assert k < |t[p].entries| ==> OnlyPlace(t, p, k);
      LinkedOnly(t, d, name, i, t', p, k);
    }
  }

  lemma LinkedKeeps(t: seq<Inode>, depth: seq<nat>, d: nat, name: string, i: nat)
    requires CanLink(t, depth, d, name, i) && !t[i].kind.Dir? && !t[i].kind.Free?
    ensures Inv(Linked(t, d, name, i), depth)
  {
    var t' := Linked(t, d, name, i);
    forall j | 0 < j < |t'| ensures t'[j].nlink == |Links(t', j)| { LinkedCount(t, d, name, i, j); }
    LinkedDirs(t, depth, d, name, i);
    var slot := SlotIsFree(t, depth, d);
    LinkedAdds(t, d, name, i, slot);
    LinkedTree(t, depth, d, name, i, t');
  }

  // ---------------------------------------------------------------- create() of a file

  lemma TypedParts(t: seq<Inode>, i: nat, n: Inode)
    requires CountInv(t) && DirInv(t) && 0 < i < |t| && t[i].nlink == 0 && n.nlink == 0
    ensures CountInv(t[i := n]) && DirInv(t[i := n])
  {
    var t' := t[i := n];
    forall j | 0 < j < |t'| ensures t'[j].nlink == |Links(t', j)| { Same(t, t', j); }
    forall x | 0 <= x < |t'| && LinkedDir(t'[x]) ensures DirOk(t', x) { assert DirOk(t, x); }
  }

  lemma TypedTree(t: seq<Inode>, depth: seq<nat>, i: nat, t': seq<Inode>)
    requires Inv(t, depth) && 0 < i < |t| && t[i].nlink == 0 && |t'| == |t| && t'[i].nlink == 0 && DirInv(t')
    requires forall x | 0 <= x < |t| && x != i :: t'[x] == t[x]
    ensures TreeInv(t', depth)
  {
    forall x | 0 <= x < |t'| && LinkedDir(t'[x]) && x != ROOT ensures Hangs(t', depth, x) {
      assert LinkedDir(t[x]) && Hangs(t, depth, x) && DirOk(t, x);
    }
    forall p, k | 0 <= p < |t'| && LinkedDir(t'[p]) && 2 <= k < |t'[p].entries| ensures OnlyPlace(t', p, k) {
      assert LinkedDir(t[p]) && OnlyPlace(t, p, k) && DirOk(t, p);
      NoLinks(t, i, p, k);
      assert t[p].entries[0].name == "." && t[p].entries[k].inum != 0 ==> t[p].entries[k].name != ".";
    }
  }

  // Giving an unlinked inode a type changes nothing in the tree.
  lemma TypedKeeps(t: seq<Inode>, depth: seq<nat>, i: nat, n: Inode)
    requires Inv(t, depth) && 0 < i < |t| && t[i].nlink == 0 && n.nlink == 0
    ensures Inv(t[i := n], depth)
  {
    TypedParts(t, i, n);
    TypedTree(t, depth, i, t[i := n]);
  }

  // ---------------------------------------------------------------- create() of a directory

  // The step of MadeDir once the new directory is typed.
  function Raised(t: seq<Inode>, d: nat, name: string, i: nat): seq<Inode>
    requires d < |t| && i < |t| && d != i
  {
    var e := t[d].entries;
    t[d := t[d].(nlink := t[d].nlink + 1, entries := PutAt(e, FreeSlot(e, 0), Dirent(i, name)))][i := t[i].(nlink := 1)]
  }

  lemma RaisedCount(t: seq<Inode>, d: nat, name: string, i: nat, j: nat)
    requires d < |t| && 0 < i < |t| && 0 < j < |t| && d != i && LinkedDir(t[d]) && name != "."
    requires t[i] == Inode(Dir, 0, [Dirent(i, "."), Dirent(d, "..")]) && t[j].nlink == |Links(t, j)|
    ensures Raised(t, d, name, i)[j].nlink == |Links(Raised(t, d, name, i), j)|
  {
    var t' := Raised(t, d, name, i);
    var k := FreeSlot(t[d].entries, 0);
    if j == i { OneMore(t, t', i, d, k); }
    else if j == d { OneMore(t, t', d, i, 1); }
    else { Same(t, t', j); }
  }

  lemma RaisedAdds(t: seq<Inode>, d: nat, name: string, i: nat, slot: nat)
    requires d < |t| && i < |t| && d != i && LinkedDir(t[d]) && t[i].nlink == 0
    requires slot == FreeSlot(t[d].entries, 0) && 2 <= slot
    ensures Adds(t, Raised(t, d, name, i), d, slot)
  {
  }

  lemma RaisedDirs(t: seq<Inode>, depth: seq<nat>, d: nat, name: string, i: nat)
    requires CanLink(t, depth, d, name, i) && t[i] == Inode(Dir, 0, [Dirent(i, "."), Dirent(d, "..")])
    ensures DirInv(Raised(t, d, name, i))
  {
    var t' := Raised(t, d, name, i);
    forall x | 0 <= x < |t'| && LinkedDir(t'[x]) ensures DirOk(t', x) {
      if x == d { PutDirOk(t, t', depth, d, name, i); } else if x != i { assert DirOk(t, x); }
    }
  }

  lemma RaisedHangs(t: seq<Inode>, depth: seq<nat>, d: nat, name: string, i: nat, t': seq<Inode>, x: nat)
    requires d < |t| && 0 < i < |t| && d != i && LinkedDir(t[d])
    requires t[i] == Inode(Dir, 0, [Dirent(i, "."), Dirent(d, "..")])
    requires t' == Raised(t, d, name, i) && DirInv(t) && DirInv(t') && |depth| == |t|
    requires Adds(t, t', d, FreeSlot(t[d].entries, 0)) && 0 < x < |t| && LinkedDir(t'[x])
    requires x != i ==> LinkedDir(t[x]) && DirOk(t, x) && Hangs(t, depth, x)
    ensures Hangs(t', depth[i := depth[d] + 1], x)
  {
    assert DirOk(t', x);
    if x == i {
      assert t'[d].entries[FreeSlot(t[d].entries, 0)].inum == i;
    } else {
      HangsStill(t, t', depth, depth[i := depth[d] + 1], d, FreeSlot(t[d].entries, 0), x);
    }
  }

  // No directory entry names an inode without links.
  lemma NotNamed(t: seq<Inode>, i: nat, p: nat, k: nat)
    requires CountInv(t) && 0 < i < |t| && t[i].nlink == 0 && p < |t| && LinkedDir(t[p]) && DirOk(t, p)
    requires 2 <= k < |t[p].entries|
    ensures t[p].entries[k].inum != i
  {
    NoLinks(t, i, p, k);
    assert p > 0 && t[p].entries[0].inum == p;
  }

  lemma RaisedOnly(t: seq<Inode>, d: nat, name: string, i: nat, t': seq<Inode>, p: nat, k: nat)
    requires CountInv(t) && DirInv(t) && DirInv(t') && d < |t| && 0 < i < |t| && d != i && LinkedDir(t[d])
    requires name != "."
    requires t[i] == Inode(Dir, 0, [Dirent(i, "."), Dirent(d, "..")]) && t' == Raised(t, d, name, i)
    requires Adds(t, t', d, FreeSlot(t[d].entries, 0)) && p < |t| && LinkedDir(t[p]) && LinkedDir(t'[p]) && i != ROOT
    requires 2 <= k < |t'[p].entries|
    requires (p == d && k == FreeSlot(t[d].entries, 0)) || (k < |t[p].entries| && OnlyPlace(t, p, k))
    ensures OnlyPlace(t', p, k)
  {
    var slot := FreeSlot(t[d].entries, 0);
    assert t'[d].entries[slot].inum == i && DirOk(t, p) && DirOk(t, d);
    if p == d && k == slot {
      forall j | 2 <= j < |t'[d].entries| && t'[d].entries[j].inum == i ensures j == k {
        if j != k { NotNamed(t, i, d, j); }
      }
    } else {
      NotNamed(t, i, p, k);
      OnlyStill(t, t', d, slot, p, k);
    }
  }

  lemma RaisedTree(t: seq<Inode>, depth: seq<nat>, d: nat, name: string, i: nat, t': seq<Inode>, depth': seq<nat>)
    requires CountInv(t) && DirInv(t) && TreeInv(t, depth) && 0 < d < |t| && 0 < i < |t| && LinkedDir(t[d])
    requires name != "." && d != i
    requires t[i] == Inode(Dir, 0, [Dirent(i, "."), Dirent(d, "..")]) && depth' == depth[i := depth[d] + 1]
    requires t' == Raised(t, d, name, i) && DirInv(t') && Adds(t, t', d, FreeSlot(t[d].entries, 0))
    ensures TreeInv(t', depth')
  {
    forall x | 0 <= x < |t'| && LinkedDir(t'[x]) && x != ROOT ensures Hangs(t', depth', x) {
      assert x != i ==> LinkedDir(t[x]) && DirOk(t, x) && Hangs(t, depth, x);
      RaisedHangs(t, depth, d, name, i, t', x);
    }
    RaisedPlaces(t, depth, d, name, i, t');
    assert LinkedDir(t'[ROOT]) && DirOk(t, ROOT);
  }

  lemma RaisedPlaces(t: seq<Inode>, depth: seq<nat>, d: nat, name: string, i: nat, t': seq<Inode>)
    requires CountInv(t) && DirInv(t) && TreeInv(t, depth) && 0 < d < |t| && 0 < i < |t| && LinkedDir(t[d])
    requires name != "." && d != i
    requires t[i] == Inode(Dir, 0, [Dirent(i, "."), Dirent(d, "..")])
    requires t' == Raised(t, d, name, i) && DirInv(t') && Adds(t, t', d, FreeSlot(t[d].entries, 0))
    ensures forall p, k | 0 <= p < |t'| && LinkedDir(t'[p]) && 2 <= k < |t'[p].entries| :: OnlyPlace(t', p, k)
  {
    forall p, k | 0 <= p < |t'| && LinkedDir(t'[p]) && 2 <= k < |t'[p].entries| ensures OnlyPlace(t', p, k) {
      if p != i {
        assert LinkedDir(t[p]);
        assert k < |t[p].entries| ==> OnlyPlace(t, p, k);
        RaisedOnly(t, d, name, i, t', p, k);
      }
    }
  }

  lemma RaisedKeeps(t: seq<Inode>, depth: seq<nat>, d: nat, name: string, i: nat, depth': seq<nat>)
    requires CanLink(t, depth, d, name, i) && t[i] == Inode(Dir, 0, [Dirent(i, "."), Dirent(d, "..")])
    requires depth' == depth[i := depth[d] + 1]
    ensures Inv(Raised(t, d, name, i), depth')
  {
    var t' := Raised(t, d, name, i);
    var slot := SlotIsFree(t, depth, d);
    RaisedAdds(t, d, name, i, slot);
    forall j | 0 < j < |t'| ensures t'[j].nlink == |Links(t', j)| { RaisedCount(t, d, name, i, j); }
    RaisedDirs(t, depth, d, name, i);
    RaisedTree(t, depth, d, name, i, t', depth');
  }

  lemma MadeDirIs(t: seq<Inode>, d: nat, name: string, i: nat, t1: seq<Inode>)
    requires d < |t| && i < |t| && d != i && t1 == t[i := Inode(Dir, 0, [Dirent(i, "."), Dirent(d, "..")])]
    ensures t1[d] == t[d] && Raised(t1, d, name, i) == MadeDir(t, d, name, i)
  {
  }

  lemma StillCanLink(t: seq<Inode>, t1: seq<Inode>, depth: seq<nat>, d: nat, name: string, i: nat)
    requires CanLink(t, depth, d, name, i) && Inv(t1, depth) && |t1| == |t| && t1[d] == t[d]
    ensures CanLink(t1, depth, d, name, i)
  {
  }

  lemma MadeDirKeeps(t: seq<Inode>, depth: seq<nat>, d: nat, name: string, i: nat)
    requires CanLink(t, depth, d, name, i) && t[i].kind.Free?
    ensures Inv(MadeDir(t, d, name, i), depth[i := depth[d] + 1])
  {
    var n := Inode(Dir, 0, [Dirent(i, "."), Dirent(d, "..")]);
    var t1 := t[i := n];
    MadeDirIs(t, d, name, i, t1);
    TypedKeeps(t, depth, i, n);
    StillCanLink(t, t1, depth, d, name, i);
    RaisedKeeps(t1, depth, d, name, i, depth[i := depth[d] + 1]);
  }

  // ---------------------------------------------------------------- unlink()

  ghost predicate CanUnlink(t: seq<Inode>, depth: seq<nat>, d: nat, k: nat, i: nat) {
    && Inv(t, depth) && 0 < d < |t| && LinkedDir(t[d]) && 2 <= k < |t[d].entries| && t[d].entries[k].inum == i
    && 0 < i < |t|
    && (t[i].kind.Dir? ==> EmptyDir(t[i].entries))
  }

  // isdirempty()
  predicate EmptyDir(e: seq<Dirent>) {
    forall m | 2 <= m < |e| :: e[m].inum == 0
  }

  lemma LinkIsPlace(t: seq<Inode>, depth: seq<nat>, d: nat, k: nat, i: nat, x: nat, y: nat)
    requires DirInv(t) && |depth| == |t| && IsLink(t, i, x, y) && DirOk(t, x) && 0 < i < |t| && t[i].kind.Dir?
    requires EmptyDir(t[i].entries)
    requires 0 < x && LinkedDir(t[i]) && Parent(t, i) == d && i != ROOT && x != i
    requires d < |t| && LinkedDir(t[d]) && 2 <= k < |t[d].entries| && t[d].entries[k].inum == i && OnlyPlace(t, d, k)
    requires (y >= 2 ==> OnlyPlace(t, x, y)) && (x != ROOT ==> Hangs(t, depth, x))
    requires x == ROOT ==> Parent(t, x) == ROOT
    ensures x == d && y == k
  {
  }

  // An empty directory has exactly the one link from its parent.
  lemma EmptyDirOneLink(t: seq<Inode>, depth: seq<nat>, d: nat, k: nat, i: nat)
    requires CanUnlink(t, depth, d, k, i) && t[i].kind.Dir?
    ensures t[i].nlink == 1 && LinkedDir(t[i]) && |t[i].entries| >= 2 && t[i].entries[1].inum == d && d != i
    ensures i != ROOT
    ensures t[d].entries[k].name != "."
  {
    assert OnlyPlace(t, d, k) && DirOk(t, d);
    assert DirOk(t, i) && Hangs(t, depth, i);
    assert t[d].entries[0].inum == d && t[d].entries[k].name != ".";
    forall x: nat, y: nat | IsLink(t, i, x, y) ensures x == d && y == k {
      assert DirOk(t, x);
      assert y >= 2 ==> OnlyPlace(t, x, y);
      assert x != ROOT ==> Hangs(t, depth, x);
      LinkIsPlace(t, depth, d, k, i, x, y);
    }
    assert Links(t, i) == {(d, k)};
  }

  predicate HasDots(e: seq<Dirent>, i: nat, d: nat) {
    |e| >= 2 && e[0] == Dirent(i, ".") && e[1] == Dirent(d, "..")
  }

  // Links, after the entry (d, k) of i went away.
  lemma UnlinkedCount(t: seq<Inode>, d: nat, k: nat, i: nat, j: nat)
    requires 0 < d < |t| && 0 < i < |t| && 0 < j < |t| && d != i && LinkedDir(t[d]) && 2 <= k < |t[d].entries|
    requires t[d].entries[k].inum == i && t[d].entries[k].name != "." && t[j].nlink == |Links(t, j)|
    requires t[i].kind.Dir? ==>
      t[i].nlink == 1 && t[d].nlink > 1 && EmptyDir(t[i].entries) && HasDots(t[i].entries, i, d)
    ensures Unlinked(t, d, k, i)[j].nlink == |Links(Unlinked(t, d, k, i), j)|
  {
    var t' := Unlinked(t, d, k, i);
    if j == i { OneMore(t', t, i, d, k); }
    else if j == d && t[i].kind.Dir? { OneMore(t', t, d, i, 1); }
    else { Same(t, t', j); }
  }

  lemma TwoLinks(t: seq<Inode>, d: nat, a: nat, j: nat, b: nat, k: nat)
    requires 0 < d < |t| && t[d].nlink == |Links(t, d)| && IsLink(t, d, a, j) && IsLink(t, d, b, k)
    requires a != b || j != k
    ensures t[d].nlink > 1
  {
    assert {(a, j), (b, k)} <= Links(t, d);
    Bigger({(a, j), (b, k)}, Links(t, d));
    assert |{(a, j), (b, k)}| == 2;
  }

  // The place of a directory is a link to it.
  lemma PlaceIsLink(t: seq<Inode>, depth: seq<nat>, d: nat) returns (m: nat)
    requires DirInv(t) && 0 < d < |t| && DirOk(t, d) && |depth| == |t| && Hangs(t, depth, d)
    requires DirOk(t, Parent(t, d)) && Parent(t, d) > 0
    ensures m >= 2 && IsLink(t, d, Parent(t, d), m)
  {
    var p := Parent(t, d);
    m :| 2 <= m < |t[p].entries| && t[p].entries[m].inum == d;
    assert t[p].entries[0].name == ".";
  }

  // A directory with a subdirectory has that one's ".." beside its own link.
  lemma ParentCount(t: seq<Inode>, depth: seq<nat>, d: nat, i: nat)
    requires Inv(t, depth) && 0 < d < |t| && 0 < i < |t| && LinkedDir(t[d]) && LinkedDir(t[i]) && d != i
    requires HasDots(t[i].entries, i, d)
    ensures t[d].nlink > 1
  {
    assert DirOk(t, d);
    if d == ROOT {
      TwoLinks(t, d, i, 1, d, 1);
    } else {
      assert Hangs(t, depth, d);
      assert DirOk(t, Parent(t, d));
      var m := PlaceIsLink(t, depth, d);
      TwoLinks(t, d, i, 1, Parent(t, d), m);
    }
  }

  lemma {:induction false} Bigger(a: set<(nat, nat)>, b: set<(nat, nat)>)
    requires a <= b
    ensures |a| <= |b|
  {
    assert b == a + (b - a);
  }

  lemma UnlinkedDirs(t: seq<Inode>, d: nat, k: nat, i: nat)
    requires DirInv(t) && d < |t| && i < |t| && d != i && LinkedDir(t[d]) && 2 <= k < |t[d].entries|
    ensures DirInv(Unlinked(t, d, k, i))
  {
    var t' := Unlinked(t, d, k, i);
    forall x | 0 <= x < |t'| && LinkedDir(t'[x]) ensures DirOk(t', x) {
      assert LinkedDir(t[x]) && DirOk(t, x);
    }
  }

  // A place of another directory survives.
  lemma UnlinkedHangs(t: seq<Inode>, depth: seq<nat>, d: nat, k: nat, i: nat, t': seq<Inode>, x: nat)
    requires DirInv(t) && DirInv(t') && d < |t| && 0 < i < |t| && d != i && LinkedDir(t[d]) && 2 <= k < |t[d].entries|
    requires t[d].entries[k].inum == i
    requires t' == Unlinked(t, d, k, i) && 0 < x < |t| && LinkedDir(t[x]) && LinkedDir(t'[x]) && |depth| == |t|
    requires (t[i].kind.Dir? ==> t[i].nlink == 1 && t[d].nlink > 1 && EmptyDir(t[i].entries)) && Hangs(t, depth, x)
    requires DirOk(t, x) && DirOk(t', x)
    ensures Hangs(t', depth, x)
  {
    var p := Parent(t, x);
    var m :| 2 <= m < |t[p].entries| && t[p].entries[m].inum == x;
    assert x != i;
    assert t'[p].entries[m].inum == x;
  }

  lemma UnlinkedOnly(t: seq<Inode>, d: nat, k: nat, i: nat, t': seq<Inode>, p: nat, m: nat)
    requires DirInv(t) && DirInv(t') && d < |t| && 0 < i < |t| && d != i && LinkedDir(t[d]) && 2 <= k < |t[d].entries|
    requires t[d].entries[k].inum == i
    requires t' == Unlinked(t, d, k, i) && p < |t| && LinkedDir(t[p]) && LinkedDir(t'[p]) && 2 <= m < |t[p].entries|
    requires (t[i].kind.Dir? ==> t[i].nlink == 1 && t[d].nlink > 1 && HasDots(t[i].entries, i, d)) && OnlyPlace(t, p, m)
    requires OnlyPlace(t, d, k)
    ensures OnlyPlace(t', p, m)
  {
    var c := t[p].entries[m].inum;
    assert DirOk(t, p);
    if t'[p].entries[m].inum != 0 && t'[c].kind.Dir? {
      assert LinkedDir(t[c]) && Parent(t, c) == p && DirOk(t, c);
      assert c != i;
      assert forall j | 2 <= j < |t'[p].entries| && t'[p].entries[j].inum == c :: t[p].entries[j].inum == c;
    }
  }

  lemma UnlinkedPlaces(t: seq<Inode>, depth: seq<nat>, d: nat, k: nat, i: nat, t': seq<Inode>)
    requires DirInv(t) && TreeInv(t, depth) && d < |t| && 0 < i < |t| && d != i && LinkedDir(t[d])
    requires 2 <= k < |t[d].entries|
    requires t[d].entries[k].inum == i && t' == Unlinked(t, d, k, i) && DirInv(t')
    requires t[i].kind.Dir? ==> t[i].nlink == 1 && t[d].nlink > 1 && HasDots(t[i].entries, i, d) && i != ROOT
    ensures forall p, m | 0 <= p < |t'| && LinkedDir(t'[p]) && 2 <= m < |t'[p].entries| :: OnlyPlace(t', p, m)
  {
    assert OnlyPlace(t, d, k);
    forall p, m | 0 <= p < |t'| && LinkedDir(t'[p]) && 2 <= m < |t'[p].entries| ensures OnlyPlace(t', p, m) {
      assert LinkedDir(t[p]) && OnlyPlace(t, p, m);
      UnlinkedOnly(t, d, k, i, t', p, m);
    }
  }

  lemma UnlinkedTree(t: seq<Inode>, depth: seq<nat>, d: nat, k: nat, i: nat, t': seq<Inode>)
    requires DirInv(t) && TreeInv(t, depth) && d < |t| && 0 < i < |t| && d != i && LinkedDir(t[d])
    requires 2 <= k < |t[d].entries|
    requires t[d].entries[k].inum == i && t' == Unlinked(t, d, k, i) && DirInv(t')
    requires t[i].kind.Dir? ==> EmptyDir(t[i].entries)
    requires t[i].kind.Dir? ==> t[i].nlink == 1 && t[d].nlink > 1 && HasDots(t[i].entries, i, d) && i != ROOT
    requires t[0].kind.Free?
    ensures TreeInv(t', depth)
  {
    assert DirOk(t, ROOT);
    forall x | 0 <= x < |t'| && LinkedDir(t'[x]) && x != ROOT ensures Hangs(t', depth, x) {
      assert LinkedDir(t[x]) && Hangs(t, depth, x) && DirOk(t, x) && DirOk(t', x);
      UnlinkedHangs(t, depth, d, k, i, t', x);
    }
    UnlinkedPlaces(t, depth, d, k, i, t');
  }

  lemma UnlinkedCounts(t: seq<Inode>, d: nat, k: nat, i: nat, t': seq<Inode>)
    requires CountInv(t) && 0 < d < |t| && 0 < i < |t| && d != i && LinkedDir(t[d]) && 2 <= k < |t[d].entries|
    requires t[d].entries[k].inum == i && t[d].entries[k].name != "." && !t[i].kind.Free? && t' == Unlinked(t, d, k, i)
    requires t[i].kind.Dir? ==>
      t[i].nlink == 1 && t[d].nlink > 1 && EmptyDir(t[i].entries) && HasDots(t[i].entries, i, d)
    ensures CountInv(t')
  {
    forall j | 0 < j < |t'| ensures t'[j].nlink == |Links(t', j)| { UnlinkedCount(t, d, k, i, j); }
  }

  lemma UnlinkedKeeps(t: seq<Inode>, depth: seq<nat>, d: nat, k: nat, i: nat)
    requires CanUnlink(t, depth, d, k, i)
    ensures d != i && t[i].nlink > 0 && Inv(Unlinked(t, d, k, i), depth)
  {
    UnlinkFacts(t, depth, d, k, i);
    var t' := Unlinked(t, d, k, i);
    UnlinkedCounts(t, d, k, i, t');
    UnlinkedDirs(t, d, k, i);
    UnlinkedTree(t, depth, d, k, i, t');
  }

  lemma UnlinkFacts(t: seq<Inode>, depth: seq<nat>, d: nat, k: nat, i: nat)
    requires CanUnlink(t, depth, d, k, i)
    ensures d != i && t[i].nlink > 0 && t[d].entries[k].name != "." && !t[i].kind.Free? && i != 0
    ensures t[i].kind.Dir? ==> t[i].nlink == 1 && t[d].nlink > 1 && HasDots(t[i].entries, i, d) && i != ROOT
  {
    assert DirOk(t, d);
    assert t[d].entries[0].inum == d && t[d].entries[k].name != ".";
    LinkedIsUsed(t, i, d, k);
    if t[i].kind.Dir? {
      EmptyDirOneLink(t, depth, d, k, i);
      assert DirOk(t, i);
      ParentCount(t, depth, d, i);
    }
  }
}
