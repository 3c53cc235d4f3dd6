// Directories and link counts: the tree of sysfile.c and fs.c.

module DirTree {

  const ROOT := 1

  datatype Kind = Free | File | Device | Dir
  datatype Dirent = Dirent(inum: nat, name: string)
  datatype Inode = Inode(kind: Kind, nlink: int, entries: seq<Dirent>)

  const EMPTY := Dirent(0, "")

  predicate LinkedDir(n: Inode) {
    n.kind.Dir? && n.nlink > 0
  }

  // Entry k of directory d is a link to inode i. "." does not count.
  predicate IsLink(t: seq<Inode>, i: nat, d: nat, k: nat) {
    && d < |t| && LinkedDir(t[d]) && k < |t[d].entries|
    && t[d].entries[k].inum == i && t[d].entries[k].name != "."
  }

  function Links(t: seq<Inode>, i: nat): set<(nat, nat)> {
    set d: nat, k: nat | d < |t| && k < |t[d].entries| && IsLink(t, i, d, k) :: (d, k)
  }

  // ---------------------------------------------------------------- the invariant

  // nlink is the number of links.
  ghost predicate CountInv(t: seq<Inode>) {
    && |t| > ROOT && t[0].kind.Free?
    && (forall i {:trigger Links(t, i)} | 0 < i < |t| :: t[i].nlink == |Links(t, i)|)
    && (forall i | 0 <= i < |t| && t[i].kind.Free? :: t[i].nlink == 0)
  }

  // "." and ".." come first, and names are unique.
  ghost predicate DirOk(t: seq<Inode>, d: nat)
    requires d < |t|
  {
    var e := t[d].entries;
    && |e| >= 2 && e[0] == Dirent(d, ".") && e[1].name == ".." && 0 < e[1].inum < |t|
    && (forall k | 0 <= k < |e| :: e[k].inum < |t|)
    && (forall j, k | 0 <= j < k < |e| && e[j].inum != 0 && e[k].inum != 0 :: e[j].name != e[k].name)
  }

  ghost predicate DirInv(t: seq<Inode>) {
    forall d {:trigger DirOk(t, d)} | 0 <= d < |t| && LinkedDir(t[d]) :: DirOk(t, d)
  }

  function Parent(t: seq<Inode>, d: nat): nat
    requires d < |t|
  {
    if |t[d].entries| >= 2 then t[d].entries[1].inum else 0
  }

  // Directory d has a place in its parent, which is nearer to the root.
  ghost predicate Hangs(t: seq<Inode>, depth: seq<nat>, d: nat)
    requires d < |t| && DirOk(t, d) && |depth| == |t|
  {
    var p := Parent(t, d);
    LinkedDir(t[p]) && depth[p] < depth[d] && exists k :: 2 <= k < |t[p].entries| && t[p].entries[k].inum == d
  }

  // Entry k of directory p, if it names a directory, is that directory's only place.
  ghost predicate OnlyPlace(t: seq<Inode>, p: nat, k: nat)
    requires p < |t| && DirInv(t) && LinkedDir(t[p]) && 2 <= k < |t[p].entries|
  {
    var c := t[p].entries[k].inum;
    0 < c < |t| && t[c].kind.Dir? ==>
      && c != ROOT && LinkedDir(t[c]) && Parent(t, c) == p
      && forall j | 2 <= j < |t[p].entries| && t[p].entries[j].inum == c :: j == k
  }

  // The linked directories are a tree under the root.
  ghost predicate TreeInv(t: seq<Inode>, depth: seq<nat>)
    requires DirInv(t)
  {
    && |t| > ROOT && |depth| == |t| && LinkedDir(t[ROOT]) && Parent(t, ROOT) == ROOT
    && (forall d {:trigger Hangs(t, depth, d)} | 0 <= d < |t| && LinkedDir(t[d]) && d != ROOT :: Hangs(t, depth, d))
    && (forall p, k {:trigger OnlyPlace(t, p, k)} | 0 <= p < |t| && LinkedDir(t[p]) && 2 <= k < |t[p].entries| ::
          OnlyPlace(t, p, k))
  }

  ghost predicate Inv(t: seq<Inode>, depth: seq<nat>) {
    CountInv(t) && DirInv(t) && TreeInv(t, depth)
  }

  // ---------------------------------------------------------------- directories as lists

  // dirlookup()
  function Lookup(e: seq<Dirent>, name: string, from: nat): (r: nat)
    requires from <= |e|
    ensures from <= r <= |e| && (r < |e| ==> e[r].inum != 0 && e[r].name == name)
    decreases |e| - from
  {
    if from == |e| || (e[from].inum != 0 && e[from].name == name) then from else Lookup(e, name, from + 1)
  }

  predicate Has(e: seq<Dirent>, name: string) {
    exists k :: 0 <= k < |e| && e[k].inum != 0 && e[k].name == name
  }

  lemma {:induction false} LookupFinds(e: seq<Dirent>, name: string, from: nat)
    requires from <= |e|
    ensures Lookup(e, name, from) < |e| <==> exists k :: from <= k < |e| && e[k].inum != 0 && e[k].name == name
    decreases |e| - from
  {
    if from < |e| { LookupFinds(e, name, from + 1); }
  }

  // The slot dirlink() uses: the first empty one, or a new one at the end.
  function FreeSlot(e: seq<Dirent>, from: nat): (r: nat)
    requires from <= |e|
    ensures from <= r <= |e| && (r < |e| ==> e[r].inum == 0) && forall k | from <= k < r :: e[k].inum != 0
    decreases |e| - from
  {
    if from == |e| || e[from].inum == 0 then from else FreeSlot(e, from + 1)
  }

  function PutAt(e: seq<Dirent>, k: nat, x: Dirent): seq<Dirent>
    requires k <= |e|
  {
    if k == |e| then e + [x] else e[k := x]
  }

  // ---------------------------------------------------------------- the operations

  // A new link to i in directory d.
  function Linked(t: seq<Inode>, d: nat, name: string, i: nat): seq<Inode>
    requires d < |t| && i < |t| && d != i
  {
    var e := t[d].entries;
    t[d := t[d].(entries := PutAt(e, FreeSlot(e, 0), Dirent(i, name)))][i := t[i].(nlink := t[i].nlink + 1)]
  }

  // A new inode i that is not a directory, linked into d.
  function Created(t: seq<Inode>, d: nat, name: string, i: nat, kind: Kind): seq<Inode>
    requires d < |t| && i < |t| && d != i
  {
    Linked(t[i := Inode(kind, 0, [])], d, name, i)
  }

  // A new directory i under d.
  function MadeDir(t: seq<Inode>, d: nat, name: string, i: nat): seq<Inode>
    requires d < |t| && i < |t| && d != i
  {
    var e := t[d].entries;
    t[d := t[d].(nlink := t[d].nlink + 1, entries := PutAt(e, FreeSlot(e, 0), Dirent(i, name)))]
     [i := Inode(Dir, 1, [Dirent(i, "."), Dirent(d, "..")])]
  }

  // Entry k of d, which names i, is cleared.
  function Unlinked(t: seq<Inode>, d: nat, k: nat, i: nat): seq<Inode>
    requires d < |t| && i < |t| && d != i && k < |t[d].entries|
  {
    var lost := if t[i].kind.Dir? then 1 else 0;
    t[d := t[d].(nlink := t[d].nlink - lost, entries := t[d].entries[k := EMPTY])][i := t[i].(nlink := t[i].nlink - 1)]
  }

  // iput() of the last reference.
  function Dropped(t: seq<Inode>, i: nat): seq<Inode>
    requires i < |t|
  {
    if t[i].nlink == 0 then t[i := Inode(Free, 0, [])] else t
  }
}
