// Who owns which block: the partition that balloc, bmap and itrunc keep.

module FsInvariant {
  import opened FsDisk

  ghost predicate Sized(g: Geo, fs: Fs) {
    && ValidGeo(g) && |fs.blocks| == g.size && |fs.inodes| == |fs.dinodes| == g.ninodes
    && BlockSizes(g, fs.blocks)
    && (forall i | 0 <= i < g.ninodes :: |fs.inodes[i].addrs| == g.ndirect + 1)
  }

  predicate BlockSizes(g: Geo, blocks: seq<Block>) {
    forall b {:trigger blocks[b]} | 0 <= b < |blocks| :: |blocks[b]| == g.bsize
  }

  function Slots(g: Geo): nat {
    g.ndirect + 1 + NIndirect(g)
  }

  // The slot of file block bn: slot ndirect is the indirect block itself.
  function Slot(g: Geo, bn: nat): nat {
    if bn < g.ndirect then bn else bn + 1
  }

  // The block number in slot k of inode i, 0 for none.
  function Addr(g: Geo, fs: Fs, i: nat, k: nat): nat
    requires i < |fs.inodes| && k < Slots(g) && |fs.inodes[i].addrs| == g.ndirect + 1
    requires BlockSizes(g, fs.blocks)
  {
    if k <= g.ndirect then fs.inodes[i].addrs[k]
    else
      var ind := fs.inodes[i].addrs[g.ndirect];
      if 0 < ind < |fs.blocks| then Entry(fs.blocks[ind], k - g.ndirect - 1) else 0
  }

  predicate Used(g: Geo, fs: Fs, b: nat)
    requires g.bpb == 8 * g.bsize && g.bsize > 0 && b < g.size && BBlock(g, b) < |fs.blocks|
    requires |fs.blocks[BBlock(g, b)]| == g.bsize
  {
    Bit(fs.blocks[BBlock(g, b)], b % g.bpb)
  }

  ghost predicate OwnedBy(g: Geo, fs: Fs, b: nat, i: nat, k: nat)
    requires Sized(g, fs)
  {
    i < g.ninodes && k < Slots(g) && b != 0 && Addr(g, fs, i, k) == b
  }

  ghost predicate Owned(g: Geo, fs: Fs, b: nat)
    requires Sized(g, fs)
  {
    exists i: nat, k: nat :: OwnedBy(g, fs, b, i, k)
  }

  // Owned blocks are data blocks of the file system.
  ghost predicate InRange(g: Geo, fs: Fs)
    requires Sized(g, fs)
  {
    forall i: nat, k: nat {:trigger Addr(g, fs, i, k)} | i < g.ninodes && k < Slots(g) ::
      Addr(g, fs, i, k) == 0 || g.dstart <= Addr(g, fs, i, k) < g.size
  }

  // No block has two owners, and none has two places in one inode.
  ghost predicate Disjoint(g: Geo, fs: Fs)
    requires Sized(g, fs)
  {
    forall b: nat, i: nat, k: nat, i': nat, k': nat |
      OwnedBy(g, fs, b, i, k) && OwnedBy(g, fs, b, i', k') :: i == i' && k == k'
  }

  // The bitmap: metadata, owned blocks, blocks allocated and not yet linked
  // (extra); without the blocks freed and not yet unlinked (missing).
  ghost predicate Bitmap(g: Geo, fs: Fs, extra: set<nat>, missing: set<nat>)
    requires Sized(g, fs)
  {
    && (forall b: nat {:trigger Used(g, fs, b)} | b < g.size ::
          Used(g, fs, b) <==> (b < g.dstart || Owned(g, fs, b) || b in extra) && b !in missing)
    && (forall b | b in extra :: g.dstart <= b < g.size && !Owned(g, fs, b))
    && (forall b | b in missing :: Owned(g, fs, b) && g.dstart <= b)
  }

  ghost predicate Inv(g: Geo, fs: Fs, extra: set<nat>, missing: set<nat>) {
    Sized(g, fs) && InRange(g, fs) && Disjoint(g, fs) && Bitmap(g, fs, extra, missing)
  }

  // ---------------------------------------------------------------- marking blocks

  // The bitmap block of b with b's bit flipped.
  function Mark(g: Geo, fs: Fs, b: nat, on: bool): (r: Fs)
    requires g.bpb == 8 * g.bsize && g.bsize > 0 && b < g.size && BBlock(g, b) < |fs.blocks|
    requires |fs.blocks[BBlock(g, b)]| == g.bsize && Used(g, fs, b) == !on
  {
    var m := BBlock(g, b);
    fs.(blocks := fs.blocks[m := FlipTo(fs.blocks[m], b % g.bpb, on)])
  }

  lemma DivModSame(a: nat, b: nat, d: nat)
    requires d > 0 && a / d == b / d && a % d == b % d
    ensures a == b
  {
    assert a == a / d * d + a % d;
    assert b == b / d * d + b % d;
  }

  lemma MarkUsed(g: Geo, fs: Fs, b: nat, on: bool, c: nat)
    requires Sized(g, fs) && b < g.size && c < g.size && Used(g, fs, b) == !on
    ensures Sized(g, Mark(g, fs, b, on))
    ensures Used(g, Mark(g, fs, b, on), c) == if c == b then on else Used(g, fs, c)
  {
    var m := BBlock(g, b);
    FlipToBits(fs.blocks[m], b % g.bpb, on, c % g.bpb);
    if BBlock(g, c) == m && c % g.bpb == b % g.bpb { DivModSame(c, b, g.bpb); }
  }

  // The inodes read no metadata block.
  lemma MarkKeepsAddr(g: Geo, fs: Fs, b: nat, on: bool, i: nat, k: nat)
    requires Sized(g, fs) && InRange(g, fs) && b < g.size && Used(g, fs, b) == !on && i < g.ninodes && k < Slots(g)
    ensures Sized(g, Mark(g, fs, b, on)) && Addr(g, Mark(g, fs, b, on), i, k) == Addr(g, fs, i, k)
  {
    assert Addr(g, fs, i, g.ndirect) == fs.inodes[i].addrs[g.ndirect];
  }

  // Two states with the same addresses have the same owners.
  ghost predicate SameAddrs(g: Geo, fs: Fs, fs': Fs)
    requires Sized(g, fs) && Sized(g, fs')
  {
    forall i: nat, k: nat {:trigger Addr(g, fs', i, k)} | i < g.ninodes && k < Slots(g) ::
      Addr(g, fs', i, k) == Addr(g, fs, i, k)
  }

  lemma SameOwners(g: Geo, fs: Fs, fs': Fs)
    requires Sized(g, fs) && Sized(g, fs') && SameAddrs(g, fs, fs')
    ensures forall b: nat, i: nat, k: nat :: OwnedBy(g, fs', b, i, k) <==> OwnedBy(g, fs, b, i, k)
    ensures forall b: nat :: Owned(g, fs', b) <==> Owned(g, fs, b)
  {
    forall b: nat ensures Owned(g, fs', b) <==> Owned(g, fs, b) {
      if Owned(g, fs, b) {
        var i, k :| OwnedBy(g, fs, b, i, k);
        assert OwnedBy(g, fs', b, i, k);
      }
      if Owned(g, fs', b) {
        var i, k :| OwnedBy(g, fs', b, i, k);
        assert OwnedBy(g, fs, b, i, k);
      }
    }
  }

  lemma MarkSame(g: Geo, fs: Fs, b: nat, on: bool)
    requires Sized(g, fs) && InRange(g, fs) && b < g.size && Used(g, fs, b) == !on
    ensures Sized(g, Mark(g, fs, b, on)) && SameAddrs(g, fs, Mark(g, fs, b, on))
  {
    forall i: nat, k: nat | i < g.ninodes && k < Slots(g)
      ensures Addr(g, Mark(g, fs, b, on), i, k) == Addr(g, fs, i, k)
    {
      MarkKeepsAddr(g, fs, b, on, i, k);
    }
  }

  lemma SameKeepsRange(g: Geo, fs: Fs, fs': Fs)
    requires Sized(g, fs) && Sized(g, fs') && SameAddrs(g, fs, fs') && InRange(g, fs) && Disjoint(g, fs)
    ensures InRange(g, fs') && Disjoint(g, fs')
  {
    SameOwners(g, fs, fs');
  }

  // balloc, first half: a free block becomes allocated and unlinked.
  lemma AllocInv(g: Geo, fs: Fs, extra: set<nat>, b: nat)
    requires Inv(g, fs, extra, {}) && b < g.size && !Used(g, fs, b)
    ensures Inv(g, Mark(g, fs, b, true), extra + {b}, {})
    ensures g.dstart <= b && !Owned(g, fs, b) && b !in extra
  {
    var fs' := Mark(g, fs, b, true);
    MarkSame(g, fs, b, true);
    SameOwners(g, fs, fs');
    SameKeepsRange(g, fs, fs');
    forall c: nat | c < g.size ensures Used(g, fs', c) == (if c == b then true else Used(g, fs, c)) {
      MarkUsed(g, fs, b, true, c);
    }
  }

  // bfree of an owned block: it is free although its owner still names it.
  lemma FreeInv(g: Geo, fs: Fs, missing: set<nat>, b: nat)
    requires Inv(g, fs, {}, missing) && Owned(g, fs, b) && b !in missing
    ensures g.dstart <= b < g.size && Used(g, fs, b)
    ensures Inv(g, Mark(g, fs, b, false), {}, missing + {b})
  {
    var i, k :| OwnedBy(g, fs, b, i, k);
    assert g.dstart <= Addr(g, fs, i, k) < g.size;
    var fs' := Mark(g, fs, b, false);
    MarkSame(g, fs, b, false);
    SameOwners(g, fs, fs');
    SameKeepsRange(g, fs, fs');
    forall c: nat | c < g.size ensures Used(g, fs', c) == (if c == b then false else Used(g, fs, c)) {
      MarkUsed(g, fs, b, false, c);
    }
  }
}
