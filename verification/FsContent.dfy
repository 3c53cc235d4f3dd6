// The byte string a file holds, and what leaves it alone.

module FsContent {
  import opened FsDisk
  import opened FsInvariant
  import opened FsOwnership

  // Byte p of inode i, through the direct slots and the indirect block.
  function ByteAt(g: Geo, fs: Fs, i: nat, p: nat): byte
    requires Sized(g, fs) && i < g.ninodes
  {
    if BlockOf(g, p) < MaxFile(g) then
      var a := Addr(g, fs, i, Slot(g, BlockOf(g, p)));
      if 0 < a < g.size then fs.blocks[a][OffIn(g, p)] else 0
    else 0
  }

  function Content(g: Geo, fs: Fs, i: nat): (s: seq<byte>)
    requires Sized(g, fs) && i < g.ninodes
    ensures |s| == fs.inodes[i].size
  {
    seq(fs.inodes[i].size, p requires 0 <= p < fs.inodes[i].size => ByteAt(g, fs, i, p))
  }

  // Every block that holds one of the first n bytes is mapped.
  ghost predicate MappedTo(g: Geo, fs: Fs, i: nat, n: nat)
    requires Sized(g, fs) && i < g.ninodes
  {
    forall p: nat {:trigger BlockOf(g, p)} | p < n ::
      BlockOf(g, p) < MaxFile(g) && Addr(g, fs, i, Slot(g, BlockOf(g, p))) != 0
  }

  // Inode i has no hole below its size.
  ghost predicate Whole(g: Geo, fs: Fs, i: nat)
    requires Sized(g, fs) && i < g.ninodes
  {
    MappedTo(g, fs, i, fs.inodes[i].size)
  }

  // Blocks may be added to inode i; nothing that was mapped moves or changes.
  ghost predicate Extends(g: Geo, fs: Fs, fs': Fs, i: nat)
    requires Sized(g, fs) && Sized(g, fs') && i < g.ninodes
  {
    && fs'.dinodes == fs.dinodes
    && (forall j: nat {:trigger fs'.inodes[j]} | j < g.ninodes ::
          fs'.inodes[j] == fs.inodes[j].(addrs := fs'.inodes[j].addrs))
    && (forall j: nat, k: nat {:trigger Addr(g, fs', j, k)} |
          j < g.ninodes && k < Slots(g) && (j != i || Addr(g, fs, j, k) != 0) ::
          Addr(g, fs', j, k) == Addr(g, fs, j, k))
    && (forall j: nat, k: nat | j < g.ninodes && k < Slots(g) && k != g.ndirect && 0 < Addr(g, fs, j, k) < g.size ::
          fs'.blocks[Addr(g, fs, j, k)] == fs.blocks[Addr(g, fs, j, k)])
  }

  lemma ExtendsTransitive(g: Geo, fs: Fs, fs1: Fs, fs2: Fs, i: nat)
    requires Sized(g, fs) && Sized(g, fs1) && Sized(g, fs2) && i < g.ninodes
    requires Extends(g, fs, fs1, i) && Extends(g, fs1, fs2, i)
    ensures Extends(g, fs, fs2, i)
  {
    forall j: nat, k: nat | j < g.ninodes && k < Slots(g) && k != g.ndirect && 0 < Addr(g, fs, j, k) < g.size
      ensures fs2.blocks[Addr(g, fs, j, k)] == fs.blocks[Addr(g, fs, j, k)]
    {
      assert Addr(g, fs1, j, k) == Addr(g, fs, j, k);
    }
    assert forall j: nat, k: nat | j < g.ninodes && k < Slots(g) && (j != i || Addr(g, fs, j, k) != 0) ::
        Addr(g, fs1, j, k) == Addr(g, fs, j, k);
  }

  lemma ExtendsBytes(g: Geo, fs: Fs, fs': Fs, i: nat, j: nat, p: nat)
    requires Sized(g, fs) && Sized(g, fs') && i < g.ninodes && j < g.ninodes && Extends(g, fs, fs', i)
    requires InRange(g, fs)
    requires BlockOf(g, p) < MaxFile(g) && Addr(g, fs, j, Slot(g, BlockOf(g, p))) != 0
    ensures ByteAt(g, fs', j, p) == ByteAt(g, fs, j, p)
    ensures Addr(g, fs', j, Slot(g, BlockOf(g, p))) == Addr(g, fs, j, Slot(g, BlockOf(g, p)))
  {
  }

  // ---------------------------------------------------------------- balloc

  // Mark b used and clear it.
  function Allocate(g: Geo, fs: Fs, b: nat): Fs
    requires Sized(g, fs) && b < g.size && !Used(g, fs, b)
  {
    var fs1 := Mark(g, fs, b, true);
    fs1.(blocks := fs1.blocks[b := Zeroes(g.bsize)])
  }

  lemma AllocateInv(g: Geo, fs: Fs, extra: set<nat>, b: nat, i: nat)
    requires Inv(g, fs, extra, {}) && b < g.size && !Used(g, fs, b) && i < g.ninodes
    ensures g.dstart <= b && b !in extra && !Owned(g, fs, b)
    ensures Inv(g, Allocate(g, fs, b), extra + {b}, {})
    ensures SameAddrs(g, fs, Allocate(g, fs, b)) && Extends(g, fs, Allocate(g, fs, b), i)
  {
    var fs1 := Mark(g, fs, b, true);
    AllocInv(g, fs, extra, b);
    MarkSame(g, fs, b, true);
    ExtraIsNoIndirect(g, fs1, extra + {b}, b);
    OverwriteInv(g, fs1, extra + {b}, b, Zeroes(g.bsize));
    var fs2 := Allocate(g, fs, b);
    forall j: nat, k: nat | j < g.ninodes && k < Slots(g) && 0 < Addr(g, fs, j, k) < g.size
      ensures fs2.blocks[Addr(g, fs, j, k)] == fs.blocks[Addr(g, fs, j, k)]
    {
      assert OwnedBy(g, fs, Addr(g, fs, j, k), j, k);
    }
  }

  // ---------------------------------------------------------------- links extend

  lemma DirectExtends(g: Geo, fs: Fs, i: nat, k: nat, b: nat)
    requires Sized(g, fs) && i < g.ninodes && k <= g.ndirect && Sized(g, SetAddr(fs, i, k, b))
    requires LinksOne(g, fs, SetAddr(fs, i, k, b), i, k, b)
    ensures Extends(g, fs, SetAddr(fs, i, k, b), i)
  {
  }

  lemma EntryExtends(g: Geo, fs: Fs, i: nat, e: nat, b: nat)
    requires Inv(g, fs, {b}, {}) && b < U32 && i < g.ninodes && e < NIndirect(g)
    requires Addr(g, fs, i, g.ndirect) != 0 && Addr(g, fs, i, g.ndirect + 1 + e) == 0
    requires Addr(g, fs, i, g.ndirect) < g.size
    requires Sized(g, SetEntry(g, fs, Addr(g, fs, i, g.ndirect), e, b))
    requires LinksOne(g, fs, SetEntry(g, fs, Addr(g, fs, i, g.ndirect), e, b), i, g.ndirect + 1 + e, b)
    ensures Extends(g, fs, SetEntry(g, fs, Addr(g, fs, i, g.ndirect), e, b), i)
  {
    var ind := Addr(g, fs, i, g.ndirect);
    forall j: nat, k: nat | j < g.ninodes && k < Slots(g) && k != g.ndirect && 0 < Addr(g, fs, j, k) < g.size
      ensures Addr(g, fs, j, k) != ind
    {
      assert OwnedBy(g, fs, ind, i, g.ndirect);
      if Addr(g, fs, j, k) == ind { assert OwnedBy(g, fs, ind, j, k); }
    }
  }

  // ---------------------------------------------------------------- writing data

  function Splice(b: Block, r: nat, data: seq<byte>): (v: Block)
    requires r + |data| <= |b|
    ensures |v| == |b|
  {
    b[..r] + data + b[r + |data|..]
  }

  // memmove into the data block in slot k of inode i.
  function WriteBlock(g: Geo, fs: Fs, a: nat, r: nat, data: seq<byte>): Fs
    requires Sized(g, fs) && a < g.size && r + |data| <= g.bsize
  {
    fs.(blocks := fs.blocks[a := Splice(fs.blocks[a], r, data)])
  }

  lemma WriteBlockInv(g: Geo, fs: Fs, i: nat, k: nat, r: nat, data: seq<byte>)
    requires Inv(g, fs, {}, {}) && i < g.ninodes && k < Slots(g) && k != g.ndirect
    requires Addr(g, fs, i, k) != 0 && r + |data| <= g.bsize
    ensures g.dstart <= Addr(g, fs, i, k) < g.size
    ensures var fs' := WriteBlock(g, fs, Addr(g, fs, i, k), r, data); Inv(g, fs', {}, {}) && SameAddrs(g, fs, fs')
  {
    DataIsNoIndirect(g, fs, {}, i, k);
    OverwriteInv(g, fs, {}, Addr(g, fs, i, k), Splice(fs.blocks[Addr(g, fs, i, k)], r, data));
  }

  lemma DivMod(p: nat, d: nat)
    requires d > 0
    ensures p == p / d * d + p % d && 0 <= p % d < d
  {
  }

  lemma NotNegative(a: int, b: int)
    requires a >= 0 && b >= 0
    ensures a * b >= 0
  {
  }

  lemma BetweenMultiples(e: int, d: int)
    requires d > 0 && -d < e * d < d
    ensures e == 0
  {
    assert e >= 1 ==> e * d >= 1 * d;
    assert e <= -1 ==> e * d <= -1 * d;
  }

  // Position p lies in the m bytes from off, all in one block, exactly when it
  // lies in that block at these offsets.
  lemma SpanInBlock(g: Geo, off: nat, m: nat, p: nat)
    requires g.bsize > 0 && OffIn(g, off) + m <= g.bsize
    ensures off <= p < off + m <==> BlockOf(g, p) == BlockOf(g, off) && OffIn(g, off) <= OffIn(g, p) < OffIn(g, off) + m
    ensures BlockOf(g, p) == BlockOf(g, off) ==> p - off == OffIn(g, p) - OffIn(g, off)
  {
    DivMod(off, g.bsize);
    DivMod(p, g.bsize);
    if off <= p < off + m {
      var e := p / g.bsize - off / g.bsize;
      assert e * g.bsize == p / g.bsize * g.bsize - off / g.bsize * g.bsize;
      BetweenMultiples(e, g.bsize);
    }
  }

  // Writing at off changes exactly these bytes of this file, and no other file.
  lemma WriteBlockBytes(g: Geo, fs: Fs, fs': Fs, i: nat, off: nat, a: nat, data: seq<byte>, j: nat, p: nat)
    requires Inv(g, fs, {}, {}) && i < g.ninodes && j < g.ninodes
    requires BlockOf(g, off) < MaxFile(g) && OffIn(g, off) + |data| <= g.bsize
    requires a == Addr(g, fs, i, Slot(g, BlockOf(g, off))) && 0 < a < g.size
    requires fs' == WriteBlock(g, fs, a, OffIn(g, off), data) && Sized(g, fs') && SameAddrs(g, fs, fs')
    ensures ByteAt(g, fs', j, p) == if j == i && off <= p < off + |data| then data[p - off] else ByteAt(g, fs, j, p)
  {
    var k := Slot(g, BlockOf(g, off));
    SpanInBlock(g, off, |data|, p);
    if BlockOf(g, p) < MaxFile(g) {
      var q := Slot(g, BlockOf(g, p));
      assert Addr(g, fs', j, q) == Addr(g, fs, j, q);
      if Addr(g, fs, j, q) == a {
        assert OwnedBy(g, fs, a, j, q) && OwnedBy(g, fs, a, i, k);
        SpliceAt(fs.blocks[a], OffIn(g, off), data, OffIn(g, p));
      }
    }
  }

  lemma SpliceAt(b: Block, r: nat, data: seq<byte>, x: nat)
    requires r + |data| <= |b| && x < |b|
    ensures Splice(b, r, data)[x] == if r <= x < r + |data| then data[x - r] else b[x]
  {
  }

  // What one bmap may do: blocks are added to inode i only in the slot asked for
  // and in the indirect slot.
  ghost predicate Mapped(g: Geo, fs: Fs, fs': Fs, i: nat, bn: nat, a: nat)
    requires Sized(g, fs) && Sized(g, fs') && i < g.ninodes && bn < MaxFile(g)
  {
    && Extends(g, fs, fs', i)
    && a != 0 && Addr(g, fs', i, Slot(g, bn)) == a
    && (forall k: nat | k < Slots(g) && k != Slot(g, bn) && k != g.ndirect :: Addr(g, fs', i, k) == Addr(g, fs, i, k))
    && (Addr(g, fs, i, Slot(g, bn)) != 0 ==> fs' == fs)
    && (Addr(g, fs, i, Slot(g, bn)) == 0 ==> a < g.size && !Used(g, fs, a) && fs'.blocks[a] == Zeroes(g.bsize))
  }

  // bmap adds blocks of zeroes only, so no byte of any file changes.
  lemma MappedBytes(g: Geo, fs: Fs, fs': Fs, i: nat, bn: nat, a: nat, j: nat, p: nat)
    requires Inv(g, fs, {}, {}) && Sized(g, fs') && i < g.ninodes && j < g.ninodes && bn < MaxFile(g)
    requires Mapped(g, fs, fs', i, bn, a)
    ensures ByteAt(g, fs', j, p) == ByteAt(g, fs, j, p)
  {
    if BlockOf(g, p) < MaxFile(g) {
      var k := Slot(g, BlockOf(g, p));
      if Addr(g, fs, j, k) != 0 {
        ExtendsBytes(g, fs, fs', i, j, p);
      } else if j == i && k == Slot(g, bn) {
        assert ByteAt(g, fs', i, p) == fs'.blocks[a][OffIn(g, p)] == 0;
      } else {
        assert Addr(g, fs', j, k) == Addr(g, fs, j, k);
      }
    }
  }

  // Every file holds the same bytes, and nothing on the disk's inode blocks moved.
  ghost predicate SameFiles(g: Geo, fs: Fs, fs': Fs)
    requires Sized(g, fs) && Sized(g, fs')
  {
    && fs'.dinodes == fs.dinodes
    && forall j: nat {:trigger SameFile(g, fs, fs', j)} | j < g.ninodes :: SameFile(g, fs, fs', j)
  }

  ghost predicate SameFile(g: Geo, fs: Fs, fs': Fs, j: nat)
    requires Sized(g, fs) && Sized(g, fs') && j < g.ninodes
  {
    Content(g, fs', j) == Content(g, fs, j) && fs'.inodes[j] == fs.inodes[j].(addrs := fs'.inodes[j].addrs)
  }

  lemma MappedSame(g: Geo, fs: Fs, fs': Fs, i: nat, bn: nat, a: nat)
    requires Inv(g, fs, {}, {}) && Sized(g, fs') && i < g.ninodes && bn < MaxFile(g) && Mapped(g, fs, fs', i, bn, a)
    ensures SameFiles(g, fs, fs')
  {
    forall j: nat | j < g.ninodes ensures SameFile(g, fs, fs', j) {
      forall p: nat ensures ByteAt(g, fs', j, p) == ByteAt(g, fs, j, p) { MappedBytes(g, fs, fs', i, bn, a, j, p); }
    }
  }

  lemma SameTwice(g: Geo, fs: Fs, fs1: Fs, fs2: Fs)
    requires Sized(g, fs) && Sized(g, fs1) && Sized(g, fs2) && SameFiles(g, fs, fs1) && SameFiles(g, fs1, fs2)
    ensures SameFiles(g, fs, fs2)
  {
    forall j: nat | j < g.ninodes ensures SameFile(g, fs, fs2, j) {
      assert SameFile(g, fs, fs1, j) && SameFile(g, fs1, fs2, j);
    }
  }
}
