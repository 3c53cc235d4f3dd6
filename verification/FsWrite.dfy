// writei as a whole: what its loop keeps, and what the file holds afterwards.

module FsWrite {
  import opened Wrappers
  import opened FsDisk
  import opened FsInvariant
  import opened FsContent

  // The first tot bytes of src are in place at off; all other bytes, those of holes
  // among them, and all other inodes, are as at the start.
  ghost predicate Writing(g: Geo, fs0: Fs, fs: Fs, i: nat, off: nat, src: seq<byte>, tot: nat)
    requires Sized(g, fs0) && Sized(g, fs) && i < g.ninodes && tot <= |src|
  {
    && fs.dinodes == fs0.dinodes
    && (forall j: nat {:trigger fs.inodes[j]} | j < g.ninodes ::
          fs.inodes[j] == fs0.inodes[j].(addrs := fs.inodes[j].addrs))
    && (forall j: nat, k: nat {:trigger Addr(g, fs, j, k)} |
          j < g.ninodes && k < Slots(g) && (j != i || Addr(g, fs0, j, k) != 0) ::
          Addr(g, fs, j, k) == Addr(g, fs0, j, k))
    && (forall j: nat, p: nat {:trigger ByteAt(g, fs, j, p)} | j < g.ninodes && j != i ::
          ByteAt(g, fs, j, p) == ByteAt(g, fs0, j, p))
    && (forall p: nat | off <= p < off + tot ::
          && BlockOf(g, p) < MaxFile(g) && Addr(g, fs, i, Slot(g, BlockOf(g, p))) != 0
          && ByteAt(g, fs, i, p) == src[p - off])
    && (forall p: nat {:trigger ByteAt(g, fs, i, p)} | !(off <= p < off + tot) ::
          ByteAt(g, fs, i, p) == ByteAt(g, fs0, i, p))
  }

  lemma MappedKeepsWriting(g: Geo, fs0: Fs, fs: Fs, fs1: Fs, i: nat, off: nat, src: seq<byte>, tot: nat, bn: nat,
                           a: nat)
    requires Sized(g, fs0) && Inv(g, fs, {}, {}) && Sized(g, fs1) && i < g.ninodes && tot <= |src| && bn < MaxFile(g)
    requires Writing(g, fs0, fs, i, off, src, tot) && Mapped(g, fs, fs1, i, bn, a)
    ensures Writing(g, fs0, fs1, i, off, src, tot)
  {
    forall j: nat, p: nat | j < g.ninodes ensures ByteAt(g, fs1, j, p) == ByteAt(g, fs, j, p) {
      MappedBytes(g, fs, fs1, i, bn, a, j, p);
    }
    forall p: nat | BlockOf(g, p) < MaxFile(g) && Addr(g, fs, i, Slot(g, BlockOf(g, p))) != 0
      ensures Addr(g, fs1, i, Slot(g, BlockOf(g, p))) == Addr(g, fs, i, Slot(g, BlockOf(g, p)))
    {
      ExtendsBytes(g, fs, fs1, i, i, p);
    }
  }

  // memmove of the next m bytes into the block found for them.
  lemma WriteStep(g: Geo, fs0: Fs, fs: Fs, fs': Fs, i: nat, off: nat, src: seq<byte>, tot: nat, m: nat, a: nat)
    requires Sized(g, fs0) && Inv(g, fs, {}, {}) && i < g.ninodes && 0 < m && tot + m <= |src|
    requires Writing(g, fs0, fs, i, off, src, tot)
    requires BlockOf(g, off + tot) < MaxFile(g) && OffIn(g, off + tot) + m <= g.bsize
    requires a == Addr(g, fs, i, Slot(g, BlockOf(g, off + tot))) && 0 < a < g.size
    requires fs' == WriteBlock(g, fs, a, OffIn(g, off + tot), src[tot..tot + m]) && Sized(g, fs')
    requires SameAddrs(g, fs, fs')
    ensures Writing(g, fs0, fs', i, off, src, tot + m)
  {
    var at, data := off + tot, src[tot..tot + m];
    forall j: nat, p: nat | j < g.ninodes
      ensures ByteAt(g, fs', j, p) == if j == i && at <= p < at + m then data[p - at] else ByteAt(g, fs, j, p)
    {
      WriteBlockBytes(g, fs, fs', i, at, a, data, j, p);
    }
    forall p: nat | off <= p < off + tot + m
      ensures BlockOf(g, p) < MaxFile(g) && Addr(g, fs', i, Slot(g, BlockOf(g, p))) != 0
      ensures ByteAt(g, fs', i, p) == src[p - off]
    {
      if p >= at { SpanInBlock(g, at, m, p); }
    }
  }

  // What writei promises: the bytes from off are replaced, the file grows to hold
  // them without a new hole, and nothing else about this or any other inode changes.
  ghost predicate WroteFile(g: Geo, fs0: Fs, fs: Fs, i: nat, off: nat, src: seq<byte>)
    requires Sized(g, fs0) && Sized(g, fs) && i < g.ninodes && off <= fs0.inodes[i].size
  {
    && Content(g, fs, i) == Spliced(Content(g, fs0, i), off, src)
    && (Whole(g, fs0, i) ==> Whole(g, fs, i))
    && fs.inodes[i] == fs0.inodes[i].(size := fs.inodes[i].size, addrs := fs.inodes[i].addrs)
    && (forall j: nat {:trigger OtherFile(g, fs0, fs, j)} | j < g.ninodes && j != i :: OtherFile(g, fs0, fs, j))
  }

  // Every block that changed was logged, inode blocks included.
  ghost predicate OnlyLogged(g: Geo, fs: Fs, fs': Fs, logged: set<nat>)
    requires g.ipb > 0
  {
    && |fs'.blocks| == |fs.blocks| && |fs'.dinodes| == |fs.dinodes|
    && (forall b: nat {:trigger BlockStays(fs, fs', logged, b)} | b < |fs.blocks| :: BlockStays(fs, fs', logged, b))
    && (forall i: nat {:trigger DinodeStays(g, fs, fs', logged, i)} | i < |fs.dinodes| ::
          DinodeStays(g, fs, fs', logged, i))
  }

  ghost predicate BlockStays(fs: Fs, fs': Fs, logged: set<nat>, b: nat)
    requires b < |fs.blocks| == |fs'.blocks|
  {
    b in logged || fs'.blocks[b] == fs.blocks[b]
  }

  ghost predicate DinodeStays(g: Geo, fs: Fs, fs': Fs, logged: set<nat>, i: nat)
    requires g.ipb > 0 && i < |fs.dinodes| == |fs'.dinodes|
  {
    IBlock(g, i) in logged || fs'.dinodes[i] == fs.dinodes[i]
  }

  lemma NothingLogged(g: Geo, fs: Fs)
    requires g.ipb > 0
    ensures OnlyLogged(g, fs, fs, {})
  {
  }

  // The inodes in memory are no part of the disk.
  lemma LoggedInodes(g: Geo, fs0: Fs, fs: Fs, fs': Fs, logged: set<nat>)
    requires g.ipb > 0 && OnlyLogged(g, fs0, fs, logged) && fs'.blocks == fs.blocks && fs'.dinodes == fs.dinodes
    ensures OnlyLogged(g, fs0, fs', logged)
  {
    forall c: nat | c < |fs0.blocks| ensures BlockStays(fs0, fs', logged, c) { assert BlockStays(fs0, fs, logged, c); }
    forall i: nat | i < |fs0.dinodes|
      ensures DinodeStays(g, fs0, fs', logged, i)
    {
      assert DinodeStays(g, fs0, fs, logged, i);
    }
  }

  lemma LoggedBlock(g: Geo, fs0: Fs, fs: Fs, logged: set<nat>, b: nat, v: Block)
    requires g.ipb > 0 && b < |fs.blocks| && OnlyLogged(g, fs0, fs, logged)
    ensures OnlyLogged(g, fs0, fs.(blocks := fs.blocks[b := v]), logged + {b})
  {
    var fs', logged' := fs.(blocks := fs.blocks[b := v]), logged + {b};
    forall c: nat | c < |fs0.blocks| ensures BlockStays(fs0, fs', logged', c) { assert BlockStays(fs0, fs, logged, c); }
    forall i: nat | i < |fs0.dinodes|
      ensures DinodeStays(g, fs0, fs', logged', i)
    {
      assert DinodeStays(g, fs0, fs, logged, i);
    }
  }

  lemma LoggedDinode(g: Geo, fs0: Fs, fs: Fs, logged: set<nat>, i: nat, ip: Inode)
    requires g.ipb > 0 && i < |fs.dinodes| && OnlyLogged(g, fs0, fs, logged)
    ensures OnlyLogged(g, fs0, fs.(dinodes := fs.dinodes[i := ip]), logged + {IBlock(g, i)})
  {
    var fs', logged' := fs.(dinodes := fs.dinodes[i := ip]), logged + {IBlock(g, i)};
    forall c: nat | c < |fs0.blocks| ensures BlockStays(fs0, fs', logged', c) { assert BlockStays(fs0, fs, logged, c); }
    forall j: nat | j < |fs0.dinodes|
      ensures DinodeStays(g, fs0, fs', logged', j)
    {
      assert DinodeStays(g, fs0, fs, logged, j);
    }
  }

  ghost predicate OtherFile(g: Geo, fs0: Fs, fs: Fs, j: nat)
    requires Sized(g, fs0) && Sized(g, fs) && j < g.ninodes
  {
    && Content(g, fs, j) == Content(g, fs0, j) && fs.inodes[j] == fs0.inodes[j] && fs.dinodes[j] == fs0.dinodes[j]
    && (Whole(g, fs0, j) ==> Whole(g, fs, j))
  }

  lemma SameInode(g: Geo, fs0: Fs, fs: Fs, j: nat)
    requires Sized(g, fs0) && Sized(g, fs) && j < g.ninodes
    requires forall k: nat | k < Slots(g) :: Addr(g, fs, j, k) == Addr(g, fs0, j, k)
    ensures fs.inodes[j].addrs == fs0.inodes[j].addrs
  {
    forall k | 0 <= k < g.ndirect + 1 ensures fs.inodes[j].addrs[k] == fs0.inodes[j].addrs[k] {
      assert Addr(g, fs, j, k) == Addr(g, fs0, j, k);
    }
  }

  lemma SameBytes(g: Geo, fs: Fs, fs': Fs, j: nat)
    requires Sized(g, fs) && Sized(g, fs') && j < g.ninodes
    requires fs'.blocks == fs.blocks && fs'.inodes[j].addrs == fs.inodes[j].addrs
    ensures forall k: nat | k < Slots(g) :: Addr(g, fs', j, k) == Addr(g, fs, j, k)
    ensures forall p: nat :: ByteAt(g, fs', j, p) == ByteAt(g, fs, j, p)
  {
  }

  lemma WrittenOthers(g: Geo, fs0: Fs, fs: Fs, fs': Fs, i: nat, off: nat, src: seq<byte>, j: nat)
    requires Sized(g, fs0) && Sized(g, fs) && Sized(g, fs') && i < g.ninodes && j < g.ninodes && j != i
    requires Writing(g, fs0, fs, i, off, src, |src|)
    requires fs'.blocks == fs.blocks && fs'.inodes[j] == fs.inodes[j]
    ensures Content(g, fs', j) == Content(g, fs0, j) && fs'.inodes[j] == fs0.inodes[j]
    ensures Whole(g, fs0, j) ==> Whole(g, fs', j)
  {
    SameInode(g, fs0, fs, j);
    SameBytes(g, fs, fs', j);
    assert fs'.inodes[j].size == fs0.inodes[j].size;
    assert forall p: nat | p < fs0.inodes[j].size :: ByteAt(g, fs', j, p) == ByteAt(g, fs0, j, p);
  }

  lemma WrittenOwn(g: Geo, fs0: Fs, fs: Fs, fs': Fs, i: nat, off: nat, src: seq<byte>)
    requires Sized(g, fs0) && Sized(g, fs) && Sized(g, fs') && i < g.ninodes
    requires Writing(g, fs0, fs, i, off, src, |src|)
    requires off <= fs0.inodes[i].size
    requires fs'.blocks == fs.blocks && fs'.inodes[i].addrs == fs.inodes[i].addrs
    requires fs'.inodes[i].size == Max(fs0.inodes[i].size, off + |src|)
    ensures Content(g, fs', i) == Spliced(Content(g, fs0, i), off, src)
    ensures Whole(g, fs0, i) ==> Whole(g, fs', i)
  {
    SameBytes(g, fs, fs', i);
    var c0, c', want := Content(g, fs0, i), Content(g, fs', i), Spliced(Content(g, fs0, i), off, src);
    forall p: nat | p < |c'| ensures c'[p] == want[p] {
      assert c'[p] == ByteAt(g, fs, i, p);
      if off <= p < off + |src| {
        assert want[p] == src[p - off];
      } else {
        assert want[p] == c0[p] == ByteAt(g, fs0, i, p);
      }
    }
    if Whole(g, fs0, i) {
      forall p: nat | p < fs'.inodes[i].size
        ensures BlockOf(g, p) < MaxFile(g) && Addr(g, fs', i, Slot(g, BlockOf(g, p))) != 0
      {
        if !(off <= p < off + |src|) { assert Addr(g, fs0, i, Slot(g, BlockOf(g, p))) != 0; }
      }
    }
  }

  // off <= size, so the write makes no hole and extends the size to its end.
  lemma WrittenContent(g: Geo, fs0: Fs, fs: Fs, fs': Fs, i: nat, off: nat, src: seq<byte>)
    requires Sized(g, fs0) && Sized(g, fs) && Sized(g, fs') && i < g.ninodes
    requires Writing(g, fs0, fs, i, off, src, |src|)
    requires off <= fs0.inodes[i].size
    requires fs'.blocks == fs.blocks
    requires fs'.inodes == fs.inodes[i := fs.inodes[i].(size := Max(fs0.inodes[i].size, off + |src|))]
    requires forall j: nat | j < g.ninodes && j != i :: fs'.dinodes[j] == fs0.dinodes[j]
    ensures WroteFile(g, fs0, fs', i, off, src)
  {
    WrittenOwn(g, fs0, fs, fs', i, off, src);
    forall j: nat | j < g.ninodes && j != i ensures OtherFile(g, fs0, fs', j) {
      WrittenOthers(g, fs0, fs, fs', i, off, src, j);
    }
  }

  // The string with src written over position off, extended if need be.
  function Spliced(s: seq<byte>, off: nat, src: seq<byte>): (r: seq<byte>)
    requires off <= |s|
    ensures |r| == Max(|s|, off + |src|)
  {
    s[..off] + src + (if off + |src| <= |s| then s[off + |src|..] else [])
  }

  // ---------------------------------------------------------------- the size of a transaction

  // The indirect block of inode i, if it has one.
  function Ind(g: Geo, fs: Fs, i: nat): set<nat>
    requires Sized(g, fs) && i < g.ninodes
  {
    if Addr(g, fs, i, g.ndirect) == 0 then {} else {Addr(g, fs, i, g.ndirect)}
  }

  // The write starts in a block that is there already.
  ghost predicate FirstMapped(g: Geo, fs0: Fs, i: nat, off: nat)
    requires Sized(g, fs0) && i < g.ninodes
  {
    BlockOf(g, off) < MaxFile(g) && Addr(g, fs0, i, Slot(g, BlockOf(g, off))) != 0
  }

  // After t blocks of a write at off: at most t data blocks were logged, and one
  // bitmap block for each block allocated.  The first block needs none if it is
  // there already.
  ghost predicate Logged(g: Geo, fs0: Fs, fs: Fs, i: nat, off: nat, t: nat,
                         bits: set<nat>, datas: set<nat>, before: set<nat>, logged: set<nat>)
    requires Sized(g, fs0) && Sized(g, fs) && i < g.ninodes
  {
    && logged <= before + bits + datas + Ind(g, fs, i)
    && |datas| <= t
    && |bits| <= (if t > 0 && FirstMapped(g, fs0, i, off) then t - 1 else t)
                 + (if Addr(g, fs0, i, g.ndirect) == 0 && Addr(g, fs, i, g.ndirect) != 0 then 1 else 0)
  }

  // How far t rounds of the loop get.
  ghost predicate Progress(g: Geo, off: nat, n: nat, tot: nat, t: nat)
    requires g.bsize > 0
  {
    && tot <= n && (t == 0 ==> tot == 0)
    && (t > 0 && tot < n ==> off + tot == (BlockOf(g, off) + t) * g.bsize)
  }

  lemma ProgressStep(g: Geo, off: nat, n: nat, tot: nat, t: nat, m: nat, k: nat)
    requires g.bsize > 0 && Progress(g, off, n, tot, t) && tot < n <= k * g.bsize
    requires m == if n - tot < g.bsize - OffIn(g, off + tot) then n - tot else g.bsize - OffIn(g, off + tot)
    ensures 0 < m && tot + m <= n && OffIn(g, off + tot) + m <= g.bsize && Progress(g, off, n, tot + m, t + 1)
    ensures t + 1 <= if OffIn(g, off) == 0 then k else k + 1
  {
    DivMod(off, g.bsize);
    DivMod(off + tot, g.bsize);
    var q := BlockOf(g, off);
    if t > 0 {
      assert (q + t) * g.bsize == q * g.bsize + t * g.bsize;
      MultipleHasNoRest(g, q + t);
      assert (q + t + 1) * g.bsize == (q + t) * g.bsize + g.bsize;
      if OffIn(g, off) == 0 {
        FewerBlocks(t, k, g.bsize);
      } else {
        assert (k + 1) * g.bsize == k * g.bsize + g.bsize;
        FewerBlocks(t, k + 1, g.bsize);
      }
    } else {
      assert (q + 1) * g.bsize == q * g.bsize + g.bsize;
      assert k == 0 ==> k * g.bsize == 0;
    }
  }

  lemma MultipleHasNoRest(g: Geo, q: nat)
    requires g.bsize > 0
    ensures OffIn(g, q * g.bsize) == 0
  {
    DivMod(q * g.bsize, g.bsize);
    var e := q - q * g.bsize / g.bsize;
    assert e * g.bsize == q * g.bsize - q * g.bsize / g.bsize * g.bsize;
    BetweenMultiples(e, g.bsize);
  }

  lemma FewerBlocks(t: nat, k: nat, d: nat)
    requires t * d < k * d
    ensures t < k
  {
    assert t >= k ==> t * d >= k * d;
  }

  lemma LoggedStep(g: Geo, fs0: Fs, fs: Fs, fs': Fs, i: nat, off: nat, t: nat,
                   bits: set<nat>, datas: set<nat>, before: set<nat>, logged: set<nat>,
                   more: set<nat>, a: nat, logged': set<nat>, mapped: bool)
    requires Sized(g, fs0) && Sized(g, fs) && Sized(g, fs') && i < g.ninodes
    requires Logged(g, fs0, fs, i, off, t, bits, datas, before, logged)
    requires Addr(g, fs0, i, g.ndirect) != 0 ==> Addr(g, fs, i, g.ndirect) == Addr(g, fs0, i, g.ndirect)
    requires Addr(g, fs, i, g.ndirect) != 0 ==> Addr(g, fs', i, g.ndirect) == Addr(g, fs, i, g.ndirect)
    requires logged' <= logged + more + {a} + Ind(g, fs', i)
    requires |more| <= (if mapped then 0 else 1)
                       + (if Addr(g, fs, i, g.ndirect) == 0 && Addr(g, fs', i, g.ndirect) != 0 then 1 else 0)
    requires t == 0 && FirstMapped(g, fs0, i, off) ==> mapped
    ensures Logged(g, fs0, fs', i, off, t + 1, bits + more, datas + {a}, before, logged')
  {
    UnionSize(bits, more);
    UnionSize(datas, {a});
  }

  // The blocks of one writei of at most k blocks' worth of bytes: k + 1 data
  // blocks, k + 1 bitmap blocks, the indirect block and the inode block; and one
  // bitmap block more if it starts inside a block that is a hole.
  lemma TransactionSize(g: Geo, fs0: Fs, fs: Fs, i: nat, off: nat, t: nat, k: nat,
                        bits: set<nat>, datas: set<nat>, before: set<nat>, logged: set<nat>)
    requires Sized(g, fs0) && Sized(g, fs) && i < g.ninodes
    requires Logged(g, fs0, fs, i, off, t, bits, datas, before, logged)
    requires t <= if OffIn(g, off) == 0 then k else k + 1
    ensures logged + {IBlock(g, i)} <= before + (bits + datas + Ind(g, fs, i) + {IBlock(g, i)})
    ensures |bits + datas + Ind(g, fs, i) + {IBlock(g, i)}| <= 2 * k + 5
    ensures OffIn(g, off) == 0 || FirstMapped(g, fs0, i, off) ==>
      |bits + datas + Ind(g, fs, i) + {IBlock(g, i)}| <= 2 * k + 4
  {
    UnionSize(bits, datas);
    UnionSize(bits + datas, Ind(g, fs, i));
    UnionSize(bits + datas + Ind(g, fs, i), {IBlock(g, i)});
  }
}
