// fs.c in place: block allocation, the block map, truncation, reading, writing,
// and the chunked writes of file.c.  `logged` is the set of block numbers that
// log_write has been called with.

module FsKernel {
  import opened Wrappers
  import opened FsDisk
  import opened FsInvariant
  import opened FsOwnership
  import opened FsContent
  import opened FsWrite

  // Panic: balloc found no block.  Fail: readi or writei returned -1.
  datatype Result<T> = Panic | Fail | Ok(value: T)

  ghost predicate Full(g: Geo, fs: Fs)
    requires Sized(g, fs)
  {
    forall b: nat | b < g.size :: Used(g, fs, b)
  }

  // What bmap returns for file block bn, or the panic of balloc.
  ghost predicate Got(g: Geo, fs: Fs, fs': Fs, i: nat, bn: nat, r: Option<nat>)
    requires Sized(g, fs) && Sized(g, fs') && i < g.ninodes && bn < MaxFile(g)
  {
    match r
    case None => Full(g, fs')
    case Some(a) => Inv(g, fs', {}, {}) && Mapped(g, fs, fs', i, bn, a)
  }

  class Kernel {
    const g: Geo
    var blocks: array<Block>
    var inodes: array<Inode>
    var dinodes: array<Inode>
    ghost var logged: set<nat>
    ghost var base: Fs

    ghost predicate Fields()
      reads this
    {
      && ValidGeo(g) && inodes != dinodes
      && blocks.Length == g.size && inodes.Length == dinodes.Length == g.ninodes
    }

    ghost function View(): Fs
      reads this, blocks, inodes, dinodes
    {
      Fs(blocks[..], inodes[..], dinodes[..])
    }

    // Since the transaction began at `base`, only logged blocks have changed.
    ghost predicate Tracked()
      reads this, blocks, inodes, dinodes
    {
      g.ipb > 0 && OnlyLogged(g, base, View(), logged)
    }

    // begin_op(): a new transaction.
    ghost method BeginOp()
      requires Fields()
      modifies this`logged, this`base
      ensures logged == {} && base == View() && Tracked()
    {
      logged, base := {}, View();
      NothingLogged(g, base);
    }

    // bread, change, log_write, brelse.
    method LogWrite(b: nat, v: Block)
      requires Fields() && b < g.size
      modifies this`logged, blocks
      ensures old(Tracked()) ==> Tracked()
      ensures View() == old(View()).(blocks := old(blocks[..])[b := v])
      ensures logged == old(logged) + {b}
    {
      ghost var fs, was := View(), logged;
      blocks[b] := v;
      logged := logged + {b};
      assert View() == fs.(blocks := fs.blocks[b := v]);
      if OnlyLogged(g, base, fs, was) { LoggedBlock(g, base, fs, was, b, v); }
    }

    method SetInode(i: nat, ip: Inode)
      requires Fields() && i < g.ninodes
      modifies inodes
      ensures old(Tracked()) ==> Tracked()
      ensures View() == old(View()).(inodes := old(inodes[..])[i := ip])
    {
      ghost var fs := View();
      inodes[i] := ip;
      assert View() == fs.(inodes := fs.inodes[i := ip]);
      if g.ipb > 0 && OnlyLogged(g, base, fs, logged) { LoggedInodes(g, base, fs, View(), logged); }
    }

    // iupdate: the inode cache is write-through.
    method Iupdate(i: nat)
      requires Fields() && i < g.ninodes
      modifies this`logged, dinodes
      ensures old(Tracked()) ==> Tracked()
      ensures View() == old(View()).(dinodes := old(dinodes[..])[i := inodes[i]])
      ensures logged == old(logged) + {IBlock(g, i)}
    {
      ghost var fs, was := View(), logged;
      dinodes[i] := inodes[i];
      logged := logged + {IBlock(g, i)};
      assert View() == fs.(dinodes := fs.dinodes[i := inodes[i]]);
      if OnlyLogged(g, base, fs, was) { LoggedDinode(g, base, fs, was, i, inodes[i]); }
    }

    // The inner loop of balloc: one bitmap block.
    method ScanGroup(b: nat) returns (found: bool, r: nat)
      requires Fields() && Sized(g, View()) && b < g.size && b % g.bpb == 0
      ensures found ==> b <= r < g.size && !Used(g, View(), r) && forall c: nat | b <= c < r :: Used(g, View(), c)
      ensures !found ==> forall c: nat | b <= c < b + g.bpb && c < g.size :: Used(g, View(), c)
    {
      var bp := blocks[BBlock(g, b)];
      var bi := 0;
      while bi < g.bpb && b + bi < g.size
        invariant bi <= g.bpb
        invariant forall c: nat | b <= c < b + bi && c < g.size :: Used(g, View(), c)
      {
        GroupOf(g, b, bi);
        if !Bit(bp, bi) {
          return true, b + bi;
        }
        bi := bi + 1;
      }
      return false, 0;
    }

    // The search of balloc: the lowest free block, or the panic if there is none.
    method FindFree() returns (r: Option<nat>)
      requires Fields() && Sized(g, View())
      ensures r.None? ==> Full(g, View())
      ensures r.Some? ==> r.value < g.size && !Used(g, View(), r.value)
      ensures r.Some? ==> forall b: nat | b < r.value :: Used(g, View(), b)
    {
      var b := 0;
      while b < g.size
        invariant b % g.bpb == 0
        invariant forall c: nat | c < b && c < g.size :: Used(g, View(), c)
        decreases g.size - b
      {
        var found, f := ScanGroup(b);
        if found {
          return Some(f);
        }
        NextGroup(g, b);
        b := b + g.bpb;
      }
      r := None;
    }

    // balloc: a zeroed block that nobody owned.
    method Balloc(ghost extra: set<nat>, ghost i: nat) returns (r: Option<nat>)
      requires Fields() && Inv(g, View(), extra, {}) && i < g.ninodes
      modifies this`logged, blocks
      ensures old(Tracked()) ==> Tracked()
      ensures r.None? ==> View() == old(View()) && Full(g, View())
      ensures r.Some? ==> var b := r.value;
        && g.dstart <= b < g.size && b !in extra && old(!Used(g, View(), b) && !Owned(g, View(), b))
        && View() == Allocate(g, old(View()), b)
        && Inv(g, View(), extra + {b}, {}) && SameAddrs(g, old(View()), View()) && Extends(g, old(View()), View(), i)
        && logged == old(logged) + {BBlock(g, b), b}
    {
      ghost var fs := View();
      r := FindFree();
      if r.Some? {
        var b := r.value;
        AllocateInv(g, fs, extra, b, i);
        var m := BBlock(g, b);
        LogWrite(m, FlipTo(blocks[m], b % g.bpb, true));
        assert View() == Mark(g, fs, b, true);
        LogWrite(b, Zeroes(g.bsize));
        assert logged == old(logged) + {m, b};
      }
    }

    // bfree.  The panic "freeing free block" is the precondition.
    method Bfree(b: nat)
      requires Fields() && Sized(g, View()) && b < g.size && Used(g, View(), b)
      modifies this`logged, blocks
      ensures old(Tracked()) ==> Tracked()
      ensures View() == Mark(g, old(View()), b, false)
      ensures logged == old(logged) + {BBlock(g, b)}
    {
      var m := BBlock(g, b);
      LogWrite(m, FlipTo(blocks[m], b % g.bpb, false));
    }
  
    // bmap for a direct block.
    method MapDirect(i: nat, bn: nat) returns (r: Option<nat>, ghost bits: set<nat>)
      requires Fields() && Inv(g, View(), {}, {}) && i < g.ninodes && bn < g.ndirect
      modifies this`logged, blocks, inodes
      ensures old(Tracked()) ==> Tracked()
      ensures Sized(g, View())
      ensures Got(g, old(View()), View(), i, bn, r)
      ensures old(Addr(g, View(), i, bn)) != 0 ==> r.Some? && logged == old(logged)
      ensures |bits| <= if old(Addr(g, View(), i, bn)) == 0 then 1 else 0
      ensures r.Some? ==> logged <= old(logged) + bits + {r.value}
    {
      ghost var fs := View();
      bits := {};
      var addr := inodes[i].addrs[bn];
      if addr != 0 {
        return Some(addr), {};
      }
      r := Balloc({}, i);
      if r.None? {
        return;
      }
      var b := r.value;
      ghost var fs1 := View();
      LinkDirect(g, fs1, {b}, i, bn, b);
      SetInode(i, inodes[i].(addrs := inodes[i].addrs[bn := b]));
      assert View() == SetAddr(fs1, i, bn, b);
      DirectExtends(g, fs1, i, bn, b);
      ExtendsTransitive(g, fs, fs1, View(), i);
      assert {b} - {b} == {};
      bits := {BBlock(g, b)};
    }

    // bmap, the indirect block.
    method MapIndirect(i: nat) returns (r: Option<nat>, ghost bits: set<nat>)
      requires Fields() && Inv(g, View(), {}, {}) && i < g.ninodes
      modifies this`logged, blocks, inodes
      ensures old(Tracked()) ==> Tracked()
      ensures Sized(g, View())
      ensures r.None? ==> Full(g, View())
      ensures r.Some? ==> Inv(g, View(), {}, {}) && Extends(g, old(View()), View(), i)
      ensures r.Some? ==> r.value != 0 && Addr(g, View(), i, g.ndirect) == r.value
      ensures r.Some? ==>
        forall k: nat | k < Slots(g) && k != g.ndirect :: Addr(g, View(), i, k) == old(Addr(g, View(), i, k))
      ensures old(Addr(g, View(), i, g.ndirect)) != 0 ==> r.Some? && View() == old(View()) && logged == old(logged)
      ensures r.Some? ==> forall b: nat | b < g.size && !Used(g, View(), b) :: old(!Used(g, View(), b))
      ensures |bits| <= if old(Addr(g, View(), i, g.ndirect)) == 0 then 1 else 0
      ensures r.Some? ==> logged <= old(logged) + bits + {r.value}
    {
      ghost var fs := View();
      bits := {};
      var addr := inodes[i].addrs[g.ndirect];
      if addr != 0 {
        return Some(addr), {};
      }
      r := Balloc({}, i);
      if r.None? {
        return;
      }
      var b := r.value;
      ghost var fs1 := View();
      LinkIndirect(g, fs1, {b}, i, b);
      SetInode(i, inodes[i].(addrs := inodes[i].addrs[g.ndirect := b]));
      assert View() == SetAddr(fs1, i, g.ndirect, b);
      DirectExtends(g, fs1, i, g.ndirect, b);
      ExtendsTransitive(g, fs, fs1, View(), i);
      AllocateFrees(g, fs, b);
      assert {b} - {b} == {};
      bits := {BBlock(g, b)};
    }
  
    // bmap, an entry of the indirect block `ind`.
    method MapEntry(i: nat, e: nat, ind: nat) returns (r: Option<nat>, ghost bits: set<nat>)
      requires Fields() && Inv(g, View(), {}, {}) && i < g.ninodes && e < NIndirect(g)
      requires ind != 0 && Addr(g, View(), i, g.ndirect) == ind
      modifies this`logged, blocks
      ensures old(Tracked()) ==> Tracked()
      ensures Sized(g, View())
      ensures Got(g, old(View()), View(), i, g.ndirect + e, r)
      ensures r.Some? ==> Addr(g, View(), i, g.ndirect) == ind
      ensures old(Addr(g, View(), i, g.ndirect + 1 + e)) != 0 ==> r.Some? && logged == old(logged)
      ensures |bits| <= if old(Addr(g, View(), i, g.ndirect + 1 + e)) == 0 then 1 else 0
      ensures r.Some? ==> logged <= old(logged) + bits + {ind, r.value}
    {
      ghost var fs := View();
      bits := {};
      assert g.dstart <= ind < g.size by { assert Addr(g, fs, i, g.ndirect) == ind; }
      var addr := Entry(blocks[ind], e);
      if addr != 0 {
        return Some(addr), {};
      }
      r := Balloc({}, i);
      if r.None? {
        return;
      }
      var b := r.value;
      ghost var fs1 := View();
      EntryMapped(g, fs, fs1, i, e, ind, b);
      LogWrite(ind, PutEntry(blocks[ind], e, b));
      assert View() == SetEntry(g, fs1, ind, e, b);
      bits := {BBlock(g, b)};
    }

    // bmap: the block of file block bn, allocated if there was none.
    method Bmap(i: nat, bn: nat) returns (r: Option<nat>, ghost bits: set<nat>)
      requires Fields() && Inv(g, View(), {}, {}) && i < g.ninodes && bn < MaxFile(g)
      modifies this`logged, blocks, inodes
      ensures old(Tracked()) ==> Tracked()
      ensures Sized(g, View())
      ensures Got(g, old(View()), View(), i, bn, r)
      ensures old(Addr(g, View(), i, Slot(g, bn))) != 0 ==> r.Some? && View() == old(View()) && logged == old(logged)
      ensures |bits| <= (if old(Addr(g, View(), i, Slot(g, bn))) == 0 then 1 else 0)
                      + (if old(Addr(g, View(), i, g.ndirect)) == 0 && Addr(g, View(), i, g.ndirect) != 0 then 1 else 0)
      ensures r.Some? ==> logged <= old(logged) + bits + {r.value} + Ind(g, View(), i)
    {
      if bn < g.ndirect {
        r, bits := MapDirect(i, bn);
        return;
      }
      ghost var fs := View();
      ghost var bits1, bits2;
      bits := {};
      var ind;
      ind, bits1 := MapIndirect(i);
      if ind.None? {
        return None, {};
      }
      ghost var fs1 := View();
      r, bits2 := MapEntry(i, bn - g.ndirect, ind.value);
      if r.Some? {
        MappedThrough(g, fs, fs1, View(), i, bn, r.value);
        UnionSize(bits1, bits2);
        bits := bits1 + bits2;
      }
    }
  
    // One round of readi's loop: the bytes from at on that lie in one block.  A hole
    // is filled with a block of zeroes.
    method ReadPart(i: nat, at: nat, left: nat) returns (part: Option<seq<byte>>)
      requires Fields() && Inv(g, View(), {}, {}) && i < g.ninodes && inodes[i].size <= MaxFile(g) * g.bsize
      requires 0 < left && at + left <= inodes[i].size
      modifies this`logged, blocks, inodes
      ensures Sized(g, View()) && PartRead(g, old(View()), View(), i, at, left, part)
      ensures old(Whole(g, View(), i)) ==> part.Some? && View() == old(View()) && logged == old(logged)
    {
      ghost var fs := View();
      BlockInFile(g, at);
      ghost var bits;
      var b;
      b, bits := Bmap(i, BlockOf(g, at));
      if b.None? { return None; }
      var r := OffIn(g, at);
      var m := if left < g.bsize - r then left else g.bsize - r;
      ReadMapped(g, fs, View(), i, at, left, m, b.value);
      part := Some(blocks[b.value][r..r + m]);
    }

    // readi returns the bytes the file holds and changes no file.  It allocates only
    // if there is a hole below the size, and only then can it find the disk full.
    method Readi(i: nat, off: nat, n: nat) returns (dst: Result<seq<byte>>)
      requires Fields() && Inv(g, View(), {}, {}) && i < g.ninodes && off < U32 && n < U32
      requires inodes[i].size <= MaxFile(g) * g.bsize
      modifies this`logged, blocks, inodes
      ensures Sized(g, View())
      ensures dst.Fail? <==> off > old(inodes[i].size) || off + n >= U32
      ensures dst.Fail? ==> View() == old(View())
      ensures !dst.Fail? ==> ReadSofar(g, old(View()), View(), i, off, ReadEnd(old(inodes[i].size), off, n), dst)
      ensures dst.Fail? || old(Whole(g, View(), i)) ==> !dst.Panic? && View() == old(View()) && logged == old(logged)
    {
      var size := inodes[i].size;
      ghost var fs := View();
      if off > size || (off + n) % U32 < off {
        return Fail;
      }
      var n1 := if off + n > size then size - off else n;
      dst := ReadLoop(i, off, n1);
    }

    // readi's loop.
    method ReadLoop(i: nat, off: nat, n: nat) returns (dst: Result<seq<byte>>)
      requires Fields() && Inv(g, View(), {}, {}) && i < g.ninodes && off + n <= inodes[i].size <= MaxFile(g) * g.bsize
      modifies this`logged, blocks, inodes
      ensures Sized(g, View()) && !dst.Fail? && ReadSofar(g, old(View()), View(), i, off, off + n, dst)
      ensures old(Whole(g, View(), i)) ==> dst.Ok? && View() == old(View()) && logged == old(logged)
    {
      ghost var fs := View();
      dst := Ok([]);
      var tot, at := 0, off;
      ReadNone(g, fs, i, off);
      while dst.Ok? && tot < n
        invariant 0 <= tot <= n && at == off + tot && Fields() && Sized(g, View()) && !dst.Fail?
        invariant ReadSofar(g, fs, View(), i, off, at, dst)
        invariant Whole(g, fs, i) ==> dst.Ok? && View() == fs && logged == old(logged)
        decreases dst.Ok?, n - tot
      {
        ghost var fs1, out := View(), dst.value;
        ReadReady(g, fs, fs1, i, off, at, out);
        var part := ReadPart(i, at, n - tot);
        match part {
          case None => dst := Panic;
          case Some(s) =>
            ReadMore(g, fs, fs1, View(), i, off, at, n - tot, out, s);
            dst := Ok(dst.value + s);
            tot := tot + |s|;
            at := at + |s|;
        }
      }
    }
  
    // One round of writei's loop.
    method WriteSpan(i: nat, at: nat, data: seq<byte>)
      returns (ok: bool, ghost fs1: Fs, ghost a: nat, ghost bits: set<nat>)
      requires Fields() && Inv(g, View(), {}, {}) && i < g.ninodes
      requires BlockOf(g, at) < MaxFile(g) && OffIn(g, at) + |data| <= g.bsize
      modifies this`logged, blocks, inodes
      ensures old(Tracked()) ==> Tracked()
      ensures Sized(g, View())
      ensures !ok ==> Full(g, View())
      ensures ok ==>
        && Inv(g, View(), {}, {}) && Inv(g, fs1, {}, {}) && Mapped(g, old(View()), fs1, i, BlockOf(g, at), a)
        && 0 < a < g.size && View() == WriteBlock(g, fs1, a, OffIn(g, at), data) && SameAddrs(g, fs1, View())
        && logged <= old(logged) + bits + {a} + Ind(g, View(), i)
      ensures ok ==>
        |bits| <= (if old(Addr(g, View(), i, Slot(g, BlockOf(g, at)))) == 0 then 1 else 0)
                + (if old(Addr(g, View(), i, g.ndirect)) == 0 && Addr(g, View(), i, g.ndirect) != 0 then 1 else 0)
    {
      var r;
      r, bits := Bmap(i, BlockOf(g, at));
      fs1 := View();
      a := 0;
      if r.None? {
        return false, fs1, a, bits;
      }
      a := r.value;
      var b := r.value;
      WriteBlockInv(g, fs1, i, Slot(g, BlockOf(g, at)), OffIn(g, at), data);
      LogWrite(b, Splice(blocks[b], OffIn(g, at), data));
      assert View() == WriteBlock(g, fs1, a, OffIn(g, at), data);
      ok := true;
    }

    // The body of writei's loop.
    method WriteRound(i: nat, src: seq<byte>, off: nat, tot: nat, ghost fs0: Fs, ghost k: nat, ghost t: nat,
                      ghost bits: set<nat>, ghost datas: set<nat>, ghost before: set<nat>)
      returns (ok: bool, tot': nat, ghost t': nat, ghost bits': set<nat>, ghost datas': set<nat>)
      requires Fields() && Inv(g, View(), {}, {}) && i < g.ninodes && off + |src| <= MaxFile(g) * g.bsize && tot < |src|
      requires Sized(g, fs0) && off <= fs0.inodes[i].size && |src| <= k * g.bsize
      requires Loop(g, fs0, View(), i, off, src, k, tot, t, bits, datas, before, logged)
      modifies this`logged, blocks, inodes
      ensures old(Tracked()) ==> Tracked()
      ensures Sized(g, View())
      ensures !ok ==> Full(g, View())
      ensures tot' <= |src| && (ok ==> tot < tot' && Inv(g, View(), {}, {}))
      ensures ok ==> Loop(g, fs0, View(), i, off, src, k, tot', t', bits', datas', before, logged)
    {
      ghost var fs, logged1 := View(), logged;
      var at := off + tot;
      var m := if |src| - tot < g.bsize - OffIn(g, at) then |src| - tot else g.bsize - OffIn(g, at);
      ProgressStep(g, off, |src|, tot, t, m, k);
      BlockInFile(g, at);
      ghost var fs1, a, more;
      ok, fs1, a, more := WriteSpan(i, at, src[tot..tot + m]);
      tot', t', bits', datas' := tot + m, t + 1, bits + more, datas + {a};
      if ok {
        Round(g, fs0, fs, fs1, View(), i, off, src, k, tot, m, a, t, bits, datas, more, before, logged1, logged,
          tot', t', bits', datas');
      }
    }

    // writei's loop.
    method WriteLoop(i: nat, src: seq<byte>, off: nat, ghost k: nat)
      returns (ok: bool, ghost t: nat, ghost bits: set<nat>, ghost datas: set<nat>)
      requires Fields() && Inv(g, View(), {}, {}) && i < g.ninodes && off + |src| <= MaxFile(g) * g.bsize
      requires off <= inodes[i].size && |src| <= k * g.bsize
      modifies this`logged, blocks, inodes
      ensures old(Tracked()) ==> Tracked()
      ensures Sized(g, View())
      ensures !ok ==> Full(g, View())
      ensures ok ==> Inv(g, View(), {}, {})
      ensures ok ==> Loop(g, old(View()), View(), i, off, src, k, |src|, t, bits, datas, old(logged), logged)
    {
      ghost var fs0, before := View(), logged;
      t, bits, datas := 0, {}, {};
      var tot := 0;
      LoopStart(g, fs0, i, off, src, k, before);
      ok := true;
      while ok && tot < |src|
        invariant tot <= |src| && Fields() && Sized(g, View()) && (!ok ==> Full(g, View()))
        invariant ok ==>
          Inv(g, View(), {}, {}) && Loop(g, fs0, View(), i, off, src, k, tot, t, bits, datas, before, logged)
        invariant old(Tracked()) ==> Tracked()
        decreases ok, |src| - tot
      {
        ok, tot, t, bits, datas := WriteRound(i, src, off, tot, fs0, k, t, bits, datas, before);
      }
    }

    // writei.  k is any number of blocks the data fits in; `wrote` collects the
    // blocks of the transaction.
    method Writei(i: nat, src: seq<byte>, off: nat, ghost k: nat) returns (r: Result<nat>, ghost wrote: set<nat>)
      requires Fields() && Inv(g, View(), {}, {}) && i < g.ninodes && off < U32 && |src| < U32
      requires |src| <= k * g.bsize
      modifies this`logged, blocks, inodes, dinodes
      ensures old(Tracked()) ==> Tracked()
      ensures Sized(g, View())
      ensures r.Fail? <==> off > old(inodes[i].size) || off + |src| >= U32 || off + |src| > MaxFile(g) * g.bsize
      ensures r.Fail? ==> View() == old(View()) && logged == old(logged)
      ensures r.Panic? ==> Full(g, View())
      ensures r.Ok? ==> r.value == |src| && Inv(g, View(), {}, {})
      ensures r.Ok? ==> WroteFile(g, old(View()), View(), i, off, src)
      // The inode block is behind exactly if a hole was filled and the size did not grow.
      ensures r.Ok? && old(inodes[i] == dinodes[i]) ==>
        (inodes[i] == dinodes[i] <==> inodes[i].size > old(inodes[i].size) || inodes[i].addrs == old(inodes[i].addrs))
      ensures r.Ok? && old(Whole(g, View(), i)) ==> inodes[i].size > old(inodes[i].size) || inodes[i] == old(inodes[i])
      ensures r.Ok? ==> logged <= old(logged) + wrote && |wrote| <= 2 * k + 5
      ensures r.Ok? && old(OffIn(g, off) == 0 || FirstMapped(g, View(), i, off)) ==> |wrote| <= 2 * k + 4
    {
      wrote := {};
      if off > inodes[i].size || (off + |src|) % U32 < off {
        return Fail, {};
      }
      if off + |src| > MaxFile(g) * g.bsize {
        return Fail, {};
      }
      ghost var fs0, before := View(), logged;
      ghost var t, bits, datas;
      var ok;
      ok, t, bits, datas := WriteLoop(i, src, off, k);
      if !ok {
        return Panic, {};
      }
      ghost var fs := View();
      wrote := bits + datas + Ind(g, fs, i) + {IBlock(g, i)};
      TransactionSize(g, fs0, fs, i, off, t, k, bits, datas, before, logged);
      if |src| > 0 && off + |src| > inodes[i].size {
        SetInode(i, inodes[i].(size := off + |src|));
        Iupdate(i);
      }
      SizeInv(g, fs, View(), i);
      WrittenContent(g, fs0, fs, View(), i, off, src);
      r := Ok(|src|);
    }
  
    // itrunc, one direct slot.
    method TruncSlot(i: nat, k: nat)
      requires Fields() && Inv(g, View(), {}, {}) && i < g.ninodes && k < g.ndirect
      modifies this`logged, blocks, inodes
      ensures old(Tracked()) ==> Tracked()
      ensures Inv(g, View(), {}, {}) && Truncated(g, old(View()), View(), i, k, k + 1)
      ensures MarksOnly(g, old(logged), logged)
    {
      ghost var fs := View();
      var b := inodes[i].addrs[k];
      SlotFreed(g, fs, i, k, b);
      if b != 0 {
        InBitmap(g, b);
        Bfree(b);
        SetInode(i, inodes[i].(addrs := inodes[i].addrs[k := 0]));
        assert View() == SetAddr(Mark(g, fs, b, false), i, k, 0);
      }
    }

    // itrunc, the loop over the entries of the indirect block.
    method FreeEntries(i: nat, ind: nat) returns (ghost missing: set<nat>)
      requires Fields() && Inv(g, View(), {}, {}) && i < g.ninodes
      requires ind != 0 && Addr(g, View(), i, g.ndirect) == ind
      modifies this`logged, blocks
      ensures old(Tracked()) ==> Tracked()
      ensures Inv(g, View(), {}, missing) && SameAddrs(g, old(View()), View()) && SameData(g, old(View()), View())
      ensures MarksOnly(g, old(logged), logged)
      ensures forall b: nat :: b in missing <==> EntryIn(g, old(View()), i, g.ndirect + 1, Slots(g), b)
    {
      ghost var fs0 := View();
      assert g.dstart <= ind < g.size by { assert Addr(g, fs0, i, g.ndirect) == ind; }
      var a := blocks[ind];
      missing := {};
      var j := 0;
      while j < NIndirect(g)
        invariant j <= NIndirect(g) && Fields() && MarksOnly(g, old(logged), logged)
        invariant old(Tracked()) ==> Tracked()
        invariant FreedUpTo(g, fs0, View(), i, g.ndirect + 1 + j, missing)
      {
        var b := Entry(a, j);
        assert b == Addr(g, fs0, i, g.ndirect + 1 + j);
        FreedOne(g, fs0, View(), i, g.ndirect + 1 + j, missing, b);
        if b != 0 {
          InBitmap(g, b);
          Bfree(b);
          missing := missing + {b};
        }
        j := j + 1;
      }
    }

    // itrunc, the direct slots.
    method TruncDirect(i: nat)
      requires Fields() && Inv(g, View(), {}, {}) && i < g.ninodes
      modifies this`logged, blocks, inodes
      ensures old(Tracked()) ==> Tracked()
      ensures Inv(g, View(), {}, {}) && Truncated(g, old(View()), View(), i, 0, g.ndirect)
      ensures MarksOnly(g, old(logged), logged)
    {
      ghost var fs0 := View();
      ghost var fs := fs0;
      var k := 0;
      while k < g.ndirect
        invariant k <= g.ndirect && Fields() && View() == fs && MarksOnly(g, old(logged), logged)
        invariant old(Tracked()) ==> Tracked()
        invariant Inv(g, fs, {}, {}) && Truncated(g, fs0, fs, i, 0, k)
      {
        TruncSlot(i, k);
        TruncatedMore(g, fs0, fs, View(), i, k, k + 1);
        fs := View();
        k := k + 1;
      }
    }

    // itrunc, the indirect block and its entries.
    method TruncIndirect(i: nat)
      requires Fields() && Inv(g, View(), {}, {}) && i < g.ninodes
      modifies this`logged, blocks, inodes
      ensures old(Tracked()) ==> Tracked()
      ensures Inv(g, View(), {}, {}) && Truncated(g, old(View()), View(), i, g.ndirect, Slots(g))
      ensures MarksOnly(g, old(logged), logged)
    {
      ghost var fs1 := View();
      var ind := inodes[i].addrs[g.ndirect];
      if ind == 0 {
        NoIndirect(g, fs1, i);
        return;
      }
      ghost var missing := FreeEntries(i, ind);
      ghost var fs2 := View();
      assert OwnedBy(g, fs2, ind, i, g.ndirect);
      NotFreedTwice(g, fs1, i, g.ndirect, ind);
      FreeInv(g, fs2, missing, ind);
      MarkSame(g, fs2, ind, false);
      InBitmap(g, ind);
      Bfree(ind);
      ghost var fs3 := View();
      EntriesAndIndirect(g, fs1, fs3, i, ind, missing);
      SetInode(i, inodes[i].(addrs := inodes[i].addrs[g.ndirect := 0]));
      assert View() == SetAddr(fs3, i, g.ndirect, 0);
      ClearSlots(g, fs3, View(), i, g.ndirect, Slots(g), missing + {ind});
      TruncatedAfterMarks(g, fs1, fs3, View(), i, g.ndirect, Slots(g));
    }

    // itrunc: every block of inode i goes back, and nothing else.  The transaction
    // holds bitmap blocks and the inode block only.
    method Itrunc(i: nat)
      requires Fields() && Inv(g, View(), {}, {}) && i < g.ninodes
      modifies this`logged, blocks, inodes, dinodes
      ensures old(Tracked()) ==> Tracked()
      ensures Inv(g, View(), {}, {}) && Emptied(g, old(View()), View(), i)
      ensures logged <= old(logged) + BitmapBlocks(g) + {IBlock(g, i)}
    {
      ghost var fs0 := View();
      TruncDirect(i);
      ghost var fs1 := View();
      TruncIndirect(i);
      ghost var fs2 := View();
      TruncatedMore(g, fs0, fs1, fs2, i, g.ndirect, Slots(g));
      SetInode(i, inodes[i].(size := 0));
      Iupdate(i);
      SizeInv(g, fs2, View(), i);
      EmptiedAll(g, fs0, fs2, View(), i);
    }
  }

  // The blocks of the free bitmap.
  function BitmapBlocks(g: Geo): set<nat>
    requires g.bpb > 0 && g.size > 0
  {
    DivGrows(0, g.size - 1, g.bpb);
    Range(BBlock(g, 0), BBlock(g, g.size - 1) + 1)
  }

  ghost predicate MarksOnly(g: Geo, before: set<nat>, logged: set<nat>)
    requires g.bpb > 0 && g.size > 0
  {
    logged <= before + BitmapBlocks(g)
  }

  lemma DivGrows(a: nat, b: nat, d: nat)
    requires d > 0 && a <= b
    ensures a / d <= b / d
  {
    DivMod(a, d);
    DivMod(b, d);
    var e := b / d - a / d;
    assert e * d == b / d * d - a / d * d;
    assert e <= -1 ==> e * d <= -1 * d;
  }

  lemma InBitmap(g: Geo, b: nat)
    requires g.bpb > 0 && b < g.size
    ensures BBlock(g, b) in BitmapBlocks(g)
  {
    DivGrows(0, b, g.bpb);
    DivGrows(b, g.size - 1, g.bpb);
  }

  // So truncating a file, however long, fits an operation of maxop blocks if the
  // whole bitmap and one inode block do.
  lemma TruncationFits(g: Geo, i: nat, logged: set<nat>, maxop: nat)
    requires g.bpb > 0 && g.size > 0 && g.ipb > 0 && logged <= BitmapBlocks(g) + {IBlock(g, i)}
    ensures |logged| <= (g.size - 1) / g.bpb + 2
    ensures (g.size - 1) / g.bpb + 2 <= maxop ==> |logged| <= maxop
  {
    DivGrows(0, g.size - 1, g.bpb);
    assert 0 / g.bpb == 0;
    SubsetSize(logged, BitmapBlocks(g) + {IBlock(g, i)});
    UnionSize(BitmapBlocks(g), {IBlock(g, i)});
  }

  // What itrunc promises: inode i owns nothing and has size 0, in memory and on
  // disk; exactly its blocks became free; other inodes and all data stay.
  ghost predicate Emptied(g: Geo, fs: Fs, fs': Fs, i: nat)
    requires Sized(g, fs) && i < g.ninodes
  {
    && Sized(g, fs')
    && fs'.inodes[i] == fs.inodes[i].(size := 0, addrs := fs'.inodes[i].addrs) && fs'.dinodes[i] == fs'.inodes[i]
    && (forall k: nat | k < Slots(g) :: Addr(g, fs', i, k) == 0)
    && (forall j: nat | j < g.ninodes && j != i ::
          fs'.inodes[j] == fs.inodes[j] && fs'.dinodes[j] == fs.dinodes[j] && Content(g, fs', j) == Content(g, fs, j))
    && (forall j: nat, k: nat | j < g.ninodes && k < Slots(g) && j != i :: Addr(g, fs', j, k) == Addr(g, fs, j, k))
    && (forall b: nat | b < g.size :: Used(g, fs', b) <==> Used(g, fs, b) && !EntryIn(g, fs, i, 0, Slots(g), b))
  }

  lemma EmptiedAll(g: Geo, fs: Fs, fs2: Fs, fs': Fs, i: nat)
    requires Inv(g, fs, {}, {}) && Inv(g, fs2, {}, {}) && i < g.ninodes && Truncated(g, fs, fs2, i, 0, Slots(g))
    requires Sized(g, fs') && fs'.blocks == fs2.blocks
    requires fs'.inodes == fs2.inodes[i := fs2.inodes[i].(size := 0)] && fs'.dinodes == fs2.dinodes[i := fs'.inodes[i]]
    ensures Emptied(g, fs, fs', i)
  {
    forall b: nat | b < g.size ensures Used(g, fs', b) <==> Used(g, fs, b) && !EntryIn(g, fs, i, 0, Slots(g), b) {
      ItruncFrees(g, fs, fs2, i, b);
    }
    SameBytes(g, fs2, fs', i);
    forall j: nat | j < g.ninodes && j != i
      ensures fs'.inodes[j] == fs.inodes[j] && Content(g, fs', j) == Content(g, fs, j)
    {
      SameInode(g, fs, fs2, j);
      SameBytes(g, fs2, fs', j);
      forall p: nat ensures ByteAt(g, fs2, j, p) == ByteAt(g, fs, j, p) { TruncatedByte(g, fs, fs2, i, j, p); }
    }
  }

  lemma TruncatedByte(g: Geo, fs: Fs, fs': Fs, i: nat, j: nat, p: nat)
    requires Sized(g, fs) && InRange(g, fs) && i < g.ninodes && j < g.ninodes && j != i
    requires Truncated(g, fs, fs', i, 0, Slots(g))
    ensures ByteAt(g, fs', j, p) == ByteAt(g, fs, j, p)
  {
    if BlockOf(g, p) < MaxFile(g) {
      assert Addr(g, fs', j, Slot(g, BlockOf(g, p))) == Addr(g, fs, j, Slot(g, BlockOf(g, p)));
    }
  }

  lemma EntriesAndIndirect(g: Geo, fs1: Fs, fs3: Fs, i: nat, ind: nat, missing: set<nat>)
    requires Sized(g, fs1) && Sized(g, fs3) && SameAddrs(g, fs1, fs3) && i < g.ninodes
    requires ind != 0 && Addr(g, fs1, i, g.ndirect) == ind
    requires forall b: nat :: b in missing <==> EntryIn(g, fs1, i, g.ndirect + 1, Slots(g), b)
    ensures forall b: nat :: b in missing + {ind} <==> EntryIn(g, fs3, i, g.ndirect, Slots(g), b)
  {
    forall b: nat ensures b in missing + {ind} <==> EntryIn(g, fs3, i, g.ndirect, Slots(g), b) {
      if b in missing {
        var q: nat :| g.ndirect + 1 <= q < Slots(g) && Addr(g, fs1, i, q) == b;
        assert Addr(g, fs3, i, q) == b;
      }
      if b == ind { assert Addr(g, fs3, i, g.ndirect) == b; }
      if EntryIn(g, fs3, i, g.ndirect, Slots(g), b) {
        var q: nat :| g.ndirect <= q < Slots(g) && Addr(g, fs3, i, q) == b;
        assert Addr(g, fs1, i, q) == b;
      }
    }
  }

  lemma TruncatedAfterMarks(g: Geo, fs: Fs, fs3: Fs, fs': Fs, i: nat, lo: nat, hi: nat)
    requires Sized(g, fs) && Sized(g, fs3) && i < g.ninodes && hi <= Slots(g)
    requires SameAddrs(g, fs, fs3) && SameData(g, fs, fs3) && Truncated(g, fs3, fs', i, lo, hi)
    ensures Truncated(g, fs, fs', i, lo, hi)
  {
  }

  // Block b is named by one of the slots lo..hi of inode i.
  ghost predicate EntryIn(g: Geo, fs: Fs, i: nat, lo: nat, hi: nat, b: nat)
    requires Sized(g, fs) && i < g.ninodes && hi <= Slots(g)
  {
    b != 0 && exists q: nat :: lo <= q < hi && Addr(g, fs, i, q) == b
  }

  ghost predicate SameData(g: Geo, fs: Fs, fs': Fs)
    requires Sized(g, fs) && Sized(g, fs')
  {
    && fs'.inodes == fs.inodes && fs'.dinodes == fs.dinodes
    && forall b | g.dstart <= b < g.size :: fs'.blocks[b] == fs.blocks[b]
  }

  // Slots lo..hi of inode i are empty; the rest of it, the other inodes and all
  // data blocks are untouched.
  ghost predicate Truncated(g: Geo, fs: Fs, fs': Fs, i: nat, lo: nat, hi: nat)
    requires Sized(g, fs) && i < g.ninodes && hi <= Slots(g)
  {
    && Sized(g, fs') && fs'.dinodes == fs.dinodes
    && (forall j: nat | j < g.ninodes :: fs'.inodes[j] == fs.inodes[j].(addrs := fs'.inodes[j].addrs))
    && (forall b | g.dstart <= b < g.size :: fs'.blocks[b] == fs.blocks[b])
    && Clears(g, fs, fs', i, lo, hi)
  }

  lemma TruncatedMore(g: Geo, fs: Fs, fs1: Fs, fs2: Fs, i: nat, mid: nat, hi: nat)
    requires Sized(g, fs) && i < g.ninodes && mid <= hi <= Slots(g)
    requires Truncated(g, fs, fs1, i, 0, mid) && Truncated(g, fs1, fs2, i, mid, hi)
    ensures Truncated(g, fs, fs2, i, 0, hi)
  {
  }

  lemma NotFreedTwice(g: Geo, fs: Fs, i: nat, q: nat, b: nat)
    requires Sized(g, fs) && Disjoint(g, fs) && i < g.ninodes && q < Slots(g) && b != 0 && Addr(g, fs, i, q) == b
    ensures forall lo: nat, hi: nat | hi <= Slots(g) && !(lo <= q < hi) :: !EntryIn(g, fs, i, lo, hi, b)
  {
    assert OwnedBy(g, fs, b, i, q);
    forall q': nat | q' < Slots(g) && q' != q ensures Addr(g, fs, i, q') != b {
      if Addr(g, fs, i, q') == b { assert OwnedBy(g, fs, b, i, q'); }
    }
  }

  // The owner forgets slots lo..hi whose blocks were freed before.
  lemma ClearSlots(g: Geo, fs: Fs, fs': Fs, i: nat, lo: nat, hi: nat, missing: set<nat>)
    requires Inv(g, fs, {}, missing) && i < g.ninodes && lo <= g.ndirect
    requires hi == lo + 1 <= g.ndirect || (lo == g.ndirect && hi == Slots(g))
    requires fs' == SetAddr(fs, i, lo, 0)
    requires forall b: nat :: b in missing <==> EntryIn(g, fs, i, lo, hi, b)
    ensures Sized(g, fs') && Inv(g, fs', {}, {}) && Truncated(g, fs, fs', i, lo, hi)
  {
    assert Sized(g, fs');
    assert Clears(g, fs, fs', i, lo, hi);
    UnlinkInv(g, fs, fs', i, lo, hi, missing);
  }

  // A direct slot whose block is freed and forgotten.
  lemma SlotFreed(g: Geo, fs: Fs, i: nat, k: nat, b: nat)
    requires Inv(g, fs, {}, {}) && i < g.ninodes && k < g.ndirect && b == fs.inodes[i].addrs[k]
    ensures b == 0 ==> Truncated(g, fs, fs, i, k, k + 1)
    ensures b != 0 ==> b < g.size && Used(g, fs, b)
    ensures b != 0 ==>
      var fs' := SetAddr(Mark(g, fs, b, false), i, k, 0);
      Inv(g, fs', {}, {}) && Truncated(g, fs, fs', i, k, k + 1)
  {
    assert Addr(g, fs, i, k) == b;
    if b != 0 {
      assert OwnedBy(g, fs, b, i, k);
      FreeInv(g, fs, {}, b);
      MarkSame(g, fs, b, false);
      var fs1 := Mark(g, fs, b, false);
      assert {} + {b} == {b} && Addr(g, fs1, i, k) == b;
      ClearSlots(g, fs1, SetAddr(fs1, i, k, 0), i, k, k + 1, {b});
      TruncatedAfterMarks(g, fs, fs1, SetAddr(fs1, i, k, 0), i, k, k + 1);
    }
  }

  // The blocks named by the entries before slot q were freed and are still named.
  ghost predicate FreedUpTo(g: Geo, fs0: Fs, fs: Fs, i: nat, q: nat, missing: set<nat>)
    requires Sized(g, fs0) && i < g.ninodes && q <= Slots(g)
  {
    && Inv(g, fs, {}, missing) && SameAddrs(g, fs0, fs) && SameData(g, fs0, fs)
    && forall b: nat :: b in missing <==> EntryIn(g, fs0, i, g.ndirect + 1, q, b)
  }

  lemma FreedOne(g: Geo, fs0: Fs, fs: Fs, i: nat, q: nat, missing: set<nat>, b: nat)
    requires Inv(g, fs0, {}, {}) && i < g.ninodes && g.ndirect < q < Slots(g) && b == Addr(g, fs0, i, q)
    requires FreedUpTo(g, fs0, fs, i, q, missing)
    ensures b == 0 ==> FreedUpTo(g, fs0, fs, i, q + 1, missing)
    ensures b != 0 ==> b < g.size && Used(g, fs, b) && FreedUpTo(g, fs0, Mark(g, fs, b, false), i, q + 1, missing + {b})
  {
    if b != 0 {
      assert OwnedBy(g, fs, b, i, q) by { assert Addr(g, fs, i, q) == b; }
      NotFreedTwice(g, fs0, i, q, b);
      FreeInv(g, fs, missing, b);
      MarkSame(g, fs, b, false);
      var fs' := Mark(g, fs, b, false);
      forall j: nat, k: nat | j < g.ninodes && k < Slots(g) ensures Addr(g, fs', j, k) == Addr(g, fs0, j, k) {
        assert Addr(g, fs, j, k) == Addr(g, fs0, j, k);
      }
    }
  }

  lemma NoIndirect(g: Geo, fs: Fs, i: nat)
    requires Sized(g, fs) && i < g.ninodes && fs.inodes[i].addrs[g.ndirect] == 0
    ensures Truncated(g, fs, fs, i, g.ndirect, Slots(g))
  {
  }

  // After itrunc exactly the truncated inode's blocks are free again.
  lemma ItruncFrees(g: Geo, fs: Fs, fs': Fs, i: nat, b: nat)
    requires Inv(g, fs, {}, {}) && Inv(g, fs', {}, {}) && i < g.ninodes && Truncated(g, fs, fs', i, 0, Slots(g))
    requires b < g.size
    ensures Used(g, fs', b) <==> Used(g, fs, b) && !EntryIn(g, fs, i, 0, Slots(g), b)
  {
    if EntryIn(g, fs, i, 0, Slots(g), b) {
      var q: nat :| q < Slots(g) && Addr(g, fs, i, q) == b;
      assert OwnedBy(g, fs, b, i, q);
      if Owned(g, fs', b) {
        var j, k :| OwnedBy(g, fs', b, j, k);
        assert OwnedBy(g, fs, b, j, k);
      }
    } else {
      if Owned(g, fs, b) {
        var j: nat, k: nat :| OwnedBy(g, fs, b, j, k);
        assert OwnedBy(g, fs', b, j, k);
      }
      if Owned(g, fs', b) {
        var j: nat, k: nat :| OwnedBy(g, fs', b, j, k);
        assert OwnedBy(g, fs, b, j, k);
      }
    }
  }

  lemma BlockInFile(g: Geo, at: nat)
    requires g.bsize > 0 && at < MaxFile(g) * g.bsize
    ensures BlockOf(g, at) < MaxFile(g)
  {
    DivMod(at, g.bsize);
    FewerBlocks(BlockOf(g, at), MaxFile(g), g.bsize);
  }

  ghost predicate Loop(g: Geo, fs0: Fs, fs: Fs, i: nat, off: nat, src: seq<byte>, k: nat, tot: nat, t: nat,
                       bits: set<nat>, datas: set<nat>, before: set<nat>, logged: set<nat>)
    requires Sized(g, fs0) && Sized(g, fs) && i < g.ninodes && tot <= |src|
  {
    && Writing(g, fs0, fs, i, off, src, tot)
    && (Whole(g, fs0, i) && off + |src| <= fs0.inodes[i].size ==> fs.inodes == fs0.inodes)
    && Progress(g, off, |src|, tot, t) && t <= (if OffIn(g, off) == 0 then k else k + 1)
    && Logged(g, fs0, fs, i, off, t, bits, datas, before, logged)
  }

  lemma LoopStart(g: Geo, fs: Fs, i: nat, off: nat, src: seq<byte>, k: nat, before: set<nat>)
    requires Sized(g, fs) && i < g.ninodes
    ensures Loop(g, fs, fs, i, off, src, k, 0, 0, {}, {}, before, before)
  {
  }

  lemma Round(g: Geo, fs0: Fs, fs: Fs, fs1: Fs, fs2: Fs, i: nat, off: nat, src: seq<byte>, k: nat, tot: nat, m: nat,
              a: nat, t: nat, bits: set<nat>, datas: set<nat>, more: set<nat>, before: set<nat>, logged: set<nat>,
              logged2: set<nat>, tot2: nat, t2: nat, bits2: set<nat>, datas2: set<nat>)
    requires Sized(g, fs0) && Inv(g, fs, {}, {}) && Inv(g, fs1, {}, {}) && Sized(g, fs2) && i < g.ninodes
    requires tot2 == tot + m && t2 == t + 1 && bits2 == bits + more && datas2 == datas + {a}
    requires off <= fs0.inodes[i].size && |src| <= k * g.bsize
    requires tot < |src| && BlockOf(g, off + tot) < MaxFile(g)
    requires m == if |src| - tot < g.bsize - OffIn(g, off + tot) then |src| - tot else g.bsize - OffIn(g, off + tot)
    requires Loop(g, fs0, fs, i, off, src, k, tot, t, bits, datas, before, logged)
    requires Mapped(g, fs, fs1, i, BlockOf(g, off + tot), a)
    requires 0 < a < g.size && OffIn(g, off + tot) + m <= g.bsize
    requires fs2 == WriteBlock(g, fs1, a, OffIn(g, off + tot), src[tot..tot + m]) && SameAddrs(g, fs1, fs2)
    requires logged2 <= logged + more + {a} + Ind(g, fs2, i)
    requires |more| <= (if Addr(g, fs, i, Slot(g, BlockOf(g, off + tot))) == 0 then 1 else 0)
                     + (if Addr(g, fs, i, g.ndirect) == 0 && Addr(g, fs2, i, g.ndirect) != 0 then 1 else 0)
    ensures tot2 <= |src| && Loop(g, fs0, fs2, i, off, src, k, tot2, t2, bits2, datas2, before, logged2)
  {
    ProgressStep(g, off, |src|, tot, t, m, k);
    var mapped := Addr(g, fs, i, Slot(g, BlockOf(g, off + tot))) != 0;
    RoundMapped(g, fs0, fs, i, off, src, tot, t);
    RoundWritten(g, fs0, fs, fs1, fs2, i, off, src, tot, m, a);
    LoggedStep(g, fs0, fs, fs2, i, off, t, bits, datas, before, logged, more, a, logged2, mapped);
  }

  // Without holes a write that ends below the size meets mapped blocks only.
  lemma RoundMapped(g: Geo, fs0: Fs, fs: Fs, i: nat, off: nat, src: seq<byte>, tot: nat, t: nat)
    requires Sized(g, fs0) && Sized(g, fs) && i < g.ninodes && tot < |src| && Writing(g, fs0, fs, i, off, src, tot)
    requires off <= fs0.inodes[i].size && (t == 0 ==> tot == 0) && BlockOf(g, off + tot) < MaxFile(g)
    ensures t == 0 && FirstMapped(g, fs0, i, off) ==> Addr(g, fs, i, Slot(g, BlockOf(g, off + tot))) != 0
    ensures Whole(g, fs0, i) && off + |src| <= fs0.inodes[i].size ==>
      Addr(g, fs, i, Slot(g, BlockOf(g, off + tot))) != 0
  {
    var k := Slot(g, BlockOf(g, off + tot));
    assert Addr(g, fs0, i, k) != 0 ==> Addr(g, fs, i, k) != 0;
    if Whole(g, fs0, i) && off + tot < fs0.inodes[i].size { assert Addr(g, fs0, i, k) != 0; }
  }

  // In a file without holes a write that starts inside a block starts in a mapped one.
  lemma StartsMapped(g: Geo, fs0: Fs, i: nat, off: nat)
    requires Sized(g, fs0) && i < g.ninodes && Whole(g, fs0, i) && off <= fs0.inodes[i].size
    ensures OffIn(g, off) == 0 || FirstMapped(g, fs0, i, off)
  {
    if OffIn(g, off) != 0 {
      SameBlock(g, off);
      assert BlockOf(g, off - 1) < MaxFile(g) && Addr(g, fs0, i, Slot(g, BlockOf(g, off - 1))) != 0;
    }
  }

  lemma RoundWritten(g: Geo, fs0: Fs, fs: Fs, fs1: Fs, fs2: Fs, i: nat, off: nat, src: seq<byte>, tot: nat, m: nat,
                     a: nat)
    requires Sized(g, fs0) && Inv(g, fs, {}, {}) && Inv(g, fs1, {}, {}) && Sized(g, fs2) && i < g.ninodes
    requires 0 < m && tot + m <= |src| && BlockOf(g, off + tot) < MaxFile(g) && OffIn(g, off + tot) + m <= g.bsize
    requires Writing(g, fs0, fs, i, off, src, tot) && Mapped(g, fs, fs1, i, BlockOf(g, off + tot), a)
    requires 0 < a < g.size && fs2 == WriteBlock(g, fs1, a, OffIn(g, off + tot), src[tot..tot + m])
    requires SameAddrs(g, fs1, fs2)
    ensures Writing(g, fs0, fs2, i, off, src, tot + m)
    ensures Addr(g, fs, i, Slot(g, BlockOf(g, off + tot))) != 0 ==> fs2.inodes == fs.inodes
    ensures Addr(g, fs, i, g.ndirect) != 0 ==> Addr(g, fs2, i, g.ndirect) == Addr(g, fs, i, g.ndirect)
  {
    MappedKeepsWriting(g, fs0, fs, fs1, i, off, src, tot, BlockOf(g, off + tot), a);
    WriteStep(g, fs0, fs1, fs2, i, off, src, tot, m, a);
  }

  lemma SameBlock(g: Geo, off: nat)
    requires g.bsize > 0 && OffIn(g, off) != 0
    ensures BlockOf(g, off - 1) == BlockOf(g, off)
  {
    DivMod(off, g.bsize);
    DivMod(off - 1, g.bsize);
    var e := off / g.bsize - (off - 1) / g.bsize;
    assert e * g.bsize == off / g.bsize * g.bsize - (off - 1) / g.bsize * g.bsize;
    BetweenMultiples(e, g.bsize);
  }

  // Sizes and inode blocks own nothing.
  lemma SizeInv(g: Geo, fs: Fs, fs': Fs, i: nat)
    requires Inv(g, fs, {}, {}) && i < g.ninodes && fs'.blocks == fs.blocks && |fs'.dinodes| == g.ninodes
    requires |fs'.inodes| == g.ninodes
    requires forall j: nat | j < g.ninodes :: fs'.inodes[j].addrs == fs.inodes[j].addrs
    ensures Inv(g, fs', {}, {})
  {
    assert Sized(g, fs') && SameAddrs(g, fs, fs');
    MetaUsed(g, fs, fs');
    SameOwners(g, fs, fs');
    SameKeepsRange(g, fs, fs');
  }

  lemma ReadSpan(g: Geo, fs: Fs, i: nat, at: nat, m: nat, a: nat)
    requires Inv(g, fs, {}, {}) && i < g.ninodes && BlockOf(g, at) < MaxFile(g)
    requires 0 < m && OffIn(g, at) + m <= g.bsize && at + m <= fs.inodes[i].size
    requires a == Addr(g, fs, i, Slot(g, BlockOf(g, at))) && a != 0
    ensures 0 < a < g.size && |fs.blocks[a]| == g.bsize
    ensures fs.blocks[a][OffIn(g, at)..OffIn(g, at) + m] == Content(g, fs, i)[at..at + m]
  {
    var part, want := fs.blocks[a][OffIn(g, at)..OffIn(g, at) + m], Content(g, fs, i)[at..at + m];
    forall x | 0 <= x < m ensures part[x] == want[x] {
      SpanInBlock(g, at, m, at + x);
    }
  }

  // A block just allocated and put into an empty entry of the indirect block.
  lemma EntryMapped(g: Geo, fs: Fs, fs1: Fs, i: nat, e: nat, ind: nat, b: nat)
    requires Inv(g, fs, {}, {}) && i < g.ninodes && e < NIndirect(g) && ind != 0 && Addr(g, fs, i, g.ndirect) == ind
    requires Addr(g, fs, i, g.ndirect + 1 + e) == 0 && 0 < b < g.size && !Used(g, fs, b) && !Owned(g, fs, b)
    requires fs1 == Allocate(g, fs, b) && Inv(g, fs1, {b}, {}) && SameAddrs(g, fs, fs1) && Extends(g, fs, fs1, i)
    ensures ind < g.size && ind != b && Addr(g, fs1, i, g.ndirect) == ind
    ensures var fs2 := SetEntry(g, fs1, ind, e, b);
      Inv(g, fs2, {}, {}) && Mapped(g, fs, fs2, i, g.ndirect + e, b) && Addr(g, fs2, i, g.ndirect) == ind
  {
    assert Addr(g, fs1, i, g.ndirect) == ind && Addr(g, fs1, i, g.ndirect + 1 + e) == 0;
    assert ind != b by { assert OwnedBy(g, fs, ind, i, g.ndirect); }
    LinkEntry(g, fs1, {b}, i, e, b);
    EntryExtends(g, fs1, i, e, b);
    assert {b} - {b} == {};
    var fs2 := SetEntry(g, fs1, ind, e, b);
    ExtendsTransitive(g, fs, fs1, fs2, i);
    assert Addr(g, fs2, i, g.ndirect) == Addr(g, fs1, i, g.ndirect);
    forall k: nat | k < Slots(g) && k != g.ndirect + 1 + e ensures Addr(g, fs2, i, k) == Addr(g, fs, i, k) {
      assert Addr(g, fs1, i, k) == Addr(g, fs, i, k);
    }
  }

  // Where a read of n bytes at off ends.
  function ReadEnd(size: nat, off: nat, n: nat): (r: nat)
    ensures r == Min(size, off + n)
  {
    if off + n > size then size else off + n
  }

  // One part of a read: bytes of the file, all files unchanged, or a full disk.
  ghost predicate PartRead(g: Geo, fs: Fs, fs': Fs, i: nat, at: nat, left: nat, part: Option<seq<byte>>)
    requires Sized(g, fs) && Sized(g, fs') && i < g.ninodes && at + left <= fs.inodes[i].size
  {
    match part
    case None => Full(g, fs')
    case Some(s) =>
      Inv(g, fs', {}, {}) && SameFiles(g, fs, fs') && 0 < |s| <= left && s == Content(g, fs, i)[at..at + |s|]
  }

  // What readi's loop keeps.
  ghost predicate ReadSofar(g: Geo, fs: Fs, fs': Fs, i: nat, off: nat, at: nat, dst: Result<seq<byte>>)
    requires Sized(g, fs) && Sized(g, fs') && i < g.ninodes && off <= at <= fs.inodes[i].size
  {
    match dst
    case Panic => Full(g, fs')
    case Fail => fs' == fs
    case Ok(s) => Inv(g, fs', {}, {}) && SameFiles(g, fs, fs') && s == Content(g, fs, i)[off..at]
  }

  lemma ReadNone(g: Geo, fs: Fs, i: nat, off: nat)
    requires Inv(g, fs, {}, {}) && i < g.ninodes && off <= fs.inodes[i].size
    ensures ReadSofar(g, fs, fs, i, off, off, Ok([]))
  {
  }

  lemma ReadReady(g: Geo, fs: Fs, fs1: Fs, i: nat, off: nat, at: nat, out: seq<byte>)
    requires Sized(g, fs) && Sized(g, fs1) && i < g.ninodes && off <= at <= fs.inodes[i].size
    requires ReadSofar(g, fs, fs1, i, off, at, Ok(out))
    ensures Inv(g, fs1, {}, {}) && fs1.inodes[i].size == fs.inodes[i].size
  {
    assert SameFile(g, fs, fs1, i);
  }

  lemma ReadMore(g: Geo, fs: Fs, fs1: Fs, fs2: Fs, i: nat, off: nat, at: nat, left: nat, out: seq<byte>,
                 part: seq<byte>)
    requires Sized(g, fs) && Sized(g, fs1) && Sized(g, fs2) && i < g.ninodes && off <= at
    requires at + left <= fs.inodes[i].size
    requires fs1.inodes[i].size == fs.inodes[i].size && ReadSofar(g, fs, fs1, i, off, at, Ok(out))
    requires PartRead(g, fs1, fs2, i, at, left, Some(part))
    ensures 0 < |part| <= left && ReadSofar(g, fs, fs2, i, off, at + |part|, Ok(out + part))
  {
    assert SameFile(g, fs, fs1, i);
    SameTwice(g, fs, fs1, fs2);
    JoinSlices(Content(g, fs, i), off, at, at + |part|);
  }

  lemma ReadMapped(g: Geo, fs: Fs, fs': Fs, i: nat, at: nat, left: nat, m: nat, a: nat)
    requires Inv(g, fs, {}, {}) && Sized(g, fs') && i < g.ninodes && at + left <= fs.inodes[i].size && 0 < left
    requires BlockOf(g, at) < MaxFile(g) && Got(g, fs, fs', i, BlockOf(g, at), Some(a))
    requires m == if left < g.bsize - OffIn(g, at) then left else g.bsize - OffIn(g, at)
    ensures a < g.size && OffIn(g, at) + m <= |fs'.blocks[a]|
    ensures PartRead(g, fs, fs', i, at, left, Some(fs'.blocks[a][OffIn(g, at)..OffIn(g, at) + m]))
  {
    MappedSame(g, fs, fs', i, BlockOf(g, at), a);
    assert SameFile(g, fs, fs', i);
    ReadSpan(g, fs', i, at, m, a);
  }

  lemma JoinSlices(s: seq<byte>, a: nat, b: nat, c: nat)
    requires a <= b <= c <= |s|
    ensures s[a..b] + s[b..c] == s[a..c]
  {
  }

  lemma MappedThrough(g: Geo, fs: Fs, fs1: Fs, fs2: Fs, i: nat, bn: nat, a: nat)
    requires Sized(g, fs) && Sized(g, fs1) && Sized(g, fs2) && i < g.ninodes && g.ndirect <= bn < MaxFile(g)
    requires Extends(g, fs, fs1, i) && Mapped(g, fs1, fs2, i, bn, a)
    requires forall k: nat | k < Slots(g) && k != g.ndirect :: Addr(g, fs1, i, k) == Addr(g, fs, i, k)
    requires Addr(g, fs, i, g.ndirect) != 0 ==> fs1 == fs
    requires forall b: nat | b < g.size && !Used(g, fs1, b) :: !Used(g, fs, b)
    ensures Mapped(g, fs, fs2, i, bn, a)
  {
    ExtendsTransitive(g, fs, fs1, fs2, i);
    assert Addr(g, fs, i, Slot(g, bn)) != 0 ==> Addr(g, fs, i, g.ndirect) != 0;
  }

  lemma AllocateFrees(g: Geo, fs: Fs, b: nat)
    requires Sized(g, fs) && g.dstart <= b < g.size && !Used(g, fs, b)
    ensures Sized(g, Allocate(g, fs, b))
    ensures forall c: nat | c < g.size :: Used(g, Allocate(g, fs, b), c) <==> Used(g, fs, c) || c == b
  {
    forall c: nat | c < g.size ensures Used(g, Allocate(g, fs, b), c) <==> Used(g, fs, c) || c == b {
      MarkUsed(g, fs, b, true, c);
    }
  }

  lemma GroupOf(g: Geo, b: nat, bi: nat)
    requires g.bpb > 0 && b % g.bpb == 0 && bi < g.bpb
    ensures BBlock(g, b + bi) == BBlock(g, b) && (b + bi) % g.bpb == bi
  {
    var c := b + bi;
    DivMod(c, g.bpb);
    DivMod(b, g.bpb);
    var e := c / g.bpb - b / g.bpb;
    assert e * g.bpb == c / g.bpb * g.bpb - b / g.bpb * g.bpb;
    BetweenMultiples(e, g.bpb);
  }

  lemma NextGroup(g: Geo, b: nat)
    requires g.bpb > 0 && b % g.bpb == 0
    ensures (b + g.bpb) % g.bpb == 0
  {
    var c := b + g.bpb;
    DivMod(c, g.bpb);
    DivMod(b, g.bpb);
    var e := c / g.bpb - (b / g.bpb + 1);
    assert (b / g.bpb + 1) * g.bpb == b + g.bpb;
    assert e * g.bpb == c / g.bpb * g.bpb - (b / g.bpb + 1) * g.bpb;
    BetweenMultiples(e, g.bpb);
  }
}
