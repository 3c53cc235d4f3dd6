// file.c: a write of any length is cut into transactions that fit the log.

module FsFile {
  import opened Wrappers
  import opened FsDisk
  import opened FsInvariant
  import opened FsContent
  import opened FsWrite
  import opened FsKernel

  // max = ((MAXOPBLOCKS-1-1-2) / 2) * 512
  // the largest whose transaction still fits
  function ChunkBlocks(maxop: nat): (r: nat)
    requires maxop >= 6
    ensures r > 0 && 2 * r + 4 <= maxop < 2 * (r + 1) + 4
  {
    (maxop - 1 - 1 - 2) / 2
  }

  lemma SpliceTwice(s: seq<byte>, off: nat, a: seq<byte>, b: seq<byte>)
    requires off <= |s|
    ensures Spliced(Spliced(s, off, a), off + |a|, b) == Spliced(s, off, a + b)
  {
  }

  // How a file and its file system look after the first n bytes of src were written.
  ghost predicate WroteSoFar(g: Geo, fs0: Fs, fs: Fs, ip: nat, off: nat, src: seq<byte>)
    requires ip < g.ninodes && Sized(g, fs0) && off <= fs0.inodes[ip].size
  {
    Inv(g, fs, {}, {}) && WroteFile(g, fs0, fs, ip, off, src)
  }

  lemma WroteMore(g: Geo, fs0: Fs, fs1: Fs, fs2: Fs, ip: nat, off: nat, a: seq<byte>, b: seq<byte>)
    requires ip < g.ninodes && Sized(g, fs0) && off <= fs0.inodes[ip].size && Inv(g, fs2, {}, {})
    requires WroteSoFar(g, fs0, fs1, ip, off, a) && off + |a| <= fs1.inodes[ip].size
    requires WroteFile(g, fs1, fs2, ip, off + |a|, b)
    ensures WroteSoFar(g, fs0, fs2, ip, off, a + b) && off + |a| + |b| <= fs2.inodes[ip].size
  {
    SpliceTwice(Content(g, fs0, ip), off, a, b);
    forall j: nat | j < g.ninodes && j != ip ensures OtherFile(g, fs0, fs2, j) {
      assert OtherFile(g, fs0, fs1, j) && OtherFile(g, fs1, fs2, j);
    }
    assert |Content(g, fs2, ip)| == fs2.inodes[ip].size;
  }

  // Bytes of an n-byte write that t transactions have written.
  function ChunkEnd(maxop: nat, n: nat, t: nat): (e: nat)
    requires maxop >= 6
    ensures e <= n
  {
    if t == 0 then 0 else
      var e := ChunkEnd(maxop, n, t - 1);
      e + if n - e > ChunkBlocks(maxop) * 512 then ChunkBlocks(maxop) * 512 else n - e
  }

  // Whole chunks of the largest size, as far as the buffer goes.
  lemma {:induction false} ChunkEndIs(maxop: nat, n: nat, t: nat)
    requires maxop >= 6
    ensures ChunkEnd(maxop, n, t) == Min(n, t * (512 * ((maxop - 4) / 2)))
  {
    if t > 0 {
      ChunkEndIs(maxop, n, t - 1);
      var c := 512 * ((maxop - 4) / 2);
      assert t * c == (t - 1) * c + c;
    }
  }

  // File ip has no holes, and its dinode is up to date.
  ghost predicate Clean(g: Geo, fs: Fs, ip: nat)
    requires Sized(g, fs) && ip < g.ninodes
  {
    Whole(g, fs, ip) && fs.inodes[ip] == fs.dinodes[ip]
  }

  // Only logged blocks changed. They fit what begin_op reserved, though in a file with
  // holes there may be one bitmap block more.
  ghost predicate TxnDone(g: Geo, fs: Fs, fs': Fs, ip: nat, logged: set<nat>, maxop: nat)
    requires Sized(g, fs) && ip < g.ninodes
  {
    g.ipb > 0 && OnlyLogged(g, fs, fs', logged) && |logged| <= if Whole(g, fs, ip) then maxop else maxop + 1
  }

  // One transaction of a write: its own bytes are in the file.
  ghost predicate ChunkDone(g: Geo, fs: Fs, fs': Fs, ip: nat, off: nat, piece: seq<byte>, logged: set<nat>,
                            maxop: nat) {
    && Inv(g, fs', {}, {}) && Sized(g, fs) && ip < g.ninodes && off <= fs.inodes[ip].size
    && WroteFile(g, fs, fs', ip, off, piece) && off + |piece| <= fs'.inodes[ip].size && off + |piece| < U32
    && (Clean(g, fs, ip) ==> Clean(g, fs', ip)) && TxnDone(g, fs, fs', ip, logged, maxop)
  }

  // The states between the transactions of a write, and what each transaction logged.
  ghost predicate StepsOf(g: Geo, steps: seq<Fs>, txns: seq<set<nat>>, ip: nat, off: nat, src: seq<byte>, maxop: nat)
    requires maxop >= 6
    decreases |txns|
  {
    && |steps| == |txns| + 1 && ip < g.ninodes && Sized(g, steps[0]) && off <= steps[0].inodes[ip].size
    && StepDone(g, steps[0], steps[|txns|], ip, off, src, ChunkEnd(maxop, |src|, |txns|))
    && (txns != [] ==>
          var t := |txns| - 1;
          && StepsOf(g, steps[..t + 1], txns[..t], ip, off, src, maxop)
          && Sized(g, steps[t]) && TxnDone(g, steps[t], steps[t + 1], ip, txns[t], maxop))
  }

  // The first e bytes of src are written.
  ghost predicate StepDone(g: Geo, fs0: Fs, fs: Fs, ip: nat, off: nat, src: seq<byte>, e: nat)
    requires e <= |src| && ip < g.ninodes && Sized(g, fs0) && off <= fs0.inodes[ip].size
  {
    && WroteSoFar(g, fs0, fs, ip, off, src[..e])
    && off + e <= fs.inodes[ip].size && off + e < U32 && (Clean(g, fs0, ip) ==> Clean(g, fs, ip))
  }

  lemma FirstStep(g: Geo, fs: Fs, ip: nat, off: nat, src: seq<byte>, maxop: nat)
    requires maxop >= 6 && Inv(g, fs, {}, {}) && ip < g.ninodes && off <= fs.inodes[ip].size && off < U32
    ensures StepsOf(g, [fs], [], ip, off, src, maxop)
  {
    assert src[..0] == [];
    assert WroteSoFar(g, fs, fs, ip, off, []);
  }

  lemma NextDone(g: Geo, fs0: Fs, last: Fs, fs: Fs, ip: nat, off: nat, src: seq<byte>, i: nat, n: nat)
    requires ip < g.ninodes && Sized(g, fs0) && off <= fs0.inodes[ip].size && Inv(g, fs, {}, {}) && i + n <= |src|
    requires WroteSoFar(g, fs0, last, ip, off, src[..i]) && off + i <= last.inodes[ip].size
    requires WroteFile(g, last, fs, ip, off + i, src[i..i + n])
    ensures WroteSoFar(g, fs0, fs, ip, off, src[..i + n]) && off + i + n <= fs.inodes[ip].size
  {
    assert src[..i] + src[i..i + n] == src[..i + n];
    WroteMore(g, fs0, last, fs, ip, off, src[..i], src[i..i + n]);
  }

  // One more transaction.
  lemma NextStep(g: Geo, steps: seq<Fs>, txns: seq<set<nat>>, fs: Fs, logged: set<nat>, ip: nat, off: nat,
                 src: seq<byte>, maxop: nat, i: nat, n: nat, more: seq<Fs>, moreTxns: seq<set<nat>>)
    requires maxop >= 6 && more == steps + [fs] && moreTxns == txns + [logged] && |steps| == |txns| + 1
    requires i + n <= |src|
    requires i == ChunkEnd(maxop, |src|, |txns|) && i + n == ChunkEnd(maxop, |src|, |txns| + 1)
    ensures (StepsOf(g, steps, txns, ip, off, src, maxop)
             && ChunkDone(g, steps[|txns|], fs, ip, off + i, src[i..i + n], logged, maxop))
        ==> StepsOf(g, more, moreTxns, ip, off, src, maxop)
  {
    var t := |txns|;
    assert more[..t + 1] == steps && moreTxns[..t] == txns;
    if StepsOf(g, steps, txns, ip, off, src, maxop)
       && ChunkDone(g, steps[t], fs, ip, off + i, src[i..i + n], logged, maxop) {
      assert StepDone(g, steps[0], fs, ip, off, src, i + n) by {
        NextDone(g, steps[0], steps[t], fs, ip, off, src, i, n);
      }
      assert TxnDone(g, steps[t], fs, ip, logged, maxop);
    }
  }

  // Any of the states, and any of the transactions.
  lemma {:induction false} StepAt(g: Geo, steps: seq<Fs>, txns: seq<set<nat>>, ip: nat, off: nat, src: seq<byte>,
                                  maxop: nat, t: nat)
    requires maxop >= 6 && StepsOf(g, steps, txns, ip, off, src, maxop) && t <= |txns|
    ensures StepDone(g, steps[0], steps[t], ip, off, src, ChunkEnd(maxop, |src|, t))
    ensures t < |txns| ==> Sized(g, steps[t]) && TxnDone(g, steps[t], steps[t + 1], ip, txns[t], maxop)
    decreases |txns|
  {
    var n := |txns|;
    if t < n { StepAt(g, steps[..n], txns[..n - 1], ip, off, src, maxop, t); }
  }

  // i bytes are written in |txns| transactions and the offset has moved past them;
  // r is the outcome so far.
  ghost predicate Sofar(g: Geo, fs: Fs, ip: nat, off: nat, src: seq<byte>, maxop: nat, i: nat, off0: nat,
                        steps: seq<Fs>, txns: seq<set<nat>>, r: Result<nat>)
    requires maxop >= 6
  {
    && StepsOf(g, steps, txns, ip, off0, src, maxop) && i == ChunkEnd(maxop, |src|, |txns|) && Sized(g, fs)
    && match r
       case Panic => Full(g, fs)
       case Fail =>
         && off == off0 + i && steps[|txns|] == fs
         && (off0 + |src| > MaxFile(g) * g.bsize || off0 + |src| >= U32)
       case Ok(_) => off == off0 + i && steps[|txns|] == fs
  }

  lemma SofarNext(g: Geo, fs: Fs, fs': Fs, logged: set<nat>, ip: nat, off: nat, src: seq<byte>, maxop: nat, i: nat,
                  n: nat, off0: nat, steps: seq<Fs>, txns: seq<set<nat>>, r: Result<nat>)
    returns (more: seq<Fs>, moreTxns: seq<set<nat>>)
    requires maxop >= 6 && i < |src| && r.Ok? && Sofar(g, fs, ip, off, src, maxop, i, off0, steps, txns, r)
    requires n == if |src| - i > ChunkBlocks(maxop) * 512 then ChunkBlocks(maxop) * 512 else |src| - i
    requires ChunkDone(g, fs, fs', ip, off, src[i..i + n], logged, maxop)
    ensures Sofar(g, fs', ip, off + n, src, maxop, i + n, off0, more, moreTxns, r) && more[0] == steps[0]
  {
    more, moreTxns := steps + [fs'], txns + [logged];
    NextStep(g, steps, txns, fs', logged, ip, off0, src, maxop, i, n, more, moreTxns);
  }

  class File {
    const ip: nat
    var off: nat

    ghost predicate Ready(k: Kernel)
      reads this, k, k.blocks, k.inodes, k.dinodes
    {
      && k.Fields() && Inv(k.g, k.View(), {}, {}) && ip < k.g.ninodes
      && off <= k.inodes[ip].size
    }

    // One round of filewrite: begin_op, writei, end_op.
    method WriteChunk(k: Kernel, piece: seq<byte>, maxop: nat) returns (r: Result<nat>)
      requires Ready(k) && off < U32
      requires maxop >= 6 && k.g.bsize == 512 && |piece| <= ChunkBlocks(maxop) * 512 && |piece| < U32
      modifies this`off, k`logged, k`base, k.blocks, k.inodes, k.dinodes
      ensures r.Fail? ==> k.logged == {}
      ensures Sized(k.g, k.View())
      ensures r.Panic? ==> Full(k.g, k.View())
      ensures r.Fail? ==> k.View() == old(k.View()) && off == old(off)
      ensures r.Fail? ==> off + |piece| > MaxFile(k.g) * k.g.bsize || off + |piece| >= U32
      ensures r.Ok? ==> Ready(k) && r.value == |piece| && off == old(off) + |piece| < U32
      ensures r.Ok? ==> ChunkDone(k.g, old(k.View()), k.View(), ip, old(off), piece, k.logged, maxop)
    {
      ghost var fs := k.View();
      k.BeginOp();
      ghost var wrote;
      r, wrote := k.Writei(ip, piece, off, ChunkBlocks(maxop));
      if r.Ok? {
        SubsetSize(k.logged, wrote);
        if Whole(k.g, fs, ip) { StartsMapped(k.g, fs, ip, off); }
        assert |Content(k.g, k.View(), ip)| == k.inodes[ip].size;
        off := off + r.value;
      }
    }

    // filewrite on an inode.  `txns` holds the blocks logged by each transaction,
    // `steps` the states between the transactions.
    method Write(k: Kernel, src: seq<byte>, maxop: nat)
      returns (r: Result<nat>, ghost done: nat, ghost txns: seq<set<nat>>, ghost steps: seq<Fs>)
      requires Ready(k) && off < U32
      requires |src| < 0x8000_0000 && maxop >= 6 && k.g.bsize == 512
      modifies this`off, k`logged, k`base, k.blocks, k.inodes, k.dinodes
      ensures Sized(k.g, k.View()) && done == ChunkEnd(maxop, |src|, |txns|)
      // Between transactions whole chunks of the buffer are in the file, and if it has
      // no holes every transaction fits the space begin_op reserved for it.
      ensures StepsOf(k.g, steps, txns, ip, old(off), src, maxop) && steps[0] == old(k.View())
      ensures !r.Panic? ==> steps[|steps| - 1] == k.View()
      // Success is one logical write of the whole buffer.
      ensures r.Ok? ==> r.value == done == |src|
      // Unless the disk was full, a prefix has been written and the offset moved past it.
      ensures !r.Panic? ==> WroteSoFar(k.g, old(k.View()), k.View(), ip, old(off), src[..done])
      ensures !r.Panic? ==> Ready(k) && off == old(off) + done
      // A write is cut short only if all of it would have passed the largest file or 2^32.
      ensures r.Fail? ==> old(off) + |src| > MaxFile(k.g) * k.g.bsize || old(off) + |src| >= U32
      ensures r.Panic? ==> Full(k.g, k.View())
    {
      ghost var off0 := off;
      txns, steps := [], [k.View()];
      FirstStep(k.g, k.View(), ip, off, src, maxop);
      var i: nat := 0;
      r := Ok(|src|);
      while r.Ok? && i < |src|
        invariant k.Fields() && Sofar(k.g, k.View(), ip, off, src, maxop, i, off0, steps, txns, r)
        invariant steps[0] == old(k.View()) && (!r.Panic? ==> Ready(k))
        decreases r.Ok?, |src| - i
      {
        ghost var fs, off1 := k.View(), off;
        var max := ChunkBlocks(maxop) * 512;
        var n1 := if |src| - i > max then max else |src| - i;
        r := WriteChunk(k, src[i..i + n1], maxop);
        if r.Ok? {
          steps, txns := SofarNext(k.g, fs, k.View(), k.logged, ip, off1, src, maxop, i, n1, off0, steps, txns, r);
          i := i + n1;
        }
      }
      done := i;
      if r.Ok? { r := Ok(|src|); }
    }
  }
}
