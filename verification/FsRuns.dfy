// Runs of file operations: the file system is a table of byte strings.

module FsRuns {
  import opened Wrappers
  import opened FsDisk
  import opened FsInvariant
  import opened FsContent
  import opened FsWrite
  import opened FsKernel

  datatype FileOp =
    | WriteAt(ip: nat, off: nat, src: seq<byte>)
    | ReadAt(ip: nat, off: nat, n: nat)
    | Truncate(ip: nat)

  datatype Answer = Stored(n: nat) | Bytes(data: seq<byte>) | Cleared | Refused

  // ---------------------------------------------------------------- the table of byte strings

  type Files = seq<seq<byte>>

  // Arguments are unsigned ints.
  predicate Proper(g: Geo, op: FileOp) {
    && op.ip < g.ninodes
    && (op.WriteAt? ==> op.off < U32 && |op.src| < U32)
    && (op.ReadAt? ==> op.off < U32 && op.n < U32)
  }

  // The -1 of readi and writei: past the end, a sum that wraps, a file too large.
  predicate Refuses(g: Geo, files: Files, op: FileOp)
    requires op.ip < |files|
  {
    match op
    case WriteAt(ip, off, src) => off > |files[ip]| || off + |src| >= U32 || off + |src| > MaxFile(g) * g.bsize
    case ReadAt(ip, off, n) => off > |files[ip]| || off + n >= U32
    case Truncate(_) => false
  }

  function Apply(g: Geo, files: Files, op: FileOp): (files': Files)
    requires op.ip < |files|
    ensures |files'| == |files|
  {
    if Refuses(g, files, op) || op.ReadAt? then files
    else files[op.ip := if op.WriteAt? then Spliced(files[op.ip], op.off, op.src) else []]
  }

  function Reply(g: Geo, files: Files, op: FileOp): Answer
    requires op.ip < |files|
  {
    if Refuses(g, files, op) then Refused
    else
      match op
      case WriteAt(_, _, src) => Stored(|src|)
      case ReadAt(ip, off, n) => Bytes(files[ip][off..if off + n > |files[ip]| then |files[ip]| else off + n])
      case Truncate(_) => Cleared
  }

  predicate Named(n: nat, ops: seq<FileOp>) {
    forall t | 0 <= t < |ops| :: ops[t].ip < n
  }

  function ApplyAll(g: Geo, files: Files, ops: seq<FileOp>): (files': Files)
    requires Named(|files|, ops)
    ensures |files'| == |files|
    decreases |ops|
  {
    if ops == [] then files else ApplyAll(g, Apply(g, files, ops[0]), ops[1..])
  }

  function Replies(g: Geo, files: Files, ops: seq<FileOp>): (answers: seq<Answer>)
    requires Named(|files|, ops)
    ensures |answers| == |ops|
    decreases |ops|
  {
    if ops == [] then [] else [Reply(g, files, ops[0])] + Replies(g, Apply(g, files, ops[0]), ops[1..])
  }

  // The byte string of every file on the disk.
  function FilesOf(g: Geo, fs: Fs): (files: Files)
    requires Sized(g, fs)
    ensures |files| == g.ninodes
  {
    seq(g.ninodes, j requires 0 <= j < g.ninodes => Content(g, fs, j))
  }

  // ---------------------------------------------------------------- the kernel refines the table

  lemma WriteRefines(g: Geo, fs: Fs, fs': Fs, ip: nat, off: nat, src: seq<byte>)
    requires Sized(g, fs) && Sized(g, fs') && SizesFit(g, fs) && ip < g.ninodes && off <= fs.inodes[ip].size
    requires WroteFile(g, fs, fs', ip, off, src) && off + |src| <= MaxFile(g) * g.bsize
    ensures SizesFit(g, fs') && FilesOf(g, fs') == FilesOf(g, fs)[ip := Spliced(FilesOf(g, fs)[ip], off, src)]
  {
    assert |Content(g, fs', ip)| == fs'.inodes[ip].size;
    forall j: nat | j < g.ninodes
      ensures fs'.inodes[j].size <= MaxFile(g) * g.bsize
      ensures j != ip ==> FilesOf(g, fs')[j] == FilesOf(g, fs)[j]
    {
      assert j != ip ==> OtherFile(g, fs, fs', j);
    }
  }

  lemma TruncateRefines(g: Geo, fs: Fs, fs': Fs, ip: nat)
    requires Sized(g, fs) && SizesFit(g, fs) && ip < g.ninodes && Emptied(g, fs, fs', ip)
    ensures SizesFit(g, fs') && FilesOf(g, fs') == FilesOf(g, fs)[ip := []]
  {
    assert Content(g, fs', ip) == [];
  }

  lemma ReadRefines(g: Geo, fs: Fs, fs': Fs)
    requires Sized(g, fs) && Sized(g, fs') && SizesFit(g, fs) && SameFiles(g, fs, fs')
    ensures SizesFit(g, fs') && FilesOf(g, fs') == FilesOf(g, fs)
  {
    forall j: nat | j < g.ninodes
      ensures fs'.inodes[j].size <= MaxFile(g) * g.bsize && FilesOf(g, fs')[j] == FilesOf(g, fs)[j]
    {
      assert SameFile(g, fs, fs', j);
    }
  }

  // No file is larger than its block map; bmap panics beyond it.
  ghost predicate SizesFit(g: Geo, fs: Fs)
    requires Sized(g, fs)
  {
    forall j | 0 <= j < g.ninodes :: fs.inodes[j].size <= MaxFile(g) * g.bsize
  }

  // A kernel between two operations.
  ghost predicate Rests(k: Kernel)
    reads k, k.blocks, k.inodes, k.dinodes
  {
    k.Fields() && Inv(k.g, k.View(), {}, {}) && SizesFit(k.g, k.View())
  }

  // One operation; None is the panic on a full disk.
  method Do(k: Kernel, op: FileOp) returns (a: Option<Answer>)
    requires Rests(k) && Proper(k.g, op)
    modifies k`logged, k.blocks, k.inodes, k.dinodes
    ensures k.Fields() && Sized(k.g, k.View())
    ensures a.None? ==> Full(k.g, k.View())
    ensures a.Some? ==> Rests(k) && a.value == Reply(k.g, old(FilesOf(k.g, k.View())), op)
    ensures a.Some? ==> FilesOf(k.g, k.View()) == Apply(k.g, old(FilesOf(k.g, k.View())), op)
  {
    ghost var fs := k.View();
    match op {
      case WriteAt(ip, off, src) =>
        ghost var wrote;
        var r;
        BlocksFor(k.g, |src|);
        r, wrote := k.Writei(ip, src, off, |src|);
        if r.Panic? { return None; }
        if r.Fail? { return Some(Refused); }
        WriteRefines(k.g, fs, k.View(), ip, off, src);
        a := Some(Stored(r.value));
      case ReadAt(ip, off, n) =>
        var dst := k.Readi(ip, off, n);
        if dst.Panic? { return None; }
        if dst.Fail? { return Some(Refused); }
        ReadRefines(k.g, fs, k.View());
        a := Some(Bytes(dst.value));
      case Truncate(ip) =>
        k.Itrunc(ip);
        TruncateRefines(k.g, fs, k.View(), ip);
        a := Some(Cleared);
    }
  }

  lemma BlocksFor(g: Geo, n: nat)
    requires g.bsize > 0
    ensures n <= n * g.bsize
  {
  }

  // Any run of operations on blocks, inodes and bitmap does to the byte strings,
  // and answers, what the table does and answers; a run cut short met a full disk.
  method RunOps(k: Kernel, ops: seq<FileOp>) returns (answers: seq<Answer>)
    requires Rests(k) && Named(k.g.ninodes, ops) && forall t | 0 <= t < |ops| :: Proper(k.g, ops[t])
    modifies k`logged, k.blocks, k.inodes, k.dinodes
    ensures k.Fields() && Sized(k.g, k.View()) && |answers| <= |ops|
    ensures answers == Replies(k.g, old(FilesOf(k.g, k.View())), ops)[..|answers|]
    ensures |answers| == |ops| ==> Rests(k) && FilesOf(k.g, k.View()) == ApplyAll(k.g, old(FilesOf(k.g, k.View())), ops)
    ensures |answers| < |ops| ==> Full(k.g, k.View())
    decreases |ops|
  {
    answers := [];
    if ops != [] {
      ghost var files := FilesOf(k.g, k.View());
      var a := Do(k, ops[0]);
      if a.Some? {
        var more := RunOps(k, ops[1..]);
        answers := [a.value] + more;
        FirstReply(k.g, files, ops, a.value, more);
      }
    }
  }

  lemma FirstReply(g: Geo, files: Files, ops: seq<FileOp>, a: Answer, more: seq<Answer>)
    requires Named(|files|, ops) && ops != [] && a == Reply(g, files, ops[0]) && |more| < |ops|
    requires more == Replies(g, Apply(g, files, ops[0]), ops[1..])[..|more|]
    ensures [a] + more == Replies(g, files, ops)[..|more| + 1]
  {
  }

  // ---------------------------------------------------------------- a new file system

  function EmptyInode(g: Geo): Inode {
    Inode(0, 0, 0, 0, 0, seq(g.ndirect + 1, _ => 0))
  }

  // The loop of mkfs's balloc: the first n blocks are marked, one bit after the other.
  lemma {:induction false} MarkFirst(g: Geo, n: nat) returns (fs: Fs)
    requires ValidGeo(g) && n <= g.size
    ensures Sized(g, fs) && fs.inodes == seq(g.ninodes, _ => EmptyInode(g))
    ensures forall c: nat | c < g.size :: Used(g, fs, c) <==> c < n
  {
    if n == 0 {
      var none := seq(g.ninodes, _ => EmptyInode(g));
      fs := Fs(seq(g.size, _ => Zeroes(g.bsize)), none, none);
    } else {
      var fs0 := MarkFirst(g, n - 1);
      fs := Mark(g, fs0, n - 1, true);
      forall c: nat | c < g.size ensures Used(g, fs, c) <==> c < n { MarkUsed(g, fs0, n - 1, true, c); }
    }
  }

  // So there is a file system to start from: all files empty, and exactly the
  // metadata blocks in use.
  lemma NewFileSystem(g: Geo) returns (fs: Fs)
    requires ValidGeo(g)
    ensures Inv(g, fs, {}, {}) && SizesFit(g, fs) && FilesOf(g, fs) == seq(g.ninodes, _ => [])
    ensures forall b: nat | b < g.size :: Used(g, fs, b) <==> b < g.dstart
  {
    fs := MarkFirst(g, g.dstart);
    NotNegative(MaxFile(g), g.bsize);
    NothingOwned(g, fs);
  }

  // Empty inodes own nothing.
  lemma NothingOwned(g: Geo, fs: Fs)
    requires Sized(g, fs) && fs.inodes == seq(g.ninodes, _ => EmptyInode(g))
    ensures forall i: nat, k: nat | i < g.ninodes && k < Slots(g) :: Addr(g, fs, i, k) == 0
    ensures forall b: nat :: !Owned(g, fs, b)
  {
  }

  // ---------------------------------------------------------------- what callers see

  // In the new string the bytes from off are src, the others are the old ones, and
  // only src's end can have moved the end.
  lemma SplicedBytes(s: seq<byte>, off: nat, src: seq<byte>, lo: nat, hi: nat)
    requires off <= |s| && lo <= hi
    ensures |Spliced(s, off, src)| == if off + |src| <= |s| then |s| else off + |src|
    ensures Spliced(s, off, src)[off..off + |src|] == src
    ensures hi <= |s| && (hi <= off || off + |src| <= lo) ==> Spliced(s, off, src)[lo..hi] == s[lo..hi]
  {
    var r := Spliced(s, off, src);
    assert forall p | 0 <= p < off :: r[p] == s[p];
    assert forall p | off + |src| <= p < |s| :: r[p] == s[p];
  }

  // Bytes lo..hi of file ip are outside what the operation may change.
  predicate LeavesAlone(op: FileOp, ip: nat, lo: nat, hi: nat) {
    match op
    case WriteAt(jp, off, src) => jp == ip ==> off + |src| <= lo || hi <= off
    case ReadAt(_, _, _) => true
    case Truncate(jp) => jp != ip
  }

  lemma {:induction false} KeptByAll(g: Geo, files: Files, ops: seq<FileOp>, ip: nat, lo: nat, hi: nat)
    requires Named(|files|, ops) && ip < |files| && lo <= hi <= |files[ip]|
    requires forall t | 0 <= t < |ops| :: LeavesAlone(ops[t], ip, lo, hi)
    ensures hi <= |ApplyAll(g, files, ops)[ip]| && ApplyAll(g, files, ops)[ip][lo..hi] == files[ip][lo..hi]
    decreases |ops|
  {
    if ops != [] {
      var op := ops[0];
      if op.WriteAt? && op.ip == ip && !Refuses(g, files, op) { SplicedBytes(files[ip], op.off, op.src, lo, hi); }
      KeptByAll(g, Apply(g, files, op), ops[1..], ip, lo, hi);
    }
  }

  lemma {:induction false} RepliesAfter(g: Geo, files: Files, ops: seq<FileOp>, t: nat)
    requires Named(|files|, ops) && t < |ops|
    ensures Replies(g, files, ops)[t] == Reply(g, ApplyAll(g, files, ops[..t]), ops[t])
    decreases |ops|
  {
    if t > 0 {
      RepliesAfter(g, Apply(g, files, ops[0]), ops[1..], t - 1);
      assert ops[..t][1..] == ops[1..][..t - 1];
    }
  }

  // What a write stored is what a later read of that range returns, if nothing in
  // between wrote over it or truncated the file.
  lemma WriteThenRead(g: Geo, files: Files, ops: seq<FileOp>, ip: nat, lo: nat, src: seq<byte>)
    requires Named(|files|, ops) && |ops| >= 2
    requires ops[0] == WriteAt(ip, lo, src) && !Refuses(g, files, ops[0])
    requires forall t | 1 <= t < |ops| - 1 :: LeavesAlone(ops[t], ip, lo, lo + |src|)
    requires ops[|ops| - 1] == ReadAt(ip, lo, |src|)
    ensures Replies(g, files, ops)[|ops| - 1] == Bytes(src)
  {
    var n := |ops| - 1;
    var files1, mid := Apply(g, files, ops[0]), ops[1..n];
    SplicedBytes(files[ip], lo, src, lo, lo);
    KeptByAll(g, files1, mid, ip, lo, lo + |src|);
    RepliesAfter(g, files, ops, n);
    assert ops[..n][1..] == mid;
  }
}
