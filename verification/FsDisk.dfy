// Blocks, the free bitmap, and inodes of the file system as values.
// The blocks are the logical ones that bread returns; see CrashLog for how a
// group of log_writes reaches the disk.

module FsDisk {

  type byte = x: int | 0 <= x < 256
  type Block = seq<byte>

  // bsize: bytes in a block; bpb: bitmap bits in a block (BPB); size: blocks in the
  // file system; dstart: first data block; ipb: inodes per block.
  datatype Geo = Geo(bsize: nat, bpb: nat, ndirect: nat, size: nat, ninodes: nat,
                     bmapstart: nat, inodestart: nat, ipb: nat, dstart: nat)

  datatype Inode = Inode(kind: int, major: int, minor: int, nlink: int, size: nat, addrs: seq<nat>)

  // inodes: the in-memory copies; dinodes: the copies in the inode blocks.
  datatype Fs = Fs(blocks: seq<Block>, inodes: seq<Inode>, dinodes: seq<Inode>)

  const U32 := 0x1_0000_0000

  function BBlock(g: Geo, b: nat): nat
    requires g.bpb > 0
  {
    b / g.bpb + g.bmapstart
  }

  // off / BSIZE and off % BSIZE
  function BlockOf(g: Geo, p: nat): nat
    requires g.bsize > 0
  {
    p / g.bsize
  }

  function OffIn(g: Geo, p: nat): (r: nat)
    requires g.bsize > 0
    ensures r < g.bsize
  {
    p % g.bsize
  }

  function IBlock(g: Geo, i: nat): nat
    requires g.ipb > 0
  {
    i / g.ipb + g.inodestart
  }

  function NIndirect(g: Geo): nat {
    g.bsize / 4
  }

  function MaxFile(g: Geo): nat {
    g.ndirect + NIndirect(g)
  }

  // The metadata blocks, bitmap and inode blocks among them, come first.
  ghost predicate ValidGeo(g: Geo) {
    && g.bsize > 0 && g.bsize % 4 == 0 && g.bpb == 8 * g.bsize && g.ndirect > 0 && g.ipb > 0
    && 0 < g.dstart <= g.size < U32
    && (forall b: nat | b < g.size :: BBlock(g, b) < g.dstart)
    && (forall i: nat | i < g.ninodes :: IBlock(g, i) < g.dstart)
  }

  // ---------------------------------------------------------------- bits

  // 1 << k
  function Pow2(k: nat): (p: nat)
    requires k < 8
    ensures p > 0
  {
    if k == 0 then 1 else if k == 1 then 2 else if k == 2 then 4 else if k == 3 then 8
    else if k == 4 then 16 else if k == 5 then 32 else if k == 6 then 64 else 128
  }

  // (x >> k) & 1
  function BitOf(x: int, k: nat): int
    requires k < 8
  {
    if k == 0 then x / 1 % 2 else if k == 1 then x / 2 % 2 else if k == 2 then x / 4 % 2 else if k == 3 then x / 8 % 2
    else if k == 4 then x / 16 % 2 else if k == 5 then x / 32 % 2 else if k == 6 then x / 64 % 2 else x / 128 % 2
  }

  // data[bi/8] & (1 << (bi % 8))
  predicate Bit(b: Block, bi: nat)
    requires bi < 8 * |b|
  {
    BitOf(b[bi / 8], bi % 8) == 1
  }

  predicate Bits8(x: int, x0: int, x1: int, x2: int, x3: int, x4: int, x5: int, x6: int, x7: int) {
    && 0 <= x0 < 2 && 0 <= x1 < 2 && 0 <= x2 < 2 && 0 <= x3 < 2
    && 0 <= x4 < 2 && 0 <= x5 < 2 && 0 <= x6 < 2 && 0 <= x7 < 2
    && x == x0 + 2 * x1 + 4 * x2 + 8 * x3 + 16 * x4 + 32 * x5 + 64 * x6 + 128 * x7
  }

  lemma BitsAre(x: int, x0: int, x1: int, x2: int, x3: int, x4: int, x5: int, x6: int, x7: int)
    requires Bits8(x, x0, x1, x2, x3, x4, x5, x6, x7)
    ensures x / 1 % 2 == x0 && x / 2 % 2 == x1 && x / 4 % 2 == x2 && x / 8 % 2 == x3
    ensures x / 16 % 2 == x4 && x / 32 % 2 == x5 && x / 64 % 2 == x6 && x / 128 % 2 == x7
  {
    var y1 := x1 + 2 * x2 + 4 * x3 + 8 * x4 + 16 * x5 + 32 * x6 + 64 * x7;
    var y2 := x2 + 2 * x3 + 4 * x4 + 8 * x5 + 16 * x6 + 32 * x7;
    var y3 := x3 + 2 * x4 + 4 * x5 + 8 * x6 + 16 * x7;
    var y4 := x4 + 2 * x5 + 4 * x6 + 8 * x7;
    assert x / 2 == y1 && x / 4 == y2 && x / 8 == y3 && x / 16 == y4;
    assert x / 32 == x5 + 2 * x6 + 4 * x7 && x / 64 == x6 + 2 * x7 && x / 128 == x7;
  }

  lemma BitsExist(x: int) returns (x0: int, x1: int, x2: int, x3: int, x4: int, x5: int, x6: int, x7: int)
    requires 0 <= x < 256
    ensures Bits8(x, x0, x1, x2, x3, x4, x5, x6, x7)
  {
    x0, x1, x2, x3 := x % 2, x / 2 % 2, x / 4 % 2, x / 8 % 2;
    x4, x5, x6, x7 := x / 16 % 2, x / 32 % 2, x / 64 % 2, x / 128;
    assert x / 4 == x / 2 / 2 && x / 8 == x / 4 / 2 && x / 16 == x / 8 / 2;
    assert x / 32 == x / 16 / 2 && x / 64 == x / 32 / 2 && x / 128 == x / 64 / 2;
  }

  function Nth(k: nat, x0: int, x1: int, x2: int, x3: int, x4: int, x5: int, x6: int, x7: int): int
    requires k < 8
  {
    if k == 0 then x0 else if k == 1 then x1 else if k == 2 then x2 else if k == 3 then x3
    else if k == 4 then x4 else if k == 5 then x5 else if k == 6 then x6 else x7
  }

  lemma BitIs(x: int, k: nat, x0: int, x1: int, x2: int, x3: int, x4: int, x5: int, x6: int, x7: int)
    requires k < 8 && Bits8(x, x0, x1, x2, x3, x4, x5, x6, x7)
    ensures BitOf(x, k) == Nth(k, x0, x1, x2, x3, x4, x5, x6, x7)
  {
    BitsAre(x, x0, x1, x2, x3, x4, x5, x6, x7);
  }

  lemma AddBit(x: int, k: nat, x0: int, x1: int, x2: int, x3: int, x4: int, x5: int, x6: int, x7: int)
    requires k < 8 && Bits8(x, x0, x1, x2, x3, x4, x5, x6, x7) && Nth(k, x0, x1, x2, x3, x4, x5, x6, x7) == 0
    ensures Bits8(x + Pow2(k),
      if k == 0 then 1 else x0, if k == 1 then 1 else x1, if k == 2 then 1 else x2, if k == 3 then 1 else x3,
      if k == 4 then 1 else x4, if k == 5 then 1 else x5, if k == 6 then 1 else x6, if k == 7 then 1 else x7)
  {
  }

  lemma SubBit(x: int, k: nat, x0: int, x1: int, x2: int, x3: int, x4: int, x5: int, x6: int, x7: int)
    requires k < 8 && Bits8(x, x0, x1, x2, x3, x4, x5, x6, x7) && Nth(k, x0, x1, x2, x3, x4, x5, x6, x7) == 1
    ensures Bits8(x - Pow2(k),
      if k == 0 then 0 else x0, if k == 1 then 0 else x1, if k == 2 then 0 else x2, if k == 3 then 0 else x3,
      if k == 4 then 0 else x4, if k == 5 then 0 else x5, if k == 6 then 0 else x6, if k == 7 then 0 else x7)
  {
  }

  lemma FlipOn(x: int, k: nat, m: nat)
    requires 0 <= x < 256 && k < 8 && m < 8 && BitOf(x, k) == 0
    ensures x + Pow2(k) < 256 && BitOf(x + Pow2(k), m) == if m == k then 1 else BitOf(x, m)
  {
    var x0, x1, x2, x3, x4, x5, x6, x7 := BitsExist(x);
    BitIs(x, k, x0, x1, x2, x3, x4, x5, x6, x7);
    BitIs(x, m, x0, x1, x2, x3, x4, x5, x6, x7);
    AddBit(x, k, x0, x1, x2, x3, x4, x5, x6, x7);
    BitIs(x + Pow2(k), m,
      if k == 0 then 1 else x0, if k == 1 then 1 else x1, if k == 2 then 1 else x2, if k == 3 then 1 else x3,
      if k == 4 then 1 else x4, if k == 5 then 1 else x5, if k == 6 then 1 else x6, if k == 7 then 1 else x7);
  }

  lemma FlipOff(x: int, k: nat, m: nat)
    requires 0 <= x < 256 && k < 8 && m < 8 && BitOf(x, k) == 1
    ensures x - Pow2(k) >= 0 && BitOf(x - Pow2(k), m) == if m == k then 0 else BitOf(x, m)
  {
    var x0, x1, x2, x3, x4, x5, x6, x7 := BitsExist(x);
    BitIs(x, k, x0, x1, x2, x3, x4, x5, x6, x7);
    BitIs(x, m, x0, x1, x2, x3, x4, x5, x6, x7);
    SubBit(x, k, x0, x1, x2, x3, x4, x5, x6, x7);
    BitIs(x - Pow2(k), m,
      if k == 0 then 0 else x0, if k == 1 then 0 else x1, if k == 2 then 0 else x2, if k == 3 then 0 else x3,
      if k == 4 then 0 else x4, if k == 5 then 0 else x5, if k == 6 then 0 else x6, if k == 7 then 0 else x7);
  }

  // Adding the weight of a clear bit stays in the byte and sets that bit only;
  // taking away the weight of a set bit undoes it.
  lemma FlipBit(x: int, k: nat, m: nat)
    requires 0 <= x < 256 && k < 8 && m < 8
    ensures BitOf(x, k) == 0 ==> x + Pow2(k) < 256 && BitOf(x + Pow2(k), m) == if m == k then 1 else BitOf(x, m)
    ensures BitOf(x, k) == 1 ==> x - Pow2(k) >= 0 && BitOf(x - Pow2(k), m) == if m == k then 0 else BitOf(x, m)
    ensures BitOf(x, k) == 0 || BitOf(x, k) == 1
  {
    if BitOf(x, k) == 0 { FlipOn(x, k, m); } else { FlipOff(x, k, m); }
  }

  // data[bi/8] |= m, and data[bi/8] &= ~m, for a bit known to be clear or set.
  function FlipTo(b: Block, bi: nat, on: bool): (r: Block)
    requires bi < 8 * |b| && Bit(b, bi) == !on
    ensures |r| == |b|
  {
    FlipBit(b[bi / 8], bi % 8, 0);
    b[bi / 8 := if on then b[bi / 8] + Pow2(bi % 8) else b[bi / 8] - Pow2(bi % 8)]
  }

  lemma FlipToBits(b: Block, bi: nat, on: bool, c: nat)
    requires bi < 8 * |b| && Bit(b, bi) == !on && c < 8 * |b|
    ensures Bit(FlipTo(b, bi, on), c) == if c == bi then on else Bit(b, c)
  {
    FlipBit(b[bi / 8], bi % 8, c % 8);
    assert c / 8 == bi / 8 && c % 8 == bi % 8 ==> c == bi;
  }

  // ---------------------------------------------------------------- words

  // The j-th uint of a block, lowest byte first.
  function Entry(b: Block, j: nat): nat
    requires 4 * j + 4 <= |b|
  {
    b[4 * j] + 256 * b[4 * j + 1] as int + 65536 * b[4 * j + 2] as int + 16777216 * b[4 * j + 3] as int
  }

  function PutEntry(b: Block, j: nat, v: nat): (r: Block)
    requires 4 * j + 4 <= |b| && v < U32
    ensures |r| == |b|
  {
    b[4 * j := v % 256][4 * j + 1 := v / 256 % 256][4 * j + 2 := v / 65536 % 256][4 * j + 3 := v / 16777216 % 256]
  }

  lemma EntryAfterPut(b: Block, j: nat, v: nat, k: nat)
    requires 4 * j + 4 <= |b| && 4 * k + 4 <= |b| && v < U32
    ensures Entry(PutEntry(b, j, v), k) == if k == j then v else Entry(b, k)
  {
    if k == j {
      assert v / 65536 == v / 256 / 256 && v / 16777216 == v / 65536 / 256;
    }
  }

  function Zeroes(n: nat): (b: Block)
    ensures |b| == n && forall j: nat | 4 * j + 4 <= n :: Entry(b, j) == 0
  {
    seq(n, i => 0)
  }
}
