// The file system on the disk: the words of every block, dinodes included, as
// iupdate and log_write put them there and as ilock reads them back.

module FsImage {
  import opened FsDisk
  import opened FsInvariant
  import opened FsContent
  import opened FsWrite
  import CrashLog

  // ---------------------------------------------------------------- words

  function Words(b: Block): (w: seq<int>)
    requires |b| % 4 == 0
    ensures |w| == |b| / 4
  {
    seq(|b| / 4, j requires 0 <= j < |b| / 4 => Entry(b, j))
  }

  // Byte k of an unsigned int, lowest first.
  function ByteOf(x: int, k: nat): byte
    requires k < 4
  {
    if k == 0 then x % 256 else if k == 1 then x / 256 % 256 else if k == 2 then x / 65536 % 256 else x / 16777216 % 256
  }

  function BytesOf(w: seq<int>): (b: Block)
    ensures |b| == 4 * |w|
  {
    seq(4 * |w|, k requires 0 <= k < 4 * |w| => ByteOf(w[k / 4], k % 4))
  }

  lemma WordBytes(b0: byte, b1: byte, b2: byte, b3: byte, x: int)
    requires x == b0 + 256 * b1 as int + 65536 * b2 as int + 16777216 * b3 as int
    ensures ByteOf(x, 0) == b0 && ByteOf(x, 1) == b1 && ByteOf(x, 2) == b2 && ByteOf(x, 3) == b3
  {
    assert x / 256 == b1 + 256 * b2 + 65536 * b3;
    assert x / 65536 == b2 + 256 * b3;
    assert x / 16777216 == b3;
  }

  lemma BytesOfWords(b: Block)
    requires |b| % 4 == 0
    ensures BytesOf(Words(b)) == b
  {
    var r := BytesOf(Words(b));
    forall k | 0 <= k < |b| ensures r[k] == b[k] {
      var j := k / 4;
      WordBytes(b[4 * j], b[4 * j + 1], b[4 * j + 2], b[4 * j + 3], Entry(b, j));
      assert k == 4 * j + k % 4;
    }
  }

  // ---------------------------------------------------------------- dinodes

  // A short as it is stored, and as it is read.
  function Stored(x: int): int {
    x % 65536
  }

  function Short(x: int): int {
    if x % 65536 < 32768 then x % 65536 else x % 65536 - 65536
  }

  // struct dinode: four shorts, the size, and the addresses.
  function Encode(ip: Inode): (w: seq<int>)
    ensures |w| == |ip.addrs| + 3
  {
    [Stored(ip.kind) + 65536 * Stored(ip.major), Stored(ip.minor) + 65536 * Stored(ip.nlink), ip.size] + ip.addrs
  }

  function Decode(w: seq<int>): Inode
    requires |w| >= 3
  {
    Inode(Short(w[0]), Short(w[0] / 65536), Short(w[1]), Short(w[1] / 65536), w[2] % U32,
          seq(|w| - 3, k requires 0 <= k < |w| - 3 => w[k + 3] % U32))
  }

  // The fields fit the types they have on the disk.
  predicate Storable(ip: Inode) {
    && IsShort(ip.kind) && IsShort(ip.major) && IsShort(ip.minor) && IsShort(ip.nlink)
    && ip.size < U32 && forall k | 0 <= k < |ip.addrs| :: ip.addrs[k] < U32
  }

  predicate IsShort(x: int) {
    -32768 <= x < 32768
  }

  lemma TwoShorts(x: int, y: int)
    requires IsShort(x) && IsShort(y)
    ensures Short(Stored(x) + 65536 * Stored(y)) == x && Short((Stored(x) + 65536 * Stored(y)) / 65536) == y
  {
    var w := Stored(x) + 65536 * Stored(y);
    assert w / 65536 == Stored(y) && w % 65536 == Stored(x);
  }

  // ilock reads back what iupdate stored.
  lemma InodeRoundTrip(ip: Inode)
    requires Storable(ip)
    ensures Decode(Encode(ip)) == ip
  {
    TwoShorts(ip.kind, ip.major);
    TwoShorts(ip.minor, ip.nlink);
    assert Decode(Encode(ip)).addrs == ip.addrs;
  }

  lemma WordOfBytes(w: seq<int>, j: nat)
    requires j < |w| && 0 <= w[j] < U32
    ensures Entry(BytesOf(w), j) == w[j]
  {
    var b, x := BytesOf(w), w[j];
    assert b[4 * j] == ByteOf(x, 0) && b[4 * j + 1] == ByteOf(x, 1) by { assert 4 * j / 4 == j == (4 * j + 1) / 4; }
    assert b[4 * j + 2] == ByteOf(x, 2) && b[4 * j + 3] == ByteOf(x, 3) by {
      assert (4 * j + 2) / 4 == j == (4 * j + 3) / 4;
    }
    assert x / 65536 == x / 256 / 256 && x / 16777216 == x / 65536 / 256;
  }

  // struct dinode byte by byte: type, major, minor and nlink are two bytes each, then
  // the size and the addresses, four bytes each, all lowest byte first.
  lemma DinodeBytes(ip: Inode)
    requires Storable(ip)
    ensures var b := BytesOf(Encode(ip));
      && |b| == 12 + 4 * |ip.addrs|
      && Short(b[0] + 256 * b[1] as int) == ip.kind && Short(b[2] + 256 * b[3] as int) == ip.major
      && Short(b[4] + 256 * b[5] as int) == ip.minor && Short(b[6] + 256 * b[7] as int) == ip.nlink
      && Entry(b, 2) == ip.size && forall k | 0 <= k < |ip.addrs| :: Entry(b, k + 3) == ip.addrs[k]
  {
    var w, b := Encode(ip), BytesOf(Encode(ip));
    WordOfBytes(w, 2);
    forall k | 0 <= k < |ip.addrs| ensures Entry(b, k + 3) == ip.addrs[k] { WordOfBytes(w, k + 3); }
    HalfWords(w, 0, ip.kind, ip.major);
    HalfWords(w, 1, ip.minor, ip.nlink);
  }

  lemma HalfWords(w: seq<int>, j: nat, x: int, y: int)
    requires IsShort(x) && IsShort(y) && j < |w| && w[j] == Stored(x) + 65536 * Stored(y)
    ensures var b := BytesOf(w);
      Short(b[4 * j] + 256 * b[4 * j + 1] as int) == x && Short(b[4 * j + 2] + 256 * b[4 * j + 3] as int) == y
  {
    var b := BytesOf(w);
    WordOfBytes(w, j);
    var lo, hi := b[4 * j] + 256 * b[4 * j + 1] as int, b[4 * j + 2] + 256 * b[4 * j + 3] as int;
    assert w[j] == lo + 65536 * hi && 0 <= lo < 65536;
    assert lo == Stored(x) && hi == Stored(y);
  }

  // ---------------------------------------------------------------- the image

  // Words in a dinode.
  function Width(g: Geo): nat {
    g.ndirect + 4
  }

  // Dinodes fill their blocks.
  ghost predicate Packed(g: Geo) {
    ValidGeo(g) && 4 * (g.ipb * Width(g)) == g.bsize
  }

  // The log lies below the data blocks, beside the inode blocks and the bitmap.
  ghost predicate OnDisk(c: CrashLog.Config, g: Geo) {
    && CrashLog.Layout(c) && Packed(g) && c.size == g.size && 4 * c.words == g.bsize && c.start + c.nlog <= g.dstart
    && (forall b: nat {:trigger BBlock(g, b)} | b < g.size ::
          CrashLog.Home(c, BBlock(g, b)) && !InodeBlock(g, BBlock(g, b)))
    && (forall i: nat {:trigger IBlock(g, i)} | i < g.ninodes :: CrashLog.Home(c, IBlock(g, i)))
  }

  ghost predicate InodeBlock(g: Geo, b: nat)
    requires g.ipb > 0
  {
    b >= g.inodestart && exists i: nat :: i < g.ninodes && IBlock(g, i) == b
  }

  // The inode that word x of inode block b belongs to.
  function InodeAt(g: Geo, b: nat, x: nat): int {
    (b - g.inodestart) * g.ipb + x / Width(g)
  }

  // Where dinode i starts in its block, in words.
  function Place(g: Geo, i: nat): nat
    requires g.ipb > 0
  {
    i % g.ipb * Width(g)
  }

  lemma QuotientRest(q: int, d: nat, r: nat)
    requires r < d
    ensures (q * d + r) / d == q && (q * d + r) % d == r
  {
    var e := q - (q * d + r) / d;
    assert (q * d + r) == (q * d + r) / d * d + (q * d + r) % d;
    assert e * d == q * d - (q * d + r) / d * d;
    BetweenMultiples(e, d);
  }

  lemma InodeNumber(q: nat, x: nat, ipb: nat, width: nat)
    requires width > 0 && x < ipb * width
    ensures var i := q * ipb + x / width; i >= 0 && i / ipb == q && i % ipb * width + x % width == x
  {
    DivMod(x, width);
    FewerBlocks(x / width, ipb, width);
    NotNegative(q, ipb);
    QuotientRest(q, ipb, x / width);
  }

  lemma InodeOfWord(g: Geo, b: nat, x: nat)
    requires Packed(g) && b >= g.inodestart && 4 * x + 4 <= g.bsize
    ensures InodeAt(g, b, x) >= 0 && IBlock(g, InodeAt(g, b, x)) == b
    ensures Place(g, InodeAt(g, b, x)) + x % Width(g) == x
  {
    InodeNumber(b - g.inodestart, x, g.ipb, Width(g));
  }

  lemma WordOfInode(g: Geo, i: nat, y: nat)
    requires Packed(g) && i < g.ninodes && y < Width(g)
    ensures var x := Place(g, i) + y; 4 * x + 4 <= g.bsize && InodeAt(g, IBlock(g, i), x) == i && x % Width(g) == y
  {
    DivMod(i, g.ipb);
    QuotientRest(i % g.ipb, Width(g), y);
    assert (i % g.ipb + 1) * Width(g) <= g.ipb * Width(g);
    assert (i % g.ipb + 1) * Width(g) == i % g.ipb * Width(g) + Width(g);
  }

  // What word x of block b holds.
  ghost function WordAt(g: Geo, fs: Fs, b: nat, x: nat): int
    requires Sized(g, fs) && b < g.size && 4 * x + 4 <= g.bsize
  {
    var i := InodeAt(g, b, x);
    if InodeBlock(g, b) && 0 <= i < g.ninodes && |fs.dinodes[i].addrs| == g.ndirect + 1
    then Encode(fs.dinodes[i])[x % Width(g)]
    else Entry(fs.blocks[b], x)
  }

  ghost function Image(g: Geo, fs: Fs, b: nat): (w: seq<int>)
    requires Sized(g, fs) && b < g.size
    ensures |w| == g.bsize / 4
  {
    seq(g.bsize / 4, x requires 0 <= x < g.bsize / 4 => WordAt(g, fs, b, x))
  }

  // A block that was not logged has the same words.
  lemma UnloggedImage(g: Geo, fs: Fs, fs': Fs, logged: set<nat>, b: nat)
    requires Sized(g, fs) && Sized(g, fs') && Packed(g) && b < g.size && OnlyLogged(g, fs, fs', logged) && b !in logged
    ensures Image(g, fs', b) == Image(g, fs, b)
  {
    assert BlockStays(fs, fs', logged, b);
    forall x: nat | 4 * x + 4 <= g.bsize ensures WordAt(g, fs', b, x) == WordAt(g, fs, b, x) {
      var i := InodeAt(g, b, x);
      if InodeBlock(g, b) && 0 <= i < g.ninodes {
        InodeOfWord(g, b, x);
        assert DinodeStays(g, fs, fs', logged, i);
      }
    }
  }

  // The slice of its block that dinode i takes.
  ghost function DinodeWords(g: Geo, w: seq<int>, i: nat): (d: seq<int>)
    requires Packed(g) && i < g.ninodes && |w| == g.bsize / 4
    ensures |d| == Width(g)
  {
    WordOfInode(g, i, Width(g) - 1);
    var p := Place(g, i);
    w[p..p + Width(g)]
  }

  // iupdate's stores: in the inode block the words of this dinode, and no others.
  lemma IupdateImage(g: Geo, fs: Fs, fs': Fs, i: nat, ip: Inode, b: nat)
    requires Sized(g, fs) && Packed(g) && i < g.ninodes && b < g.size && |ip.addrs| == g.ndirect + 1
    requires fs' == fs.(dinodes := fs.dinodes[i := ip]) && Sized(g, fs')
    ensures b != IBlock(g, i) ==> Image(g, fs', b) == Image(g, fs, b)
    ensures b == IBlock(g, i) ==> DinodeWords(g, Image(g, fs', b), i) == Encode(ip)
    ensures b == IBlock(g, i) ==> forall x | 0 <= x < g.bsize / 4 && !(Place(g, i) <= x < Place(g, i) + Width(g)) ::
      Image(g, fs', b)[x] == Image(g, fs, b)[x]
  {
    forall x: nat | 4 * x + 4 <= g.bsize && (b != IBlock(g, i) || !(Place(g, i) <= x < Place(g, i) + Width(g)))
      ensures WordAt(g, fs', b, x) == WordAt(g, fs, b, x)
    {
      if InodeBlock(g, b) {
        InodeOfWord(g, b, x);
        DivMod(x, Width(g));
      }
    }
    if b == IBlock(g, i) { EncodedAt(g, fs', i); }
  }

  lemma EncodedWord(g: Geo, fs: Fs, i: nat, y: nat)
    requires Sized(g, fs) && Packed(g) && i < g.ninodes && |fs.dinodes[i].addrs| == g.ndirect + 1 && y < Width(g)
    ensures 4 * (Place(g, i) + y) + 4 <= g.bsize
    ensures Image(g, fs, IBlock(g, i))[Place(g, i) + y] == Encode(fs.dinodes[i])[y]
  {
    WordOfInode(g, i, y);
    assert InodeBlock(g, IBlock(g, i));
    var x := Place(g, i) + y;
    assert Image(g, fs, IBlock(g, i))[x] == WordAt(g, fs, IBlock(g, i), x);
  }

  lemma EncodedAt(g: Geo, fs: Fs, i: nat)
    requires Sized(g, fs) && Packed(g) && i < g.ninodes && |fs.dinodes[i].addrs| == g.ndirect + 1
    ensures DinodeWords(g, Image(g, fs, IBlock(g, i)), i) == Encode(fs.dinodes[i])
  {
    var w, p := Image(g, fs, IBlock(g, i)), Place(g, i);
    WordOfInode(g, i, Width(g) - 1);
    forall y: nat | y < Width(g) ensures w[p + y] == Encode(fs.dinodes[i])[y] { EncodedWord(g, fs, i, y); }
    SliceIs(w, p, Width(g), Encode(fs.dinodes[i]));
  }

  lemma SliceIs(w: seq<int>, p: nat, n: nat, d: seq<int>)
    requires p + n <= |w| && |d| == n && forall y: nat | y < n :: w[p + y] == d[y]
    ensures w[p..p + n] == d
  {
  }

  // ---------------------------------------------------------------- mounting

  // The file system that a kernel finds on a disk.
  ghost function Mount(g: Geo, disk: seq<seq<int>>): Fs
    requires Packed(g) && |disk| == g.size && forall b | 0 <= b < g.size :: |disk[b]| == g.bsize / 4
  {
    var inodes := seq(g.ninodes, i requires 0 <= i < g.ninodes => Decode(DinodeWords(g, disk[IBlock(g, i)], i)));
    Fs(seq(g.size, b requires 0 <= b < g.size => BytesOf(disk[b])), inodes, inodes)
  }

  ghost predicate AllStorable(g: Geo, fs: Fs) {
    |fs.dinodes| == g.ninodes && forall i | 0 <= i < g.ninodes :: Storable(fs.dinodes[i])
  }

  // The disk holds the image in every block that is not the log's.
  ghost predicate Holds(c: CrashLog.Config, g: Geo, disk: seq<seq<int>>, fs: Fs)
    requires OnDisk(c, g) && Sized(g, fs)
  {
    && |disk| == g.size && (forall b | 0 <= b < g.size :: |disk[b]| == g.bsize / 4)
    && forall b: nat {:trigger Image(g, fs, b)} | b < g.size && CrashLog.Home(c, b) :: disk[b] == Image(g, fs, b)
  }
  lemma MountedInode(c: CrashLog.Config, g: Geo, disk: seq<seq<int>>, fs: Fs, i: nat)
    requires OnDisk(c, g) && Sized(g, fs) && Holds(c, g, disk, fs) && i < g.ninodes
    requires Storable(fs.dinodes[i]) && |fs.dinodes[i].addrs| == g.ndirect + 1
    ensures Mount(g, disk).inodes[i] == Mount(g, disk).dinodes[i] == fs.dinodes[i]
  {
    assert disk[IBlock(g, i)] == Image(g, fs, IBlock(g, i));
    EncodedAt(g, fs, i);
    InodeRoundTrip(fs.dinodes[i]);
  }

  lemma MountedBlock(c: CrashLog.Config, g: Geo, disk: seq<seq<int>>, fs: Fs, b: nat)
    requires OnDisk(c, g) && Sized(g, fs) && Holds(c, g, disk, fs)
    requires b < g.size && CrashLog.Home(c, b) && !InodeBlock(g, b)
    ensures Mount(g, disk).blocks[b] == fs.blocks[b]
  {
    assert disk[b] == Image(g, fs, b) == Words(fs.blocks[b]);
    BytesOfWords(fs.blocks[b]);
  }

  // What is mounted from an image is the file system whose image it is: every
  // inode, every bit of the bitmap, every data block.
  lemma MountedBack(c: CrashLog.Config, g: Geo, disk: seq<seq<int>>, fs: Fs)
    requires OnDisk(c, g) && Inv(g, fs, {}, {}) && Holds(c, g, disk, fs)
    requires fs.inodes == fs.dinodes && AllStorable(g, fs)
    ensures var m := Mount(g, disk);
      && m.inodes == m.dinodes == fs.inodes && Inv(g, m, {}, {})
      && (forall b: nat | b < g.size :: Used(g, m, b) <==> Used(g, fs, b))
      && forall j: nat | j < g.ninodes :: Content(g, m, j) == Content(g, fs, j)
  {
    var m := Mount(g, disk);
    forall i: nat | i < g.ninodes
      ensures m.inodes[i] == m.dinodes[i] == fs.inodes[i]
    {
      MountedInode(c, g, disk, fs, i);
    }
    assert m.inodes == fs.inodes;
    forall b: nat | b < g.size ensures Used(g, m, b) <==> Used(g, fs, b) { MountedBlock(c, g, disk, fs, BBlock(g, b)); }
    forall b: nat | g.dstart <= b < g.size ensures m.blocks[b] == fs.blocks[b] { MountedBlock(c, g, disk, fs, b); }
    assert SameAddrs(g, fs, m) by { DataGivesAddrs(g, fs, m); }
    SameOwners(g, fs, m);
    SameKeepsRange(g, fs, m);
    forall j: nat | j < g.ninodes ensures Content(g, m, j) == Content(g, fs, j) { DataGivesContent(g, fs, m, j); }
  }

  lemma DataGivesAddrs(g: Geo, fs: Fs, m: Fs)
    requires Sized(g, fs) && Sized(g, m) && InRange(g, fs) && m.inodes == fs.inodes
    requires forall b: nat | g.dstart <= b < g.size :: m.blocks[b] == fs.blocks[b]
    ensures SameAddrs(g, fs, m)
  {
    forall i: nat, k: nat | i < g.ninodes && k < Slots(g) ensures Addr(g, m, i, k) == Addr(g, fs, i, k) {
      assert Addr(g, fs, i, g.ndirect) == fs.inodes[i].addrs[g.ndirect];
    }
  }

  lemma DataGivesContent(g: Geo, fs: Fs, m: Fs, j: nat)
    requires Sized(g, fs) && Sized(g, m) && InRange(g, fs) && m.inodes == fs.inodes && SameAddrs(g, fs, m)
    requires j < g.ninodes
    requires forall b: nat | g.dstart <= b < g.size :: m.blocks[b] == fs.blocks[b]
    ensures Content(g, m, j) == Content(g, fs, j)
  {
    forall p: nat ensures ByteAt(g, m, j, p) == ByteAt(g, fs, j, p) {
      if BlockOf(g, p) < MaxFile(g) {
        var k := Slot(g, BlockOf(g, p));
        assert Addr(g, m, j, k) == Addr(g, fs, j, k);
      }
    }
  }
}
