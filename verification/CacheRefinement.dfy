// The buffers of bio.c are the cache of the log machine: each operation on them is
// one step of CrashLog, after the eviction that recycles a buffer.

module CacheRefinement {
  import opened Wrappers
  import B = BufferCache
  import CrashLog

  ghost predicate Holds(buf: seq<B.Buf>, dev: nat, n: nat, b: nat) {
    b < |buf| && buf[b].valid && buf[b].block == B.Block(dev, n)
  }

  ghost predicate Cached(buf: seq<B.Buf>, dev: nat, n: nat) {
    exists b :: Holds(buf, dev, n, b)
  }

  ghost function Where(buf: seq<B.Buf>, dev: nat, n: nat): (b: nat)
    requires Cached(buf, dev, n)
    ensures Holds(buf, dev, n, b)
  {
    var b :| Holds(buf, dev, n, b);
    b
  }

  function Shown(q: B.Buf): CrashLog.Buf {
    CrashLog.Buf(q.data, q.dirty, q.refcnt)
  }

  ghost function Numbers(buf: seq<B.Buf>, dev: nat): (ns: set<nat>)
    ensures forall n: nat :: n in ns <==> Cached(buf, dev, n)
  {
    var ns := set b | 0 <= b < |buf| && Holds(buf, dev, buf[b].block.no, b) :: buf[b].block.no;
    assert forall n: nat, b: nat | Holds(buf, dev, n, b) :: n == buf[b].block.no;
    ns
  }

  // The valid buffers of device dev by block number.
  ghost function CacheOf(buf: seq<B.Buf>, dev: nat): (m: map<nat, CrashLog.Buf>)
    ensures forall n: nat :: n in m <==> Cached(buf, dev, n)
  {
    map n | n in Numbers(buf, dev) :: Shown(buf[Where(buf, dev, n)])
  }

  lemma ShownAt(buf: seq<B.Buf>, dev: nat, n: nat, b: nat)
    requires B.Unique(buf) && dev > 0 && Holds(buf, dev, n, b)
    ensures n in CacheOf(buf, dev) && CacheOf(buf, dev)[n] == Shown(buf[b])
  {
    assert Cached(buf, dev, n);
    assert Holds(buf, dev, n, Where(buf, dev, n));
  }

  // One buffer changes and stays, or becomes, a valid buffer of its block.
  lemma StoreShows(buf: seq<B.Buf>, dev: nat, b: nat, q: B.Buf)
    requires B.Unique(buf) && dev > 0 && b < |buf| && q.valid && q.block == buf[b].block && q.block.dev == dev
    ensures CacheOf(buf[b := q], dev) == CacheOf(buf, dev)[q.block.no := Shown(q)]
  {
    var buf' := buf[b := q];
    assert B.Unique(buf');
    assert Holds(buf', dev, q.block.no, b);
    forall n: nat ensures Cached(buf', dev, n) <==> n == q.block.no || Cached(buf, dev, n) {
      if Cached(buf', dev, n) && n != q.block.no { assert Holds(buf, dev, n, Where(buf', dev, n)); }
      if Cached(buf, dev, n) && n != q.block.no { assert Holds(buf', dev, n, Where(buf, dev, n)); }
    }
    forall n | n in CacheOf(buf', dev)
      ensures CacheOf(buf', dev)[n] == if n == q.block.no then Shown(q) else CacheOf(buf, dev)[n]
    {
      ShownAt(buf', dev, n, Where(buf', dev, n));
      if n == q.block.no {
        ShownAt(buf', dev, n, b);
      } else {
        ShownAt(buf, dev, n, Where(buf', dev, n));
      }
    }
  }

  // A buffer is recycled: its old block leaves the cache, the new one is not there yet.
  function Recycled(buf: seq<B.Buf>, b: nat, k: B.Block): seq<B.Buf>
    requires b < |buf|
  {
    buf[b := B.Buf(k, 1, false, false, buf[b].data)]
  }

  lemma RecycledAt(buf: seq<B.Buf>, dev: nat, b: nat, k: B.Block, n: nat)
    requires b < |buf| && B.Unique(buf) && B.Unique(Recycled(buf, b, k)) && dev > 0
    ensures Cached(Recycled(buf, b, k), dev, n) <==> Cached(buf, dev, n) && !Holds(buf, dev, n, b)
    ensures Cached(Recycled(buf, b, k), dev, n) ==> CacheOf(Recycled(buf, b, k), dev)[n] == CacheOf(buf, dev)[n]
  {
    var buf' := Recycled(buf, b, k);
    if Cached(buf', dev, n) {
      var x := Where(buf', dev, n);
      assert x != b && buf'[x] == buf[x] && Holds(buf, dev, n, x);
      ShownAt(buf', dev, n, x);
      ShownAt(buf, dev, n, x);
      assert !Holds(buf, dev, n, b);
    } else if Cached(buf, dev, n) {
      var x := Where(buf, dev, n);
      assert x != b ==> Holds(buf', dev, n, x);
    }
  }

  lemma WithoutKey<V>(m: map<nat, V>, m': map<nat, V>, no: nat)
    requires forall n: nat :: n in m' <==> n in m && n != no
    requires forall n: nat | n in m' :: m'[n] == m[n]
    ensures m' == m - {no}
  {
  }

  lemma SameMap<V>(m: map<nat, V>, m': map<nat, V>)
    requires forall n: nat :: n in m' <==> n in m
    requires forall n: nat | n in m' :: m'[n] == m[n]
    ensures m' == m
  {
  }

  lemma RecycleShows(buf: seq<B.Buf>, dev: nat, b: nat, k: B.Block)
    requires B.Unique(buf) && dev > 0 && b < |buf| && B.NoneCached(buf, k) && k.dev > 0
    ensures B.Unique(Recycled(buf, b, k))
    ensures CacheOf(Recycled(buf, b, k), dev)
         == if Holds(buf, dev, buf[b].block.no, b) then CacheOf(buf, dev) - {buf[b].block.no} else CacheOf(buf, dev)
  {
    assert B.Unique(Recycled(buf, b, k));
    var m, m' := CacheOf(buf, dev), CacheOf(Recycled(buf, b, k), dev);
    var no := buf[b].block.no;
    forall n: nat ensures n in m' <==> n in m && !Holds(buf, dev, n, b) { RecycledAt(buf, dev, b, k, n); }
    forall n: nat | n in m' ensures m'[n] == m[n] { RecycledAt(buf, dev, b, k, n); }
    if Holds(buf, dev, no, b) { WithoutKey(m, m', no); } else { SameMap(m, m'); }
  }

  // ---------------------------------------------------------------- steps

  // State s of the log machine has these buffers and this disk.
  ghost predicate Shows(s: CrashLog.State, dev: nat, buf: seq<B.Buf>, disk: map<B.Block, B.Data>) {
    && B.Unique(buf) && dev > 0 && s.cache == CacheOf(buf, dev)
    && forall n: nat {:trigger BlockShown(s.disk, dev, disk, n)} | n < |s.disk| :: BlockShown(s.disk, dev, disk, n)
  }

  predicate BlockShown(blocks: seq<CrashLog.Block>, dev: nat, disk: map<B.Block, B.Data>, n: nat)
    requires n < |blocks|
  {
    B.Block(dev, n) in disk && disk[B.Block(dev, n)] == blocks[n]
  }

  // A step that leaves the disk alone.
  lemma StillShows(s: CrashLog.State, s2: CrashLog.State, dev: nat, buf: seq<B.Buf>, buf2: seq<B.Buf>,
                   disk: map<B.Block, B.Data>)
    requires Shows(s, dev, buf, disk) && s2.disk == s.disk && B.Unique(buf2) && s2.cache == CacheOf(buf2, dev)
    ensures Shows(s2, dev, buf2, disk)
  {
  }

  // Between operations every buffer that names a block is valid.
  predicate Loaded(buf: seq<B.Buf>) {
    forall b | 0 <= b < |buf| && buf[b].block.dev > 0 :: buf[b].valid
  }

  // What Read does to the machine.
  lemma ReadStep(c: CrashLog.Config, s: CrashLog.State, n: nat, s': CrashLog.State)
    requires CrashLog.Layout(c) && |s.disk| == c.size && CrashLog.Enabled(c, s, CrashLog.Read(n))
    requires s' == CrashLog.Next(c, s, CrashLog.Read(n))
    ensures s'.disk == s.disk
    ensures s'.cache == s.cache[n :=
      if n in s.cache then s.cache[n].(refs := s.cache[n].refs + 1) else CrashLog.Buf(s.disk[n], false, 1)]
  {
  }

  lemma HitShows(buf: seq<B.Buf>, dev: nat, n: nat, b: nat)
    requires B.Unique(buf) && dev > 0 && Holds(buf, dev, n, b)
    ensures n in CacheOf(buf, dev)
    ensures var m := CacheOf(buf, dev);
      CacheOf(buf[b := buf[b].(refcnt := buf[b].refcnt + 1)], dev) == m[n := m[n].(refs := m[n].refs + 1)]
  {
    ShownAt(buf, dev, n, b);
    StoreShows(buf, dev, b, buf[b].(refcnt := buf[b].refcnt + 1));
  }

  lemma MissShows(buf: seq<B.Buf>, dev: nat, n: nat, b: nat, d: B.Data)
    requires B.Unique(buf) && dev > 0 && b < |buf| && B.NoneCached(buf, B.Block(dev, n))
    ensures var k := B.Block(dev, n); var mid := Recycled(buf, b, k);
      && B.Unique(mid) && n !in CacheOf(mid, dev)
      && CacheOf(buf[b := B.Buf(k, 1, true, false, d)], dev) == CacheOf(mid, dev)[n := CrashLog.Buf(d, false, 1)]
  {
    var k := B.Block(dev, n);
    var mid := Recycled(buf, b, k);
    RecycleShows(buf, dev, b, k);
    RecycledAt(buf, dev, b, k, n);
    assert !Cached(buf, dev, n);
    assert mid[b := B.Buf(k, 1, true, false, d)] == buf[b := B.Buf(k, 1, true, false, d)];
    StoreShows(mid, dev, b, B.Buf(k, 1, true, false, d));
  }

  // The machine after the eviction that goes with recycling buffer b, if b holds a
  // block of this device.
  ghost function Evicted(c: CrashLog.Config, s: CrashLog.State, dev: nat, q: B.Buf): CrashLog.State
    requires CrashLog.Layout(c) && |s.disk| == c.size
    requires q.block.dev == dev ==> CrashLog.Enabled(c, s, CrashLog.Evict(q.block.no))
  {
    if q.block.dev == dev then CrashLog.Next(c, s, CrashLog.Evict(q.block.no)) else s
  }

  lemma EvictShows(c: CrashLog.Config, s: CrashLog.State, dev: nat, buf: seq<B.Buf>, b: nat, k: B.Block)
    requires CrashLog.Layout(c) && |s.disk| == c.size && B.Unique(buf) && dev > 0 && s.cache == CacheOf(buf, dev)
    requires b < |buf| && !B.InUse(buf[b]) && B.NoneCached(buf, k) && k.dev > 0
    requires buf[b].block.dev == dev ==> buf[b].valid
    ensures buf[b].block.dev == dev ==> CrashLog.Enabled(c, s, CrashLog.Evict(buf[b].block.no))
    ensures var s' := Evicted(c, s, dev, buf[b]);
      s'.disk == s.disk && s'.pc == s.pc && s'.cache == CacheOf(Recycled(buf, b, k), dev)
  {
    RecycleShows(buf, dev, b, k);
    if buf[b].block.dev == dev { ShownAt(buf, dev, buf[b].block.no, b); }
  }

  // bread() of a cached block is Read.
  lemma HitIsRead(c: CrashLog.Config, s: CrashLog.State, dev: nat, buf: seq<B.Buf>, disk: map<B.Block, B.Data>, n: nat,
                  b: nat)
    requires CrashLog.Layout(c) && |s.disk| == c.size && n < c.size && !CrashLog.Recovering(s)
    requires Shows(s, dev, buf, disk) && Holds(buf, dev, n, b)
    ensures CrashLog.Enabled(c, s, CrashLog.Read(n))
    ensures Shows(CrashLog.Next(c, s, CrashLog.Read(n)), dev, buf[b := buf[b].(refcnt := buf[b].refcnt + 1)], disk)
  {
    var s2, buf2 := CrashLog.Next(c, s, CrashLog.Read(n)), buf[b := buf[b].(refcnt := buf[b].refcnt + 1)];
    HitShows(buf, dev, n, b);
    assert s2.disk == s.disk && s2.cache == CacheOf(buf2, dev) by { ReadStep(c, s, n, s2); }
    assert B.Unique(buf2);
    StillShows(s, s2, dev, buf, buf2, disk);
  }

  // bread() of any other block is Read after the eviction of what the recycled
  // buffer held.
  lemma MissIsRead(c: CrashLog.Config, s: CrashLog.State, dev: nat, buf: seq<B.Buf>, disk: map<B.Block, B.Data>, n: nat,
                   b: nat)
    requires CrashLog.Layout(c) && |s.disk| == c.size && n < c.size && !CrashLog.Recovering(s)
    requires Shows(s, dev, buf, disk) && Loaded(buf) && b < |buf| && !B.InUse(buf[b])
    requires B.NoneCached(buf, B.Block(dev, n))
    ensures buf[b].block.dev == dev ==> CrashLog.Enabled(c, s, CrashLog.Evict(buf[b].block.no))
    ensures var s1, k := Evicted(c, s, dev, buf[b]), B.Block(dev, n);
      && |s1.disk| == c.size && CrashLog.Enabled(c, s1, CrashLog.Read(n)) && k in disk
      && Shows(CrashLog.Next(c, s1, CrashLog.Read(n)), dev, buf[b := B.Buf(k, 1, true, false, disk[k])], disk)
  {
    var k := B.Block(dev, n);
    assert BlockShown(s.disk, dev, disk, n);
    EvictShows(c, s, dev, buf, b, k);
    var s1 := Evicted(c, s, dev, buf[b]);
    MissShows(buf, dev, n, b, disk[k]);
    var s2, buf2 := CrashLog.Next(c, s1, CrashLog.Read(n)), buf[b := B.Buf(k, 1, true, false, disk[k])];
    assert s2.disk == s.disk && s2.cache == CacheOf(buf2, dev) by { ReadStep(c, s1, n, s2); }
    assert B.Unique(buf2);
    StillShows(s, s2, dev, buf, buf2, disk);
  }

  // bread() on the buffers, with the machine's steps beside it: Read, after Evict if
  // it recycled a buffer of this device.
  method BreadRefines(cache: B.Cache, n: nat, dev: nat, ghost c: CrashLog.Config, ghost s: CrashLog.State)
    returns (r: Option<nat>, ghost s1: CrashLog.State)
    requires cache.Valid() && dev > 0 && n < c.size && B.Block(dev, n) in cache.content
    requires CrashLog.Layout(c) && |s.disk| == c.size && !CrashLog.Recovering(s)
    requires Shows(s, dev, cache.buf, cache.disk) && Loaded(cache.buf)
    modifies cache`buf
    ensures cache.Valid() && Loaded(cache.buf) && (r.None? ==> cache.buf == old(cache.buf))
    ensures |s1.disk| == c.size && (s1 == s ||
      exists m :: CrashLog.Enabled(c, s, CrashLog.Evict(m)) && s1 == CrashLog.Next(c, s, CrashLog.Evict(m)))
    ensures r.Some? ==> CrashLog.Enabled(c, s1, CrashLog.Read(n))
    ensures r.Some? ==> r.value < |cache.buf| && cache.buf[r.value].data == CrashLog.Logical(s, n)
    ensures r.Some? ==> Shows(CrashLog.Next(c, s1, CrashLog.Read(n)), dev, cache.buf, cache.disk)
  {
    var k := B.Block(dev, n);
    ghost var buf := cache.buf;
    s1 := s;
    assert BlockShown(s.disk, dev, cache.disk, n);
    r := cache.Bread(k);
    if r.Some? {
      ghost var b := r.value;
      if B.NoneCached(buf, k) {
        assert B.Settled(buf, k);
        assert !Cached(buf, dev, n);
        MissIsRead(c, s, dev, buf, cache.disk, n, b);
        s1 := Evicted(c, s, dev, buf[b]);
      } else {
        assert Holds(buf, dev, n, b);
        ShownAt(buf, dev, n, b);
        HitIsRead(c, s, dev, buf, cache.disk, n, b);
        assert cache.buf == buf[b := buf[b].(refcnt := buf[b].refcnt + 1)];
      }
    }
  }

  // brelse() is Release.
  lemma ReleaseStep(c: CrashLog.Config, s: CrashLog.State, n: nat, s': CrashLog.State)
    requires CrashLog.Layout(c) && |s.disk| == c.size && CrashLog.Enabled(c, s, CrashLog.Release(n))
    requires s' == CrashLog.Next(c, s, CrashLog.Release(n))
    ensures s'.disk == s.disk && s'.cache == s.cache[n := s.cache[n].(refs := s.cache[n].refs - 1)]
  {
  }

  lemma BrelseIsRelease(c: CrashLog.Config, s: CrashLog.State, dev: nat, buf: seq<B.Buf>, disk: map<B.Block, B.Data>,
                        n: nat, b: nat)
    requires CrashLog.Layout(c) && |s.disk| == c.size && Shows(s, dev, buf, disk)
    requires Holds(buf, dev, n, b) && buf[b].refcnt > 0 && !CrashLog.Touched(s.procs, n)
    ensures CrashLog.Enabled(c, s, CrashLog.Release(n))
    ensures Shows(CrashLog.Next(c, s, CrashLog.Release(n)), dev, buf[b := buf[b].(refcnt := buf[b].refcnt - 1)], disk)
  {
    ShownAt(buf, dev, n, b);
    assert CrashLog.Enabled(c, s, CrashLog.Release(n));
    var s2, buf2 := CrashLog.Next(c, s, CrashLog.Release(n)), buf[b := buf[b].(refcnt := buf[b].refcnt - 1)];
    StoreShows(buf, dev, b, buf2[b]);
    assert s2.disk == s.disk && s2.cache == CacheOf(buf2, dev) by { ReleaseStep(c, s, n, s2); }
    assert B.Unique(buf2);
    StillShows(s, s2, dev, buf, buf2, disk);
  }

  // Changing the data of a held buffer is Modify, and pinning it is what LogWrite
  // does to the cache.
  lemma ModifyIsModify(c: CrashLog.Config, s: CrashLog.State, dev: nat, buf: seq<B.Buf>, disk: map<B.Block, B.Data>,
                       n: nat, b: nat, p: nat, d: B.Data)
    requires CrashLog.Layout(c) && |s.disk| == c.size && Shows(s, dev, buf, disk) && Holds(buf, dev, n, b)
    requires CrashLog.Enabled(c, s, CrashLog.Modify(p, n, d))
    ensures Shows(CrashLog.Next(c, s, CrashLog.Modify(p, n, d)), dev, buf[b := buf[b].(data := d)], disk)
  {
    ShownAt(buf, dev, n, b);
    var s2, buf2 := CrashLog.Next(c, s, CrashLog.Modify(p, n, d)), buf[b := buf[b].(data := d)];
    StoreShows(buf, dev, b, buf2[b]);
    assert s2.cache == CacheOf(buf2, dev);
    StillShows(s, s2, dev, buf, buf2, disk);
  }

  lemma PinIsLogWrite(c: CrashLog.Config, s: CrashLog.State, dev: nat, buf: seq<B.Buf>, disk: map<B.Block, B.Data>,
                      n: nat, b: nat, p: nat)
    requires CrashLog.Layout(c) && |s.disk| == c.size && Shows(s, dev, buf, disk) && Holds(buf, dev, n, b)
    requires CrashLog.Enabled(c, s, CrashLog.LogWrite(p, n))
    ensures Shows(CrashLog.Next(c, s, CrashLog.LogWrite(p, n)), dev, buf[b := buf[b].(dirty := true)], disk)
  {
    ShownAt(buf, dev, n, b);
    var s2, buf2 := CrashLog.Next(c, s, CrashLog.LogWrite(p, n)), buf[b := buf[b].(dirty := true)];
    StoreShows(buf, dev, b, buf2[b]);
    assert s2.cache == CacheOf(buf2, dev);
    StillShows(s, s2, dev, buf, buf2, disk);
  }

  // bwrite() of new data is the committer's Put.
  lemma BwriteIsPut(s: CrashLog.State, dev: nat, buf: seq<B.Buf>, disk: map<B.Block, B.Data>, n: nat, b: nat, d: B.Data)
    requires n < |s.disk| && Shows(s, dev, buf, disk) && Holds(buf, dev, n, b)
    ensures Shows(CrashLog.Put(s, n, d), dev, buf[b := buf[b].(data := d, dirty := false)], disk[B.Block(dev, n) := d])
  {
    ShownAt(buf, dev, n, b);
    var s2, buf2 := CrashLog.Put(s, n, d), buf[b := buf[b].(data := d, dirty := false)];
    StoreShows(buf, dev, b, buf2[b]);
    assert s2.cache == CacheOf(buf2, dev) && B.Unique(buf2);
    var disk2 := disk[B.Block(dev, n) := d];
    forall x: nat {:trigger BlockShown(s2.disk, dev, disk2, x)} | x < |s2.disk|
      ensures BlockShown(s2.disk, dev, disk2, x)
    {
      assert BlockShown(s.disk, dev, disk, x);
    }
  }
}
