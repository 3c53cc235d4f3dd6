// bio.c: buffers over a disk, found and recycled through the LRU list.

module BufferCache {
  import opened Wrappers
  import opened BufferList

  type Data = seq<int>
  datatype Block = Block(dev: nat, no: nat)
  datatype Buf = Buf(block: Block, refcnt: nat, valid: bool, dirty: bool, data: Data)

  // Static buffers all start as block 0 of device 0; real devices start at 1.
  const UNNAMED := Block(0, 0)

  // At most one buffer per block.
  ghost predicate Unique(buf: seq<Buf>) {
    forall b, c | 0 <= b < c < |buf| && buf[b].block.dev > 0 :: buf[b].block != buf[c].block
  }

  // `content` is the disk overlaid with pending writes: a valid buffer shows it, and
  // where no valid buffer does, or a clean one that nobody uses, the disk does.
  ghost predicate Coherent(buf: seq<Buf>, disk: map<Block, Data>, content: map<Block, Data>) {
    && disk.Keys == content.Keys
    && (forall b | 0 <= b < |buf| && buf[b].valid && buf[b].block in content :: buf[b].data == content[buf[b].block])
    && (forall k | k in content && Settled(buf, k) :: disk[k] == content[k])
  }

  // No buffer holds a version of block k that the disk may lack.
  ghost predicate Settled(buf: seq<Buf>, k: Block) {
    forall b | 0 <= b < |buf| && buf[b].block == k :: !buf[b].valid || (buf[b].refcnt == 0 && !buf[b].dirty)
  }

  ghost predicate NoneCached(buf: seq<Buf>, k: Block) {
    forall b | 0 <= b < |buf| :: buf[b].block != k
  }

  predicate InUse(b: Buf) {
    b.refcnt > 0 || b.dirty
  }

  // The least recently used buffer that may be recycled is order[k].
  ghost predicate Lru(buf: seq<Buf>, order: seq<nat>, k: nat) {
    && k < |order| && (forall i | 0 <= i < |order| :: order[i] < |buf|)
    && !InUse(buf[order[k]])
    && forall i | k < i < |order| :: InUse(buf[order[i]])
  }

  // The list runs from the buffer that was given up last to the one given up longest
  // ago; those never given up have time 0.
  ghost predicate Recent(order: seq<nat>, times: seq<nat>, clock: nat) {
    && (forall i | 0 <= i < |order| :: order[i] < |times|)
    && (forall b | 0 <= b < |times| :: times[b] <= clock)
    && forall i, j | 0 <= i < j < |order| :: times[order[i]] > times[order[j]] || times[order[j]] == 0
  }

  lemma MovedRecent(order: seq<nat>, times: seq<nat>, clock: nat, k: nat, head: nat)
    requires Recent(order, times, clock) && k < |order| && Distinct(order, head)
    ensures Recent(Pushed(Removed(order, k), order[k]), times[order[k] := clock + 1], clock + 1)
  {
    var times' := times[order[k] := clock + 1];
    assert forall i | 0 <= i < |order| && i != k :: times'[order[i]] == times[order[i]];
  }

  // No buffer that could be recycled was given up longer ago.
  lemma LruIsOldest(buf: seq<Buf>, order: seq<nat>, times: seq<nat>, clock: nat, k: nat)
    requires Lru(buf, order, k) && Recent(order, times, clock) && Complete(order, |buf|) && |times| == |buf|
    ensures forall b | 0 <= b < |buf| && !InUse(buf[b]) :: times[b] >= times[order[k]]
  {
    forall b: nat | b < |buf| && !InUse(buf[b]) ensures times[b] >= times[order[k]] {
      assert b in order;
      var i :| 0 <= i < |order| && order[i] == b;
    }
  }

  lemma HitKeeps(buf: seq<Buf>, disk: map<Block, Data>, content: map<Block, Data>, b: nat)
    requires Unique(buf) && Coherent(buf, disk, content) && b < |buf|
    ensures var buf' := buf[b := buf[b].(refcnt := buf[b].refcnt + 1)]; Unique(buf') && Coherent(buf', disk, content)
  {
    var buf' := buf[b := buf[b].(refcnt := buf[b].refcnt + 1)];
    forall k | k in content && Settled(buf', k) ensures disk[k] == content[k] {
      assert Settled(buf, k) by {
        forall c | 0 <= c < |buf| && buf[c].block == k ensures !buf[c].valid || (buf[c].refcnt == 0 && !buf[c].dirty) {
          assert buf'[c].block == k;
        }
      }
    }
  }

  lemma RecycleKeeps(buf: seq<Buf>, disk: map<Block, Data>, content: map<Block, Data>, b: nat, k: Block)
    requires Unique(buf) && Coherent(buf, disk, content) && b < |buf| && k.dev > 0 && NoneCached(buf, k)
    requires buf[b].refcnt == 0 && !buf[b].dirty
    ensures var buf' := buf[b := buf[b].(block := k, refcnt := 1, valid := false, dirty := false)];
      Unique(buf') && Coherent(buf', disk, content) && (k in content ==> disk[k] == content[k])
  {
    var buf' := buf[b := buf[b].(block := k, refcnt := 1, valid := false, dirty := false)];
    assert Settled(buf, k);
    forall j | j in content && Settled(buf', j) ensures disk[j] == content[j] {
      if j != k {
        assert Settled(buf, j) by {
          forall c | 0 <= c < |buf| && buf[c].block == j
            ensures !buf[c].valid || (buf[c].refcnt == 0 && !buf[c].dirty)
          {
            assert c != b ==> buf'[c].block == j;
          }
        }
      }
    }
  }

  // Storing in one buffer what the disk or the caller says.
  lemma StoreKeeps(buf: seq<Buf>, disk: map<Block, Data>, content: map<Block, Data>, b: nat, buf': seq<Buf>,
                   disk': map<Block, Data>, content': map<Block, Data>)
    requires Unique(buf) && Coherent(buf, disk, content) && b < |buf| && buf[b].block.dev > 0 && buf[b].block in content
    requires |buf'| == |buf| && (forall c | 0 <= c < |buf| && c != b :: buf'[c] == buf[c])
    requires buf'[b].block == buf[b].block
    requires disk'.Keys == content'.Keys == content.Keys
    requires forall k | k in content && k != buf[b].block :: disk'[k] == disk[k] && content'[k] == content[k]
    requires buf'[b].valid ==> buf'[b].data == content'[buf[b].block]
    requires (!buf'[b].valid || (buf'[b].refcnt == 0 && !buf'[b].dirty)) ==>
      disk'[buf[b].block] == content'[buf[b].block]
    ensures Unique(buf') && Coherent(buf', disk', content')
  {
    forall k | k in content' && Settled(buf', k) ensures disk'[k] == content'[k] {
      if k != buf[b].block {
        assert Settled(buf, k) by {
          forall c | 0 <= c < |buf| && buf[c].block == k
            ensures !buf[c].valid || (buf[c].refcnt == 0 && !buf[c].dirty)
          {
            assert buf'[c].block == k;
          }
        }
      } else {
        assert buf'[b].block == k;
      }
    }
    forall c | 0 <= c < |buf'| && buf'[c].valid && buf'[c].block in content'
      ensures buf'[c].data == content'[buf'[c].block]
    {
      if c != b { assert buf[c].block != buf[b].block; }
    }
  }

  function Backwards(n: nat): seq<nat> {
    seq(n, i requires 0 <= i < n => n - 1 - i)
  }

  lemma BackwardsComplete(n: nat)
    ensures Complete(Backwards(n), n)
  {
    forall b: nat | b < n ensures b in Backwards(n) { assert Backwards(n)[n - 1 - b] == b; }
  }

  class Cache {
    // head is index |buf|.
    const head: nat
    const prev: array<nat>
    const next: array<nat>
    var buf: seq<Buf>
    var disk: map<Block, Data>
    ghost var order: seq<nat>
    ghost var times: seq<nat>
    ghost var clock: nat
    ghost var content: map<Block, Data>

    ghost predicate ListValid()
      reads this, prev, next
    {
      && prev != next && Linked(prev[..], next[..], head, order) && Complete(order, head)
      && |buf| == head == |times| && Recent(order, times, clock)
    }

    ghost predicate Valid()
      reads this, prev, next
    {
      ListValid() && Unique(buf) && Coherent(buf, disk, content)
    }

    // binit(): the last buffer is first in the list.
    constructor (n: nat, disk0: map<Block, Data>)
      ensures Valid() && head == n && disk == content == disk0
      ensures order == Backwards(n)
      ensures forall b | 0 <= b < n :: buf[b].block == UNNAMED && buf[b].refcnt == 0 && !buf[b].dirty && !buf[b].valid
      ensures fresh(prev) && fresh(next)
    {
      head, disk, content := n, disk0, disk0;
      buf := seq(n, _ => Buf(UNNAMED, 0, false, false, []));
      prev := new nat[n + 1];
      next := new nat[n + 1];
      order, times, clock := [], seq(n, _ => 0), 0;
      new;
      prev[n], next[n] := n, n;
      assert Linked(prev[..], next[..], head, order);
      for b := 0 to n
        invariant prev != next && Linked(prev[..], next[..], head, order) && order == Backwards(b)
        invariant times == seq(n, _ => 0) && clock == 0
        invariant disk == content == disk0 && buf == seq(n, _ => Buf(UNNAMED, 0, false, false, []))
      {
        Push(b);
        assert Pushed(Backwards(b), b) == Backwards(b + 1);
      }
      BackwardsComplete(n);
    }

    method Push(b: nat)
      requires prev != next && Linked(prev[..], next[..], head, order) && b < head && b !in order
      modifies prev, next, this`order
      ensures Linked(prev[..], next[..], head, order) && order == Pushed(old(order), b)
    {
      PushLinks(prev[..], next[..], head, order, b);
      next[b] := next[head];
      prev[b] := head;
      prev[next[head]] := b;
      next[head] := b;
      order := Pushed(order, b);
    }

    method Unlink(b: nat, ghost k: nat)
      requires prev != next && Linked(prev[..], next[..], head, order) && k < |order| && order[k] == b
      modifies prev, next, this`order
      ensures Linked(prev[..], next[..], head, order) && order == Removed(old(order), k) && b !in order
    {
      UnlinkLinks(prev[..], next[..], head, order, k);
      prev[next[b]] := prev[b];
      next[prev[b]] := next[b];
      order := Removed(order, k);
    }

    // The search for a buffer of block k, from the front of the list.
    method FindCached(k: Block) returns (r: Option<nat>)
      requires Valid()
      ensures r.None? ==> NoneCached(buf, k)
      ensures r.Some? ==> r.value < head && buf[r.value].block == k
    {
      var b := next[head];
      ghost var i: int := 0;
      assert Slot(order, head, -1) == head;
      while b != head
        invariant 0 <= i <= |order| && b == Slot(order, head, i)
        invariant forall j | 0 <= j < i :: buf[order[j]].block != k
        decreases |order| - i
      {
        if buf[b].block == k { return Some(b); }
        b := next[b];
        i := i + 1;
      }
      SawAll(order, buf, k);
      r := None;
    }

    // The search for a buffer to recycle, from the back of the list.
    method FindUnused() returns (r: Option<nat>)
      requires Valid()
      ensures r.None? ==> forall b | 0 <= b < head :: InUse(buf[b])
      ensures r.Some? ==> exists i: nat :: Lru(buf, order, i) && order[i] == r.value
      ensures r.Some? ==> forall c | 0 <= c < head && !InUse(buf[c]) :: times[c] >= times[r.value]
    {
      var b := prev[head];
      ghost var i: int := |order| - 1;
      assert Slot(order, head, |order|) == head;
      while b != head
        invariant -1 <= i < |order| && b == Slot(order, head, i)
        invariant forall j | i < j < |order| :: InUse(buf[order[j]])
        decreases i
      {
        if buf[b].refcnt == 0 && !buf[b].dirty {
          assert Lru(buf, order, i);
          LruIsOldest(buf, order, times, clock, i);
          return Some(b);
        }
        b := prev[b];
        i := i - 1;
      }
      SawAll(order, buf, UNNAMED);
      r := None;
    }

    // A buffer for block k: the one that caches it, or else the least recently used
    // one that is neither held nor pinned; None is the panic.
    method Bget(k: Block) returns (r: Option<nat>)
      requires Valid() && k.dev > 0
      modifies this`buf
      ensures Valid()
      ensures r.None? ==> buf == old(buf) && NoneCached(buf, k) && forall b | 0 <= b < head :: InUse(buf[b])
      ensures r.Some? ==> r.value < head && buf[r.value].block == k && buf == old(buf)[r.value := buf[r.value]]
      ensures r.Some? && !NoneCached(old(buf), k) ==>
        buf[r.value] == old(buf)[r.value].(refcnt := old(buf)[r.value].refcnt + 1)
      ensures r.Some? && NoneCached(old(buf), k) ==>
        && buf[r.value].refcnt == 1 && !buf[r.value].valid && !buf[r.value].dirty
        && (exists i: nat :: Lru(old(buf), order, i) && order[i] == r.value)
        && forall c | 0 <= c < head && !InUse(old(buf)[c]) :: times[c] >= times[r.value]
    {
      r := FindCached(k);
      if r.Some? {
        HitKeeps(buf, disk, content, r.value);
        buf := buf[r.value := buf[r.value].(refcnt := buf[r.value].refcnt + 1)];
        return;
      }
      r := FindUnused();
      if r.Some? {
        var b := r.value;
        assert !InUse(buf[b]);
        RecycleKeeps(buf, disk, content, b, k);
        buf := buf[b := buf[b].(block := k, refcnt := 1, valid := false, dirty := false)];
      }
    }

    // The contents of block k: the disk overlaid with whatever is pending.
    method Bread(k: Block) returns (r: Option<nat>)
      requires Valid() && k.dev > 0 && k in content
      modifies this`buf
      ensures Valid() && (r.None? ==> buf == old(buf))
      ensures r.Some? ==> r.value < head && buf[r.value].block == k && buf[r.value].valid && buf[r.value].refcnt > 0
      ensures r.Some? ==> buf[r.value].data == content[k]
      ensures r.Some? ==> buf == old(buf)[r.value := buf[r.value]]
      ensures r.Some? && !NoneCached(old(buf), k) ==>
        && old(buf)[r.value].block == k
        && buf[r.value]
           == old(buf)[r.value].(refcnt := old(buf)[r.value].refcnt + 1, valid := true, data := content[k])
      ensures r.Some? && NoneCached(old(buf), k) ==>
        !InUse(old(buf)[r.value]) && buf[r.value] == Buf(k, 1, true, false, content[k])
      ensures r.None? ==> NoneCached(buf, k) && forall b | 0 <= b < head :: InUse(buf[b])
    {
      r := Bget(k);
      if r.None? { return; }
      var b := r.value;
      if !buf[b].valid {
        UncachedOnDisk(buf, disk, content, b);
        var buf' := buf[b := buf[b].(valid := true, data := disk[k])];
        StoreKeeps(buf, disk, content, b, buf', disk, content);
        buf := buf';
      }
    }

    // The holder changes the data.
    method Modify(b: nat, d: Data)
      requires Valid() && b < head && buf[b].refcnt > 0 && buf[b].valid && buf[b].block.dev > 0
      requires buf[b].block in content
      modifies this`buf, this`content
      ensures Valid() && buf == old(buf)[b := old(buf)[b].(data := d)] && content == old(content)[buf[b].block := d]
    {
      var buf' := buf[b := buf[b].(data := d)];
      StoreKeeps(buf, disk, content, b, buf', disk, content[buf[b].block := d]);
      content := content[buf[b].block := d];
      buf := buf';
    }

    // log_write()'s pin.
    method Pin(b: nat)
      requires Valid() && b < head && buf[b].refcnt > 0 && buf[b].valid && buf[b].block.dev > 0
      requires buf[b].block in content
      modifies this`buf
      ensures Valid() && buf == old(buf)[b := old(buf)[b].(dirty := true)]
    {
      var buf' := buf[b := buf[b].(dirty := true)];
      StoreKeeps(buf, disk, content, b, buf', disk, content);
      buf := buf';
    }

    method Bwrite(b: nat)
      requires Valid() && b < head && buf[b].refcnt > 0 && buf[b].valid && buf[b].block.dev > 0
      requires buf[b].block in content
      modifies this`buf, this`disk
      ensures Valid() && buf == old(buf)[b := old(buf)[b].(dirty := false)]
      ensures disk == old(disk)[buf[b].block := content[buf[b].block]]
    {
      var buf' := buf[b := buf[b].(dirty := false)];
      var disk' := disk[buf[b].block := buf[b].data];
      StoreKeeps(buf, disk, content, b, buf', disk', content);
      disk := disk';
      buf := buf';
    }

    // The last holder puts the buffer in front. A holder that neither wrote nor
    // pinned its change would lose it; the callers in the kernel always do.
    method Brelse(b: nat, ghost k: nat)
      requires Valid() && b < head && buf[b].refcnt > 0 && buf[b].block.dev > 0 && buf[b].block in content
      requires k < |order| && order[k] == b
      requires buf[b].dirty || disk[buf[b].block] == content[buf[b].block]
      modifies this`buf, this`order, this`times, this`clock, prev, next
      ensures Valid() && buf == old(buf)[b := old(buf)[b].(refcnt := old(buf)[b].refcnt - 1)]
      ensures order == if buf[b].refcnt == 0 then [b] + (old(order)[..k] + old(order)[k + 1..]) else old(order)
      ensures clock == old(clock) + (if buf[b].refcnt == 0 then 1 else 0)
      ensures times == if buf[b].refcnt == 0 then old(times)[b := clock] else old(times)
    {
      ReleaseKeeps(buf, disk, content, b);
      buf := buf[b := buf[b].(refcnt := buf[b].refcnt - 1)];
      if buf[b].refcnt == 0 {
        MovedComplete(order, head, k);
        MovedRecent(order, times, clock, k, head);
        clock := clock + 1;
        times := times[b := clock];
        Unlink(b, k);
        Push(b);
      }
    }
  }

  // The list has every buffer, so both searches see them all.
  lemma SawAll(order: seq<nat>, buf: seq<Buf>, k: Block)
    requires Complete(order, |buf|)
    ensures (forall j | 0 <= j < |order| :: buf[order[j]].block != k) ==> NoneCached(buf, k)
    ensures (forall j | 0 <= j < |order| :: InUse(buf[order[j]])) ==> forall b | 0 <= b < |buf| :: InUse(buf[b])
  {
    forall b: nat | b < |buf| ensures exists j :: 0 <= j < |order| && order[j] == b && buf[order[j]] == buf[b] {
      assert b in order;
    }
  }

  lemma UncachedOnDisk(buf: seq<Buf>, disk: map<Block, Data>, content: map<Block, Data>, b: nat)
    requires Unique(buf) && Coherent(buf, disk, content) && b < |buf| && !buf[b].valid && buf[b].block.dev > 0
    requires buf[b].block in content
    ensures disk[buf[b].block] == content[buf[b].block]
  {
    assert Settled(buf, buf[b].block) by {
      forall c | 0 <= c < |buf| && buf[c].block == buf[b].block
        ensures !buf[c].valid || (buf[c].refcnt == 0 && !buf[c].dirty)
      {
        assert c == b;
      }
    }
  }

  lemma ReleaseKeeps(buf: seq<Buf>, disk: map<Block, Data>, content: map<Block, Data>, b: nat)
    requires Unique(buf) && Coherent(buf, disk, content) && b < |buf| && buf[b].refcnt > 0
    requires buf[b].block.dev > 0 && buf[b].block in content
    requires buf[b].dirty || disk[buf[b].block] == content[buf[b].block]
    ensures var buf' := buf[b := buf[b].(refcnt := buf[b].refcnt - 1)]; Unique(buf') && Coherent(buf', disk, content)
  {
    var buf' := buf[b := buf[b].(refcnt := buf[b].refcnt - 1)];
    if buf[b].valid || !buf[b].dirty {
      if !buf'[b].valid { UncachedOnDisk(buf, disk, content, b); }
    } else {
      UncachedOnDisk(buf, disk, content, b);
    }
    StoreKeeps(buf, disk, content, b, buf', disk, content);
  }
}
