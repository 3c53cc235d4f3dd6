// Linking and unlinking blocks: how the partition moves when an inode changes.

module FsOwnership {
  import opened FsDisk
  import opened FsInvariant

  ghost predicate SameMeta(g: Geo, fs: Fs, fs': Fs)
    requires Sized(g, fs) && Sized(g, fs')
  {
    forall b | 0 <= b < g.dstart :: fs'.blocks[b] == fs.blocks[b]
  }

  lemma MetaUsed(g: Geo, fs: Fs, fs': Fs)
    requires Sized(g, fs) && Sized(g, fs') && SameMeta(g, fs, fs')
    ensures forall b: nat | b < g.size :: Used(g, fs', b) <==> Used(g, fs, b)
  {
  }

  // ---------------------------------------------------------------- contents change, owners do not

  // A block that is nobody's indirect block can be overwritten freely.
  lemma OverwriteInv(g: Geo, fs: Fs, extra: set<nat>, b: nat, v: Block)
    requires Inv(g, fs, extra, {}) && g.dstart <= b < g.size && |v| == g.bsize
    requires forall i: nat | i < g.ninodes :: fs.inodes[i].addrs[g.ndirect] != b
    ensures var fs' := fs.(blocks := fs.blocks[b := v]); Inv(g, fs', extra, {}) && SameAddrs(g, fs, fs')
  {
    var fs' := fs.(blocks := fs.blocks[b := v]);
    assert Sized(g, fs') && SameMeta(g, fs, fs');
    assert SameAddrs(g, fs, fs');
    MetaUsed(g, fs, fs');
    SameOwners(g, fs, fs');
    SameKeepsRange(g, fs, fs');
  }

  lemma ExtraIsNoIndirect(g: Geo, fs: Fs, extra: set<nat>, b: nat)
    requires Inv(g, fs, extra, {}) && b in extra
    ensures forall i: nat | i < g.ninodes :: fs.inodes[i].addrs[g.ndirect] != b
  {
    forall i: nat | i < g.ninodes ensures fs.inodes[i].addrs[g.ndirect] != b {
      if fs.inodes[i].addrs[g.ndirect] == b { assert OwnedBy(g, fs, b, i, g.ndirect); }
    }
  }

  lemma DataIsNoIndirect(g: Geo, fs: Fs, extra: set<nat>, i: nat, k: nat)
    requires Inv(g, fs, extra, {}) && i < g.ninodes && k < Slots(g) && k != g.ndirect && Addr(g, fs, i, k) != 0
    ensures forall j: nat | j < g.ninodes :: fs.inodes[j].addrs[g.ndirect] != Addr(g, fs, i, k)
  {
    var b := Addr(g, fs, i, k);
    forall j: nat | j < g.ninodes ensures fs.inodes[j].addrs[g.ndirect] != b {
      if fs.inodes[j].addrs[g.ndirect] == b {
        assert OwnedBy(g, fs, b, j, g.ndirect) && OwnedBy(g, fs, b, i, k);
      }
    }
  }

  // ---------------------------------------------------------------- linking

  ghost predicate LinksOne(g: Geo, fs: Fs, fs': Fs, i: nat, k: nat, b: nat)
    requires Sized(g, fs) && Sized(g, fs') && i < g.ninodes && k < Slots(g)
  {
    && Addr(g, fs, i, k) == 0 && Addr(g, fs', i, k) == b
    && forall j: nat, q: nat | j < g.ninodes && q < Slots(g) && !(j == i && q == k) ::
         Addr(g, fs', j, q) == Addr(g, fs, j, q)
  }

  // An allocated block that gets its owner.
  lemma LinkInv(g: Geo, fs: Fs, fs': Fs, extra: set<nat>, i: nat, k: nat, b: nat)
    requires Inv(g, fs, extra, {}) && b in extra && Sized(g, fs') && SameMeta(g, fs, fs')
    requires i < g.ninodes && k < Slots(g) && LinksOne(g, fs, fs', i, k, b)
    ensures Inv(g, fs', extra - {b}, {})
  {
    MetaUsed(g, fs, fs');
    assert OwnedBy(g, fs', b, i, k);
    forall c: nat, j: nat, q: nat | OwnedBy(g, fs', c, j, q)
      ensures (c == b && j == i && q == k) || (c != b && OwnedBy(g, fs, c, j, q))
    {
      if !(j == i && q == k) {
        assert OwnedBy(g, fs, c, j, q);
        assert Owned(g, fs, c);
      }
    }
    forall c: nat | Owned(g, fs, c) ensures Owned(g, fs', c) {
      var j: nat, q: nat :| OwnedBy(g, fs, c, j, q);
      assert OwnedBy(g, fs', c, j, q);
    }
    assert forall c: nat :: Owned(g, fs', c) ==> c == b || Owned(g, fs, c);
  }

  function SetAddr(fs: Fs, i: nat, k: nat, b: nat): Fs
    requires i < |fs.inodes| && k < |fs.inodes[i].addrs|
  {
    fs.(inodes := fs.inodes[i := fs.inodes[i].(addrs := fs.inodes[i].addrs[k := b])])
  }

  lemma LinkDirect(g: Geo, fs: Fs, extra: set<nat>, i: nat, k: nat, b: nat)
    requires Inv(g, fs, extra, {}) && b in extra && i < g.ninodes && k < g.ndirect && Addr(g, fs, i, k) == 0
    ensures Sized(g, SetAddr(fs, i, k, b)) && LinksOne(g, fs, SetAddr(fs, i, k, b), i, k, b)
    ensures Inv(g, SetAddr(fs, i, k, b), extra - {b}, {})
  {
    LinkInv(g, fs, SetAddr(fs, i, k, b), extra, i, k, b);
  }

  // A fresh indirect block has no entries, so linking it links nothing else.
  lemma LinkIndirect(g: Geo, fs: Fs, extra: set<nat>, i: nat, b: nat)
    requires Inv(g, fs, extra, {}) && b in extra && i < g.ninodes && Addr(g, fs, i, g.ndirect) == 0
    requires b < g.size && fs.blocks[b] == Zeroes(g.bsize)
    ensures Sized(g, SetAddr(fs, i, g.ndirect, b)) && LinksOne(g, fs, SetAddr(fs, i, g.ndirect, b), i, g.ndirect, b)
    ensures Inv(g, SetAddr(fs, i, g.ndirect, b), extra - {b}, {})
  {
    LinkInv(g, fs, SetAddr(fs, i, g.ndirect, b), extra, i, g.ndirect, b);
  }

  function SetEntry(g: Geo, fs: Fs, ind: nat, e: nat, b: nat): Fs
    requires ind < |fs.blocks| && 4 * e + 4 <= |fs.blocks[ind]| && b < U32
  {
    fs.(blocks := fs.blocks[ind := PutEntry(fs.blocks[ind], e, b)])
  }

  lemma LinkEntry(g: Geo, fs: Fs, extra: set<nat>, i: nat, e: nat, b: nat)
    requires Inv(g, fs, extra, {}) && b in extra && b < U32 && i < g.ninodes && e < NIndirect(g)
    requires Addr(g, fs, i, g.ndirect) != 0 && Addr(g, fs, i, g.ndirect + 1 + e) == 0
    ensures var ind := Addr(g, fs, i, g.ndirect); g.dstart <= ind < g.size
    ensures var fs' := SetEntry(g, fs, Addr(g, fs, i, g.ndirect), e, b);
      Sized(g, fs') && LinksOne(g, fs, fs', i, g.ndirect + 1 + e, b) && Inv(g, fs', extra - {b}, {})
  {
    var ind := Addr(g, fs, i, g.ndirect);
    var fs' := SetEntry(g, fs, ind, e, b);
    assert OwnedBy(g, fs, ind, i, g.ndirect);
    forall j: nat, q: nat | j < g.ninodes && q < Slots(g) && !(j == i && q == g.ndirect + 1 + e)
      ensures Addr(g, fs', j, q) == Addr(g, fs, j, q)
    {
      if q > g.ndirect {
        var ind' := fs.inodes[j].addrs[g.ndirect];
        if ind' == ind {
          assert OwnedBy(g, fs, ind, j, g.ndirect);
          EntryAfterPut(fs.blocks[ind], e, b, q - g.ndirect - 1);
        }
      }
    }
    EntryAfterPut(fs.blocks[ind], e, b, e);
    LinkInv(g, fs, fs', extra, i, g.ndirect + 1 + e, b);
  }

  // ---------------------------------------------------------------- unlinking

  // Slots lo..hi of inode i are cleared, nothing else changes.
  ghost predicate Clears(g: Geo, fs: Fs, fs': Fs, i: nat, lo: nat, hi: nat)
    requires Sized(g, fs) && Sized(g, fs') && i < g.ninodes && hi <= Slots(g)
  {
    && (forall k: nat | lo <= k < hi :: Addr(g, fs', i, k) == 0)
    && forall j: nat, q: nat | j < g.ninodes && q < Slots(g) && !(j == i && lo <= q < hi) ::
         Addr(g, fs', j, q) == Addr(g, fs, j, q)
  }

  // Blocks freed before and now forgotten by their owner.
  lemma UnlinkInv(g: Geo, fs: Fs, fs': Fs, i: nat, lo: nat, hi: nat, missing: set<nat>)
    requires Inv(g, fs, {}, missing) && Sized(g, fs') && SameMeta(g, fs, fs')
    requires i < g.ninodes && lo <= hi <= Slots(g) && Clears(g, fs, fs', i, lo, hi)
    requires forall b :: b in missing <==> b != 0 && exists k: nat :: lo <= k < hi && Addr(g, fs, i, k) == b
    ensures Inv(g, fs', {}, {})
  {
    MetaUsed(g, fs, fs');
    forall c: nat, j: nat, q: nat | OwnedBy(g, fs', c, j, q)
      ensures OwnedBy(g, fs, c, j, q) && c !in missing
    {
      assert !(j == i && lo <= q < hi);
      assert OwnedBy(g, fs, c, j, q);
      if c in missing {
        var k: nat :| lo <= k < hi && Addr(g, fs, i, k) == c;
        assert OwnedBy(g, fs, c, i, k);
      }
    }
    forall c: nat | Owned(g, fs, c) && c !in missing ensures Owned(g, fs', c) {
      var j: nat, q: nat :| OwnedBy(g, fs, c, j, q);
      assert !(j == i && lo <= q < hi);
      assert OwnedBy(g, fs', c, j, q);
    }
  }
}
