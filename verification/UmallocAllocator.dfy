// umalloc.c: free(), morecore() and malloc() relinking headers in place.

module UmallocAllocator {
  import opened Wrappers
  import opened UmallocList
  import opened UmallocHeap

  const WORD := 0x1_0000_0000

  // The request in header units, as 32-bit unsigned arithmetic computes it
  // (a header is 8 bytes).
  function UnitsFor(nbytes: nat): (r: nat)
    ensures r > 0
  {
    (nbytes + 7) % WORD / 8 + 1
  }

  // A block of the computed size holds the request and its header exactly when
  // the rounding does not wrap; sizes in the last seven bytes of the range get one unit.
  lemma RoomExactly(nbytes: nat)
    requires nbytes < WORD
    ensures 8 * (UnitsFor(nbytes) - 1) >= nbytes <==> nbytes + 7 < WORD
    ensures nbytes + 7 >= WORD ==> UnitsFor(nbytes) == 1
    ensures nbytes + 7 < WORD ==> 8 * (UnitsFor(nbytes) - 2) < nbytes || nbytes == 0
  {
    if nbytes + 7 < WORD { assert (nbytes + 7) % WORD == nbytes + 7; }
    else { assert (nbytes + 7) % WORD == nbytes + 7 - WORD; }
  }

  // sbrk() takes its byte count as a signed 32-bit int.
  function SbrkArg(nu: nat): int {
    var bytes := nu * 8 % WORD;
    if bytes < WORD / 2 then bytes else bytes - WORD
  }

  // sbrk() is asked for the right number of bytes exactly below 2^31 of them.
  lemma SbrkExactly(nu: nat)
    requires nu * 8 <= WORD
    ensures SbrkArg(nu) == nu * 8 <==> nu * 8 < WORD / 2
  {
    if nu * 8 == WORD { assert SbrkArg(nu) == 0; }
    else { assert nu * 8 % WORD == nu * 8; }
  }

  // For a request of nbytes morecore() asks for what it puts on the free list exactly
  // up to 0x7FFF_FFF0 bytes (or where the rounding wraps and one unit is asked for).
  // Beyond, sbrk() is given 0 or less, succeeds, and has not moved the break past v.
  lemma RequestExactly(nbytes: nat, v: nat)
    requires nbytes < WORD
    ensures var nu := Max(UnitsFor(nbytes), 4096);
      && (SbrkArg(nu) == nu * 8 <==> nbytes <= 0x7FFF_FFF0 || nbytes + 7 >= WORD)
      && (SbrkArg(nu) != nu * 8 ==> v * 8 + SbrkArg(nu) <= v * 8)
  {
    var nu := Max(UnitsFor(nbytes), 4096);
    SbrkExactly(nu);
    if nbytes + 7 < WORD {
      assert (nbytes + 7) % WORD == nbytes + 7;
    } else {
      assert (nbytes + 7) % WORD == nbytes + 7 - WORD;
    }
    if nu * 8 == WORD { assert SbrkArg(nu) == 0; } else { assert nu * 8 % WORD == nu * 8; }
  }

  // sbrk() returned v and moved the break on by its argument, which is all nu units.
  predicate Obtained(brk: nat, v: nat, nu: nat, room: nat) {
    brk <= v && v + nu <= room && SbrkArg(nu) == nu * 8
  }

  // How far behind index f of n the index k comes; f itself is last.
  function Off(f: nat, k: nat, n: nat): int {
    if k > f then k - f - 1 else k - f - 1 + n
  }

  // The fields ptr and size after free() has joined bp to its neighbours p and
  // p->s.ptr, in the order the code sets them.
  function Relinked(ptr: seq<nat>, size: seq<nat>, p: nat, bp: nat): (seq<nat>, seq<nat>)
    requires |ptr| == |size| && p < |ptr| && bp < |ptr| && ptr[p] < |ptr|
  {
    var q := ptr[p];
    var up := bp + size[bp] == q;
    var size1 := if up then size[bp := size[bp] + size[q]] else size;
    var ptr1 := if up then ptr[bp := ptr[q]] else ptr[bp := q];
    var down := p + size1[p] == bp;
    (if down then ptr1[p := ptr1[bp]] else ptr1[p := bp], if down then size1[p := size1[p] + size1[bp]] else size1)
  }

  lemma FreedFields(m: Mem, base: nat, x: nat, t: nat)
    requires Inv(m, base) && x < |m.live| && Stop(m, base, m.live[x], t)
    ensures var r := Relinked(m.ptr, m.size, m.free[t], m.live[x]);
      Freed(m, x, t).ptr == r.0 && Freed(m, x, t).size == r.1
  {
    var m1 := InsertAt(m, x, t);
    var n := |m.free|;
    var p, bp, q := m.free[t], m.live[x], m.free[NextOf(t, n)];
    InsertBounded(m, base, x, t);
    assert m1.free[t + 1] == bp && m1.free[t] == p && m.ptr[p] == q;
    if t + 1 < n { assert m1.free[t + 2] == q && Before(p, m.size[p], q); }
    FreedSteps(m1, t, m.ptr, p, bp, q);
  }

  // Two merges on the headers p, bp, q.
  lemma FreedSteps(m1: Mem, t: nat, ptr: seq<nat>, p: nat, bp: nat, q: nat)
    requires |ptr| == |m1.size| == |m1.ptr| && p < |ptr| && bp < |ptr| && q < |ptr| && ptr[p] == q && p != bp && bp != q
    requires t + 1 < |m1.free| && m1.free[t] == p && m1.free[t + 1] == bp && m1.ptr == ptr[bp := q][p := bp]
    requires t + 2 < |m1.free| ==> m1.free[t + 2] == q && p != q
    requires t + 2 == |m1.free| ==> q < bp
    ensures MergeIf(m1, t + 1).free[t] == p && |MergeIf(m1, t + 1).ptr| == |MergeIf(m1, t + 1).size| == |ptr|
    ensures t + 1 < |MergeIf(m1, t + 1).free| && MergeIf(m1, t + 1).free[t + 1] == bp
    ensures var r := Relinked(ptr, m1.size, p, bp);
      MergeIf(MergeIf(m1, t + 1), t).ptr == r.0 && MergeIf(MergeIf(m1, t + 1), t).size == r.1
  {
    var m2 := MergeIf(m1, t + 1);
    assert m2.free[t + 1] == bp && m2.free[t] == p;
  }

  // The freed block is now (part of) a free block at least as large.
  lemma FreedHasRoom(m: Mem, base: nat, x: nat, t: nat) returns (i: nat)
    requires Inv(m, base) && x < |m.live| && Stop(m, base, m.live[x], t)
    ensures var m' := Freed(m, x, t);
      i < |m'.free| && m'.free[i] < |m'.size| && m'.size[m'.free[i]] >= m.size[m.live[x]]
  {
    var m1 := InsertAt(m, x, t);
    InsertBounded(m, base, x, t);
    assert m1.free[t + 1] == m.live[x] && m1.free[t] == m.free[t];
    var m2 := MergeIf(m1, t + 1);
    assert m2.free[t + 1] == m.live[x] && m2.free[t] == m.free[t];
    i := if Touches(m2, t) then t else t + 1;
  }

  // malloc()'s lap: the nodes seen since `f` are too small.
  ghost predicate Seen(m: Mem, f: nat, c: nat, nunits: nat)
    requires forall i | 0 <= i < |m.free| :: m.free[i] < |m.size|
  {
    forall k | 0 <= k < |m.free| && Off(f, k, |m.free|) < c :: m.size[m.free[k]] < nunits
  }

  // free[i] is large enough, and the first such node behind the one at freep.
  ghost predicate FirstFit(m: Mem, freep: nat, i: nat, nunits: nat) {
    && (forall k | 0 <= k < |m.free| :: m.free[k] < |m.size|) && i < |m.free| && m.size[m.free[i]] >= nunits
    && exists f: nat :: f < |m.free| && m.free[f] == freep && Seen(m, f, Off(f, i, |m.free|), nunits)
  }

  lemma SeenNext(m: Mem, f: nat, i: nat, nunits: nat)
    requires forall k | 0 <= k < |m.free| :: m.free[k] < |m.size|
    requires f < |m.free| && i < |m.free| && i != f
    requires Seen(m, f, Off(f, i, |m.free|), nunits) && m.size[m.free[i]] < nunits
    ensures Seen(m, f, Off(f, i, |m.free|) + 1, nunits)
    ensures Off(f, NextOf(i, |m.free|), |m.free|) == Off(f, i, |m.free|) + 1
  {
  }

  lemma LapEnds(m: Mem, base: nat, f: nat, i: nat, nunits: nat)
    requires Inv(m, base) && f < |m.free| && i < |m.free| && m.free[i] == m.free[f]
    requires Seen(m, f, Off(f, i, |m.free|), nunits) && m.size[m.free[i]] < nunits
    ensures TooSmall(m, nunits)
  {
    if i != f { OthersDiffer(m, base, f, i); }
    forall k | 0 <= k < |m.free| ensures m.size[m.free[k]] < nunits {
      assert k != f ==> Off(f, k, |m.free|) < Off(f, f, |m.free|);
    }
  }

  // The allocations of m keep their sizes.
  ghost predicate HeadersKept(m: Mem, m': Mem) {
    forall x | 0 <= x < |m.live| ::
      m.live[x] < |m.size| && m.live[x] < |m'.size| && m'.size[m.live[x]] == m.size[m.live[x]]
  }

  // A new block of n units lies behind its header, at address r.
  ghost predicate Given(m: Mem, m': Mem, r: nat, n: nat) {
    r > 0 && m'.live == m.live + [r - 1] && r - 1 < |m'.size| && m'.size[r - 1] == n && HeadersKept(m, m')
  }

  lemma TookGives(m0: Mem, m: Mem, base: nat, i: nat, nunits: nat, r: nat)
    requires Inv(m, base) && 0 < i < |m.free| && 0 < nunits <= m.size[m.free[i]]
    requires r == m.free[i] + m.size[m.free[i]] - nunits + 1 && m0.live == m.live && HeadersKept(m0, m)
    ensures Given(m0, Took(m, i, nunits), r, nunits) && Units(Took(m, i, nunits)) == Units(m)
  {
    TookKeeps(m, base, i, nunits);
    TookOne(m, base, i, nunits, r - 1);
    assert forall x | 0 <= x < |m.live| :: m0.size[m.live[x]] == m.size[m.live[x]];
  }

  ghost predicate TooSmall(m: Mem, nunits: nat) {
    forall i | 0 <= i < |m.free| && m.free[i] < |m.size| :: m.size[m.free[i]] < nunits
  }

  // The list of a program that has not allocated yet: only `base`, empty.
  function Initial(ptr: seq<nat>, size: seq<nat>, base: nat, brk: nat): Mem
    requires base < |ptr| && base < |size|
  {
    Mem(ptr[base := base], size[base := 0], [base], [], brk)
  }

  lemma AboveBase(m: Mem, base: nat, i: nat)
    requires Inv(m, base) && i < |m.free|
    ensures m.free[i] >= base
  {
    if i > 0 { assert Before(m.free[0], m.size[m.free[0]], m.free[i]); }
  }

  // The arrays after taking a block, as the code changes them.
  lemma TookFields(m: Mem, base: nat, i: nat, nunits: nat, prevp: nat, p: nat)
    requires Inv(m, base) && 0 < i < |m.free| && 0 < nunits <= m.size[m.free[i]] && p == m.free[i]
    requires prevp == m.free[i - 1]
    ensures p + m.size[p] <= |m.ptr| && prevp < |m.ptr|
    ensures Took(m, i, nunits).ptr == if m.size[p] == nunits then m.ptr[prevp := m.ptr[p]] else m.ptr
    ensures Took(m, i, nunits).size ==
      if m.size[p] == nunits then m.size
      else m.size[p := m.size[p] - nunits][p + m.size[p] - nunits := nunits]
  {
  }

  lemma InitialUnits(ptr: seq<nat>, size: seq<nat>, base: nat, brk: nat)
    requires base < |ptr| && base < |size|
    ensures Units(Initial(ptr, size, base, brk)) == 0
  {
    assert [base][1..] == [];
  }

  class Heap {
    const base: nat
    const ptr: array<nat>
    const size: array<nat>
    var freep: nat
    ghost var free: seq<nat>
    ghost var live: seq<nat>
    ghost var brk: nat
    // All the units that sbrk() has granted so far.
    ghost var granted: nat

    ghost function View(): Mem
      reads this, ptr, size
    {
      Mem(ptr[..], size[..], free, live, brk)
    }

    // freep is null until the first malloc().
    ghost predicate Valid()
      reads this, ptr, size
    {
      && ptr != size && ptr.Length == size.Length && 0 < base < brk <= ptr.Length
      && if freep == 0 then free == [] && live == [] else freep in free && Inv(View(), base)
    }

    // No unit is lost or made up: free and live blocks are what sbrk() granted.
    ghost predicate Balanced()
      reads this, ptr, size
      requires Valid()
    {
      if freep == 0 then granted == 0 else Units(View()) == granted
    }

    constructor (data: nat, end: nat, room: nat)
      requires 0 < data < end <= room
      ensures Valid() && fresh(ptr) && fresh(size)
      ensures base == data && brk == end && ptr.Length == room && freep == 0 && Balanced()
    {
      base, brk, freep, free, live, granted := data, end, 0, [], [], 0;
      ptr := new nat[room];
      size := new nat[room];
    }

    // The block goes back to the list; nobody else's header changes.
    method Free(ap: nat, ghost x: nat) returns (ghost t: nat)
      requires Valid() && x < |live| && ap == live[x] + 1
      modifies this, ptr, size
      ensures Valid() && freep != 0 && Stop(old(View()), base, ap - 1, t)
      ensures View() == Freed(old(View()), x, t) && t < |free| && freep == free[t]
      ensures granted == old(granted) && (old(Balanced()) ==> Balanced())
    {
      ghost var m := View();
      var bp := ap - 1;
      var p;
      p, t := Locate(bp, x);
      ghost var m' := Freed(m, x, t);
      FreedFields(m, base, x, t);
      assert Inv(m', base) && Units(m') == Units(m) && m'.brk == m.brk && t < |m'.free| && m'.free[t] == p by {
        FreedKeeps(m, base, x, t);
      }
      AboveBase(m, base, t);
      Relink(p, bp);
      free, live := m'.free, m'.live;
      freep := p;
      assert View() == m';
    }

    // The search of free() from freep: at most one lap.
    method Locate(bp: nat, ghost x: nat) returns (p: nat, ghost t: nat)
      requires Valid() && x < |live| && bp == live[x]
      ensures Stop(View(), base, bp, t) && p == free[t] && p != bp
    {
      ghost var m := View();
      t := FindStop(m, bp, x);
      p := freep;
      ghost var i: nat :| i < |free| && free[i] == p;
      while !(bp > p && bp < ptr[p])
        invariant i < |m.free| && p == m.free[i]
        decreases if i <= t then t - i else t + |m.free| - i
      {
        StopTest(m, base, bp, t, i);
        if p >= ptr[p] && (bp > p || bp < ptr[p]) { break; }
        p, i := ptr[p], NextOf(i, |free|);
      }
      StopTest(m, base, bp, t, i);
    }

    ghost method FindStop(m: Mem, bp: nat, x: nat) returns (t: nat)
      requires Inv(m, base) && x < |m.live| && m.live[x] == bp
      ensures Stop(m, base, bp, t)
    {
      forall i | 0 <= i < |m.free| ensures m.free[i] != bp {
        assert Apart(m.live[x], m.size[m.live[x]], m.free[i], m.size[m.free[i]]);
      }
      t := StopExists(m, base, bp, |m.free| - 1);
    }

    // The four cases of joining bp to its neighbours p and p->s.ptr.
    method Relink(p: nat, bp: nat)
      requires ptr != size && ptr.Length == size.Length && p < ptr.Length && bp < ptr.Length && ptr[p] < ptr.Length
      requires p != bp
      modifies ptr, size
      ensures var r := Relinked(old(ptr[..]), old(size[..]), p, bp); ptr[..] == r.0 && size[..] == r.1
    {
      if bp + size[bp] == ptr[p] {
        size[bp] := size[bp] + size[ptr[p]];
        ptr[bp] := ptr[ptr[p]];
      } else {
        ptr[bp] := ptr[p];
      }
      if p + size[p] == bp {
        size[p] := size[p] + size[bp];
        ptr[p] := ptr[bp];
      } else {
        ptr[p] := bp;
      }
    }

    // At least 4096 units from sbrk() go through free() into the list.
    method Morecore(nunits: nat, sbrk: Option<nat>) returns (p: nat, ghost t: nat)
      requires Valid() && freep != 0 && nunits > 0
      requires sbrk.Some? ==> Obtained(brk, sbrk.value, Max(nunits, 4096), ptr.Length)
      modifies this, ptr, size
      ensures Valid() && (p == 0 <==> sbrk.None?) && granted == old(granted)
      ensures p == 0 ==> View() == old(View()) && freep == old(freep)
      ensures p != 0 ==> p == freep && var g := Grown(old(View()), sbrk.value, Max(nunits, 4096));
        Stop(g, base, sbrk.value, t) && View() == Freed(g, |old(live)|, t)
    {
      var nu := nunits;
      if nu < 4096 { nu := 4096; }
      if sbrk.None? { return 0, 0; }
      var hp := sbrk.value;
      ghost var m := View();
      ghost var g := Grown(m, hp, nu);
      assert Inv(g, base) by { GrownKeeps(m, base, hp, nu); }
      size[hp] := nu;
      live, brk := live + [hp], hp + nu;
      assert View() == g;
      t := Free(hp + 1, |live| - 1);
      p := freep;
    }

    // Take nunits out of *p, whose predecessor is *prevp.
    method Take(prevp: nat, p: nat, nunits: nat, ghost i: nat) returns (r: nat)
      requires Valid() && freep != 0 && 0 < i < |free| && p == free[i] && prevp == free[i - 1] && 0 < nunits <= size[p]
      modifies this, ptr, size
      ensures Valid() && freep == prevp && View() == Took(old(View()), i, nunits) && granted == old(granted)
      ensures r == old(p + size[p]) - nunits + 1
    {
      ghost var m := View();
      ghost var m' := Took(m, i, nunits);
      assert Inv(m', base) by { TookKeeps(m, base, i, nunits); }
      assert m'.brk == m.brk && i <= |m'.free| && m'.free[i - 1] == prevp by {
        TookOne(m, base, i, nunits, p + size[p] - nunits);
      }
      AboveBase(m, base, i - 1);
      TookFields(m, base, i, nunits, prevp, p);
      var h := Carve(prevp, p, nunits);
      free, live := m'.free, m'.live;
      assert View() == m';
      freep := prevp;
      r := h + 1;
    }

    // The whole block leaves the list, or its tail becomes a block of its own.
    method Carve(prevp: nat, p: nat, nunits: nat) returns (h: nat)
      requires ptr != size && ptr.Length == size.Length && prevp < ptr.Length && p < ptr.Length
      requires 0 < nunits <= size[p] && p + size[p] <= ptr.Length
      modifies ptr, size
      ensures h == p + old(size[p]) - nunits
      ensures ptr[..] == if old(size[p]) == nunits then old(ptr[..])[prevp := old(ptr[p])] else old(ptr[..])
      ensures size[..] ==
        if old(size[p]) == nunits then old(size[..])
        else old(size[..])[p := old(size[p]) - nunits][h := nunits]
    {
      h := p;
      if size[p] == nunits {
        ptr[prevp] := ptr[p];
      } else {
        size[p] := size[p] - nunits;
        h := p + size[p];
        size[h] := nunits;
      }
    }

    // One lap from freep: a block that fits, or none does.
    method Lap(nunits: nat) returns (prevp: nat, p: nat, fits: bool, ghost i: nat)
      requires Valid() && freep != 0 && nunits > 0
      ensures fits ==> 0 < i < |free| && p == free[i] && prevp == free[i - 1] && size[p] >= nunits
      ensures fits ==> FirstFit(View(), freep, i, nunits)
      ensures !fits ==> TooSmall(View(), nunits)
    {
      ghost var m, n := View(), |free|;
      ghost var f: nat :| f < |free| && free[f] == freep;
      ghost var c := 0;
      i := NextOf(f, n);
      prevp := freep;
      p := ptr[prevp];
      while true
        invariant i < n && c < n && p == m.free[i] && c == Off(f, i, n)
        invariant i > 0 ==> prevp == m.free[i - 1]
        invariant Seen(m, f, c, nunits)
        decreases n - c
      {
        if size[p] >= nunits { fits := true; return; }
        if p == freep {
          LapEnds(m, base, f, i, nunits);
          fits := false;
          return;
        }
        assert i != f;
        SeenNext(m, f, i, nunits);
        prevp, p := p, ptr[p];
        i, c := NextOf(i, n), c + 1;
      }
    }

    // The first call makes the one-node list.
    method Start()
      requires Valid()
      modifies this, ptr, size
      ensures Valid() && freep != 0 && granted == old(granted)
      ensures View() == if old(freep) == 0 then Initial(old(ptr[..]), old(size[..]), base, old(brk)) else old(View())
    {
      if freep == 0 {
        ptr[base], freep := base, base;
        size[base] := 0;
        free := [base];
        assert View() == Initial(old(ptr[..]), old(size[..]), base, old(brk));
      }
    }

    // The search of malloc(): sbrk() is asked at most once, and only when no block
    // fits; then the lap after morecore() finds one.
    method Find(nunits: nat, sbrk: Option<nat>) returns (prevp: nat, p: nat, ghost i: nat, ghost asked: bool)
      requires Valid() && freep != 0 && nunits > 0
      requires sbrk.Some? ==> Obtained(brk, sbrk.value, Max(nunits, 4096), ptr.Length)
      modifies this, ptr, size
      ensures Valid() && freep != 0 && (asked <==> TooSmall(old(View()), nunits))
      ensures p == 0 <==> asked && sbrk.None?
      ensures p == 0 ==> View() == old(View())
      ensures p != 0 ==> 0 < i < |free| && p == free[i] && prevp == free[i - 1] && size[p] >= nunits
      ensures p != 0 ==> FirstFit(View(), freep, i, nunits)
      ensures Units(View()) == Units(old(View())) + if asked && sbrk.Some? then Max(nunits, 4096) else 0
      ensures live == old(live) && HeadersKept(old(View()), View()) && granted == old(granted)
    {
      ghost var m := View();
      asked := false;
      var fits;
      prevp, p, fits, i := Lap(nunits);
      if !fits {
        asked := true;
        ghost var t;
        p, t := Morecore(nunits, sbrk);
        if p == 0 { return; }
        MoreEffect(m, View(), base, sbrk.value, Max(nunits, 4096), t, nunits);
        assert !TooSmall(View(), nunits);
        prevp, p, fits, i := Lap(nunits);
        assert fits;
      }
      AboveBase(View(), base, i);
    }

    // A new live block of exactly the units asked for, or nothing when no block
    // fits and sbrk() refuses.
    method Malloc(nbytes: nat, sbrk: Option<nat>) returns (r: nat, ghost asked: bool, ghost start: Mem)
      requires Valid() && nbytes < WORD
      requires sbrk.Some? ==> Obtained(brk, sbrk.value, Max(UnitsFor(nbytes), 4096), ptr.Length)
      modifies this, ptr, size
      ensures Valid() && freep != 0 && Inv(start, base)
      ensures start == if old(freep) == 0 then Initial(old(ptr[..]), old(size[..]), base, old(brk)) else old(View())
      ensures asked <==> TooSmall(start, UnitsFor(nbytes))
      ensures r == 0 <==> asked && sbrk.None?
      ensures r == 0 ==> View() == start
      ensures r != 0 ==> Given(start, View(), r, UnitsFor(nbytes))
      ensures Units(View()) == Units(start) + if asked && sbrk.Some? then Max(UnitsFor(nbytes), 4096) else 0
      ensures granted == old(granted) + (if asked && sbrk.Some? then Max(UnitsFor(nbytes), 4096) else 0)
      ensures old(Balanced()) ==> Balanced()
    {
      r, asked, start := Get(UnitsFor(nbytes), sbrk);
      if asked && sbrk.Some? { granted := granted + Max(UnitsFor(nbytes), 4096); }
    }

    // malloc() for a size in units.
    method Get(nunits: nat, sbrk: Option<nat>) returns (r: nat, ghost asked: bool, ghost start: Mem)
      requires Valid() && nunits > 0
      requires sbrk.Some? ==> Obtained(brk, sbrk.value, Max(nunits, 4096), ptr.Length)
      modifies this, ptr, size
      ensures Valid() && freep != 0 && Inv(start, base) && granted == old(granted)
      ensures start == if old(freep) == 0 then Initial(old(ptr[..]), old(size[..]), base, old(brk)) else old(View())
      ensures Units(start) == if old(freep) == 0 then 0 else old(Units(View()))
      ensures asked <==> TooSmall(start, nunits)
      ensures r == 0 <==> asked && sbrk.None?
      ensures r == 0 ==> View() == start
      ensures r != 0 ==> Given(start, View(), r, nunits)
      ensures Units(View()) == Units(start) + if asked && sbrk.Some? then Max(nunits, 4096) else 0
    {
      Start();
      InitialUnits(old(ptr[..]), old(size[..]), base, old(brk));
      start := View();
      var prevp, p;
      ghost var i;
      prevp, p, i, asked := Find(nunits, sbrk);
      if p == 0 { return 0, asked, start; }
      ghost var m := View();
      r := Take(prevp, p, nunits, i);
      TookGives(start, m, base, i, nunits, r);
    }
  }

  // After morecore() the same allocations are live, with their headers, and one
  // free block is large enough.
  lemma MoreEffect(m: Mem, m': Mem, base: nat, s: nat, nu: nat, t: nat, nunits: nat)
    requires Inv(m, base) && m.brk <= s && 0 < nunits <= nu && s + nu <= |m.ptr|
    requires Stop(Grown(m, s, nu), base, s, t) && m' == Freed(Grown(m, s, nu), |m.live|, t)
    ensures Units(m') == Units(m) + nu && m'.live == m.live && HeadersKept(m, m') && !TooSmall(m', nunits)
  {
    var g := Grown(m, s, nu);
    GrownKeeps(m, base, s, nu);
    FreedKeeps(g, base, |m.live|, t);
    assert Without(g.live, |m.live|) == m.live;
    forall x: nat | x < |m.live| ensures m'.size[m.live[x]] == m.size[m.live[x]] {
      FreedSizes(g, base, |m.live|, t, x);
    }
    var room := FreedHasRoom(g, base, |m.live|, t);
  }
}
