// umalloc.c: free, morecore and malloc on the headers in memory.

module UmallocHeap {
  import opened UmallocList

  // ---------------------------------------------------------------- free as a function

  // Link the x-th live block behind free[t], then merge upwards and downwards.
  function Freed(m: Mem, x: nat, t: nat): Mem
    requires x < |m.live| && t < |m.free| && |m.ptr| == |m.size|
    requires (forall i | 0 <= i < |m.free| :: m.free[i] < |m.ptr|) && m.live[x] < |m.ptr|
  {
    MergeIf(MergeIf(InsertAt(m, x, t), t + 1), t)
  }

  lemma InsertKeeps(m: Mem, base: nat, x: nat, t: nat)
    requires Inv(m, base) && x < |m.live| && Stop(m, base, m.live[x], t)
    ensures InvBut(InsertAt(m, x, t), base, {t, t + 1}) && Units(InsertAt(m, x, t)) == Units(m)
  {
    InsertBounded(m, base, x, t);
    InsertCircular(m, base, x, t);
    InsertSorted(m, base, x, t);
    InsertGaps(m, base, x, t);
    InsertApart(m, base, x, t);
    InsertUnits(m, base, x, t);
  }

  lemma MergeIfKeeps(m: Mem, base: nat, k: nat, except: set<int>)
    requires InvBut(m, base, except) && k < |m.free| && forall i | i in except :: i <= k
    ensures InvBut(MergeIf(m, k), base, except - {k}) && Units(MergeIf(m, k)) == Units(m)
  {
    if Touches(m, k) {
      MergeKeeps(m, base, k, except);
      forall y | 0 <= y < |m.live| ensures m.live[y] != m.free[k] {
        assert Apart(m.live[y], m.size[m.live[y]], m.free[k], m.size[m.free[k]]);
        assert Apart(m.live[y], m.size[m.live[y]], m.free[k + 1], m.size[m.free[k + 1]]);
      }
      MergeUnits(m, base, k);
    } else if k + 1 < |m.free| {
      assert Before(m.free[k], m.size[m.free[k]], m.free[k + 1]);
    }
  }

  // free() coalesces fully, loses no unit, and leaves the other allocations alone.
  lemma FreedKeeps(m: Mem, base: nat, x: nat, t: nat)
    requires Inv(m, base) && x < |m.live| && Stop(m, base, m.live[x], t)
    ensures Inv(Freed(m, x, t), base) && Units(Freed(m, x, t)) == Units(m)
    ensures Freed(m, x, t).live == Without(m.live, x) && Freed(m, x, t).brk == m.brk
    ensures t < |Freed(m, x, t).free| && Freed(m, x, t).free[t] == m.free[t]
  {
    var m1 := InsertAt(m, x, t);
    var m2 := MergeIf(m1, t + 1);
    InsertKeeps(m, base, x, t);
    MergeIfKeeps(m1, base, t + 1, {t, t + 1});
    assert {t, t + 1} - {t + 1} == {t};
    MergeIfKeeps(m2, base, t, {t});
    assert {t} - {t} == {};
  }

  // A merge changes no header of a live allocation.
  lemma FreedSizes(m: Mem, base: nat, x: nat, t: nat, y: nat)
    requires Inv(m, base) && x < |m.live| && Stop(m, base, m.live[x], t) && y < |m.live| && y != x
    ensures |Freed(m, x, t).size| == |m.size| && Freed(m, x, t).size[m.live[y]] == m.size[m.live[y]]
  {
    assert Apart(m.live[y], m.size[m.live[y]], m.free[t], m.size[m.free[t]]);
    if y < x { assert Apart(m.live[y], m.size[m.live[y]], m.live[x], m.size[m.live[x]]); }
    else { assert Apart(m.live[x], m.size[m.live[x]], m.live[y], m.size[m.live[y]]); }
    var m1 := InsertAt(m, x, t);
    assert m1.free[t + 1] == m.live[x] && m1.free[t] == m.free[t];
  }

  // There is exactly one place for a block, and the test of free()'s loop finds it.
  lemma {:induction false} StopExists(m: Mem, base: nat, bp: nat, t: nat) returns (s: nat)
    requires Bounded(m, base) && Sorted(m, base) && t < |m.free| && m.free[0] == base < bp
    requires t + 1 < |m.free| ==> bp < m.free[t + 1]
    requires forall i | 0 <= i < |m.free| :: m.free[i] != bp
    ensures Stop(m, base, bp, s)
  {
    if m.free[t] < bp { s := t; } else { s := StopExists(m, base, bp, t - 1); }
  }

  lemma StopTest(m: Mem, base: nat, bp: nat, t: nat, i: nat)
    requires Bounded(m, base) && Circular(m, base) && Sorted(m, base) && base < bp && Stop(m, base, bp, t)
    requires i < |m.free|
    ensures var p, q := m.free[i], m.ptr[m.free[i]];
      ((bp > p && bp < q) || (p >= q && (bp > p || bp < q))) <==> i == t
  {
    assert m.ptr[m.free[i]] == m.free[NextOf(i, |m.free|)];
    if i + 1 < |m.free| { assert Before(m.free[i], m.size[m.free[i]], m.free[i + 1]); }
    if 0 < i { assert Before(m.free[0], m.size[m.free[0]], m.free[i]); }
    if i < t {
      assert Before(m.free[i], m.size[m.free[i]], m.free[t]);
      if i + 1 < t { assert Before(m.free[i + 1], m.size[m.free[i + 1]], m.free[t]); }
    }
    if t < i {
      assert Before(m.free[t], m.size[m.free[t]], m.free[i]);
      if t + 1 < i { assert Before(m.free[t + 1], m.size[m.free[t + 1]], m.free[i]); }
    }
  }

  // ---------------------------------------------------------------- malloc as functions

  // Exact fit: unlink free[i].
  function Unlinked(m: Mem, i: nat): Mem
    requires 0 < i < |m.free| && m.free[i] < |m.ptr| && m.free[i - 1] < |m.ptr|
  {
    Mem(m.ptr[m.free[i - 1] := m.ptr[m.free[i]]], m.size, Without(m.free, i), m.live + [m.free[i]], m.brk)
  }

  // Otherwise: cut the tail off free[i].
  function Cut(m: Mem, i: nat, nunits: nat): Mem
    requires i < |m.free| && m.free[i] < |m.size| && nunits < m.size[m.free[i]]
    requires m.free[i] + m.size[m.free[i]] <= |m.size| && nunits > 0
  {
    var p := m.free[i];
    var left := m.size[p] - nunits;
    Mem(m.ptr, m.size[p := left][p + left := nunits], m.free, m.live + [p + left], m.brk)
  }

  lemma UnlinkedCircular(m: Mem, base: nat, i: nat)
    requires Inv(m, base) && 0 < i < |m.free| && Bounded(Unlinked(m, i), base)
    ensures Circular(Unlinked(m, i), base)
  {
    var m' := Unlinked(m, i);
    var n := |m.free|;
    forall q | 0 <= q < n - 1 ensures m'.ptr[m'.free[q]] == m'.free[NextOf(q, n - 1)] {
      var q0 := if q < i then q else q + 1;
      assert m'.free[q] == m.free[q0];
      if q0 != i - 1 { OthersDiffer(m, base, i - 1, q0); }
      var s := if q == i - 1 then i else q0;
      assert m.ptr[m.free[s]] == m.free[NextOf(s, n)];
      assert m'.free[NextOf(q, n - 1)] == m.free[NextOf(s, n)];
    }
  }

  lemma UnlinkedSorted(m: Mem, base: nat, i: nat)
    requires Inv(m, base) && 0 < i < |m.free| && Bounded(Unlinked(m, i), base)
    ensures Sorted(Unlinked(m, i), base)
  {
    var m' := Unlinked(m, i);
    forall a, b | 0 <= a < b < |m'.free| ensures Before(m'.free[a], m'.size[m'.free[a]], m'.free[b]) {
      var a0, b0 := if a < i then a else a + 1, if b < i then b else b + 1;
      assert Before(m.free[a0], m.size[m.free[a0]], m.free[b0]);
    }
  }

  lemma UnlinkedGaps(m: Mem, base: nat, i: nat)
    requires Bounded(m, base) && Sorted(m, base) && Gaps(m, base, {}) && 0 < i < |m.free|
    requires Bounded(Unlinked(m, i), base)
    ensures Gaps(Unlinked(m, i), base, {})
  {
    var m' := Unlinked(m, i);
    forall a | 0 <= a < |m'.free| - 1 ensures Gap(m', a) {
      var a0 := if a < i then a else a + 1;
      assert m'.free[a] == m.free[a0];
      assert Gap(m, a0);
      if a == i - 1 { assert Before(m.free[i], m.size[m.free[i]], m.free[i + 1]); }
    }
  }

  lemma UnlinkedApart(m: Mem, base: nat, i: nat)
    requires Inv(m, base) && 0 < i < |m.free| && Bounded(Unlinked(m, i), base) && m.size[m.free[i]] > 0
    ensures LiveApart(Unlinked(m, i), base)
  {
    var m' := Unlinked(m, i);
    forall x, y | 0 <= x < y < |m'.live|
      ensures Apart(m'.live[x], m'.size[m'.live[x]], m'.live[y], m'.size[m'.live[y]])
    {
      if y < |m.live| { assert Apart(m.live[x], m.size[m.live[x]], m.live[y], m.size[m.live[y]]); }
      else { assert Apart(m.live[x], m.size[m.live[x]], m.free[i], m.size[m.free[i]]); }
    }
    forall x, q | 0 <= x < |m'.live| && 0 <= q < |m'.free|
      ensures Apart(m'.live[x], m'.size[m'.live[x]], m'.free[q], m'.size[m'.free[q]])
    {
      var q0 := if q < i then q else q + 1;
      if x < |m.live| { assert Apart(m.live[x], m.size[m.live[x]], m.free[q0], m.size[m.free[q0]]); }
      else if q0 < i { assert Before(m.free[q0], m.size[m.free[q0]], m.free[i]); }
      else { assert Before(m.free[i], m.size[m.free[i]], m.free[q0]); }
    }
  }

  lemma UnlinkedUnits(m: Mem, base: nat, i: nat)
    requires Bounded(m, base) && 0 < i < |m.free| && Bounded(Unlinked(m, i), base)
    ensures Units(Unlinked(m, i)) == Units(m)
  {
    SumWithout(m.free, i, m.size);
    SumConcat(m.live, [m.free[i]], m.size);
    SumOne(m.free[i], m.size);
  }

  lemma UnlinkedKeeps(m: Mem, base: nat, i: nat)
    requires Inv(m, base) && 0 < i < |m.free| && m.size[m.free[i]] > 0
    ensures Inv(Unlinked(m, i), base) && Units(Unlinked(m, i)) == Units(m)
  {
    assert Before(m.free[0], m.size[m.free[0]], m.free[i]);
    assert Bounded(Unlinked(m, i), base);
    UnlinkedCircular(m, base, i);
    UnlinkedSorted(m, base, i);
    UnlinkedGaps(m, base, i);
    UnlinkedApart(m, base, i);
    UnlinkedUnits(m, base, i);
  }

  // The new header lies inside free[i], so it is nobody else's.
  lemma CutFresh(m: Mem, base: nat, i: nat, nunits: nat)
    requires Inv(m, base) && i < |m.free| && 0 < nunits < m.size[m.free[i]]
    ensures var q := m.free[i] + m.size[m.free[i]] - nunits;
      && (forall j | 0 <= j < |m.free| :: m.free[j] != q)
      && (forall x | 0 <= x < |m.live| :: m.live[x] != q && m.live[x] != m.free[i])
  {
    var p := m.free[i];
    var q := p + m.size[p] - nunits;
    forall j | 0 <= j < |m.free| ensures m.free[j] != q {
      if j < i { assert Before(m.free[j], m.size[m.free[j]], p); }
      if i < j { assert Before(p, m.size[p], m.free[j]); }
    }
    forall x | 0 <= x < |m.live| ensures m.live[x] != q && m.live[x] != p {
      assert Apart(m.live[x], m.size[m.live[x]], p, m.size[p]);
    }
  }

  lemma CutSorted(m: Mem, base: nat, i: nat, nunits: nat)
    requires Inv(m, base) && i < |m.free| && 0 < nunits < m.size[m.free[i]] && Bounded(Cut(m, i, nunits), base)
    ensures Circular(Cut(m, i, nunits), base) && Sorted(Cut(m, i, nunits), base) && Gaps(Cut(m, i, nunits), base, {})
  {
    var m' := Cut(m, i, nunits);
    CutFresh(m, base, i, nunits);
    forall j: nat | j < |m.free| && j != i ensures m.free[j] != m.free[i] { OthersDiffer(m, base, i, j); }
    assert forall j | 0 <= j < |m.free| ::
        m'.size[m.free[j]] == if j == i then m.size[m.free[i]] - nunits else m.size[m.free[j]];
    forall a, b | 0 <= a < b < |m.free| ensures Before(m.free[a], m'.size[m.free[a]], m.free[b]) {
      assert Before(m.free[a], m.size[m.free[a]], m.free[b]);
    }
    forall a | 0 <= a < |m.free| - 1 ensures Gap(m', a) { assert Gap(m, a); }
  }

  lemma CutApart(m: Mem, base: nat, i: nat, nunits: nat)
    requires Inv(m, base) && i < |m.free| && 0 < nunits < m.size[m.free[i]] && Bounded(Cut(m, i, nunits), base)
    ensures LiveApart(Cut(m, i, nunits), base)
  {
    var m' := Cut(m, i, nunits);
    CutFresh(m, base, i, nunits);
    var p := m.free[i];
    var q := p + m.size[p] - nunits;
    forall j: nat | j < |m.free| && j != i ensures m.free[j] != p { OthersDiffer(m, base, i, j); }
    forall x, y | 0 <= x < y < |m'.live|
      ensures Apart(m'.live[x], m'.size[m'.live[x]], m'.live[y], m'.size[m'.live[y]])
    {
      if y < |m.live| { assert Apart(m.live[x], m.size[m.live[x]], m.live[y], m.size[m.live[y]]); }
      else { assert Apart(m.live[x], m.size[m.live[x]], p, m.size[p]); }
    }
    forall x, j | 0 <= x < |m'.live| && 0 <= j < |m'.free|
      ensures Apart(m'.live[x], m'.size[m'.live[x]], m'.free[j], m'.size[m'.free[j]])
    {
      if x < |m.live| { assert Apart(m.live[x], m.size[m.live[x]], m.free[j], m.size[m.free[j]]); }
      else if j < i { assert Before(m.free[j], m.size[m.free[j]], p); }
      else if i < j { assert Before(p, m.size[p], m.free[j]); }
    }
  }

  // Only the two headers a and q change, and only a is in the list.
  lemma CutFreeSum(free: seq<nat>, size: seq<nat>, i: nat, q: nat, left: nat, nunits: nat)
    requires i < |free| && q < |size|
    requires forall j | 0 <= j < |free| :: free[j] < |size| && free[j] != q && (j != i ==> free[j] != free[i])
    requires size[free[i]] == left + nunits
    ensures Sum(free, size[free[i] := left][q := nunits]) + nunits == Sum(free, size)
  {
    var a, lo, hi, size' := free[i], free[..i], free[i + 1..], size[free[i] := left][q := nunits];
    assert free == lo + ([a] + hi);
    SumConcat(lo, [a] + hi, size);
    SumConcat([a], hi, size);
    SumConcat(lo, [a] + hi, size');
    SumConcat([a], hi, size');
    assert forall j | 0 <= j < |hi| :: hi[j] == free[j + i + 1];
    SumSame(lo, size, size');
    SumSame(hi, size, size');
    SumOne(a, size);
    SumOne(a, size');
  }

  lemma CutUnits(m: Mem, base: nat, i: nat, nunits: nat)
    requires Inv(m, base) && i < |m.free| && 0 < nunits < m.size[m.free[i]] && Bounded(Cut(m, i, nunits), base)
    ensures Units(Cut(m, i, nunits)) == Units(m)
  {
    var size' := Cut(m, i, nunits).size;
    CutFresh(m, base, i, nunits);
    var q := m.free[i] + m.size[m.free[i]] - nunits;
    forall j: nat | j < |m.free| && j != i ensures m.free[j] != m.free[i] { OthersDiffer(m, base, i, j); }
    CutFreeSum(m.free, m.size, i, q, m.size[m.free[i]] - nunits, nunits);
    SumConcat(m.live, [q], size');
    SumSame(m.live, m.size, size');
    SumOne(q, size');
  }

  lemma CutKeeps(m: Mem, base: nat, i: nat, nunits: nat)
    requires Inv(m, base) && i < |m.free| && 0 < nunits < m.size[m.free[i]]
    ensures Inv(Cut(m, i, nunits), base) && Units(Cut(m, i, nunits)) == Units(m)
  {
    if 0 < i { assert Before(m.free[0], m.size[m.free[0]], m.free[i]); }
    assert Bounded(Cut(m, i, nunits), base);
    CutSorted(m, base, i, nunits);
    CutApart(m, base, i, nunits);
    CutUnits(m, base, i, nunits);
  }

  // What malloc() makes of a block that is large enough.
  function Took(m: Mem, i: nat, nunits: nat): Mem
    requires 0 < i < |m.free| && m.free[i] < |m.ptr| && m.free[i - 1] < |m.ptr| && m.free[i] < |m.size|
    requires m.free[i] + m.size[m.free[i]] <= |m.size| && 0 < nunits <= m.size[m.free[i]]
  {
    if m.size[m.free[i]] == nunits then Unlinked(m, i) else Cut(m, i, nunits)
  }

  lemma TookKeeps(m: Mem, base: nat, i: nat, nunits: nat)
    requires Inv(m, base) && 0 < i < |m.free| && 0 < nunits <= m.size[m.free[i]]
    ensures Inv(Took(m, i, nunits), base) && Units(Took(m, i, nunits)) == Units(m)
  {
    if m.size[m.free[i]] == nunits { UnlinkedKeeps(m, base, i); } else { CutKeeps(m, base, i, nunits); }
  }

  // One new live block of exactly nunits; the others keep their headers.
  lemma TookOne(m: Mem, base: nat, i: nat, nunits: nat, h: nat)
    requires Inv(m, base) && 0 < i < |m.free| && 0 < nunits <= m.size[m.free[i]]
    requires h == m.free[i] + m.size[m.free[i]] - nunits
    ensures var m' := Took(m, i, nunits);
      && m'.live == m.live + [h] && m'.size[h] == nunits && |m'.size| == |m.size| && m'.brk == m.brk
      && (forall x | 0 <= x < |m.live| :: m'.size[m.live[x]] == m.size[m.live[x]])
      && i <= |m'.free| && m'.free[i - 1] == m.free[i - 1]
  {
    if m.size[m.free[i]] != nunits { CutFresh(m, base, i, nunits); }
  }

  // ---------------------------------------------------------------- morecore as a function

  // nu units at s, above everything handed out so far, as a live block.
  function Grown(m: Mem, s: nat, nu: nat): Mem
    requires s < |m.size|
  {
    Mem(m.ptr, m.size[s := nu], m.free, m.live + [s], s + nu)
  }

  lemma GrownKeeps(m: Mem, base: nat, s: nat, nu: nat)
    requires Inv(m, base) && m.brk <= s && nu > 0 && s + nu <= |m.ptr|
    ensures Inv(Grown(m, s, nu), base) && Units(Grown(m, s, nu)) == Units(m) + nu
  {
    var m' := Grown(m, s, nu);
    assert Bounded(m', base);
    forall i | 0 <= i < |m.free| - 1 ensures Gap(m', i) { assert Gap(m, i); }
    assert Sorted(m', base) by {
      forall i, j | 0 <= i < j < |m.free| ensures Before(m.free[i], m'.size[m.free[i]], m.free[j]) {
        assert Before(m.free[i], m.size[m.free[i]], m.free[j]);
      }
    }
    forall x, y | 0 <= x < y < |m'.live|
      ensures Apart(m'.live[x], m'.size[m'.live[x]], m'.live[y], m'.size[m'.live[y]])
    {
      if y < |m.live| { assert Apart(m.live[x], m.size[m.live[x]], m.live[y], m.size[m.live[y]]); }
    }
    forall x, i | 0 <= x < |m'.live| && 0 <= i < |m.free|
      ensures Apart(m'.live[x], m'.size[m'.live[x]], m.free[i], m'.size[m.free[i]])
    {
      if x < |m.live| { assert Apart(m.live[x], m.size[m.live[x]], m.free[i], m.size[m.free[i]]); }
    }
    GrownUnits(m, base, s, nu);
  }

  lemma GrownUnits(m: Mem, base: nat, s: nat, nu: nat)
    requires Bounded(m, base) && m.brk <= s && nu > 0 && s + nu <= |m.ptr| && Bounded(Grown(m, s, nu), base)
    ensures Units(Grown(m, s, nu)) == Units(m) + nu
  {
    var size' := m.size[s := nu];
    SumSame(m.free, m.size, size');
    SumSame(m.live, m.size, size');
    SumConcat(m.live, [s], size');
    SumOne(s, size');
  }

  // ---------------------------------------------------------------- which addresses are free

  ghost predicate FreeAddr(m: Mem, a: nat) {
    exists i :: 0 <= i < |m.free| && m.free[i] < |m.size| && m.free[i] <= a < m.free[i] + m.size[m.free[i]]
  }

  lemma InsertCovers(m: Mem, base: nat, x: nat, t: nat, a: nat)
    requires Bounded(m, base) && x < |m.live| && t < |m.free|
    ensures FreeAddr(InsertAt(m, x, t), a) <==> FreeAddr(m, a) || m.live[x] <= a < m.live[x] + m.size[m.live[x]]
  {
    var m' := InsertAt(m, x, t);
    if FreeAddr(m, a) {
      var i: nat :| i < |m.free| && m.free[i] <= a < m.free[i] + m.size[m.free[i]];
      assert m'.free[if i <= t then i else i + 1] == m.free[i];
    }
    if FreeAddr(m', a) {
      var i: nat :| i < |m'.free| && m'.free[i] <= a < m'.free[i] + m.size[m'.free[i]];
      assert i != t + 1 ==> m'.free[i] == m.free[if i <= t then i else i - 1];
    }
    assert m'.free[t + 1] == m.live[x];
  }

  lemma MergeKeepsFree(m: Mem, base: nat, k: nat, a: nat)
    requires Bounded(m, base) && Sorted(m, base) && k < |m.free| && Touches(m, k) && FreeAddr(m, a)
    ensures FreeAddr(MergeAt(m, k), a)
  {
    var m' := MergeAt(m, k);
    var i: nat :| i < |m.free| && m.free[i] <= a < m.free[i] + m.size[m.free[i]];
    if i != k { OthersDiffer(m, base, k, i); }
    if i == k + 1 { assert m'.free[k] == m.free[k]; }
    else { assert m'.free[if i <= k then i else i - 1] == m.free[i]; }
  }

  lemma MergeAddsNone(m: Mem, base: nat, k: nat, a: nat)
    requires Bounded(m, base) && Sorted(m, base) && k < |m.free| && Touches(m, k) && FreeAddr(MergeAt(m, k), a)
    ensures FreeAddr(m, a)
  {
    var m' := MergeAt(m, k);
    var i: nat :| i < |m'.free| && m'.free[i] <= a < m'.free[i] + m'.size[m'.free[i]];
    var i0 := if i <= k then i else i + 1;
    assert m'.free[i] == m.free[i0];
    if i == k {
      assert m.free[k] <= a < m.free[k] + m.size[m.free[k]]
          || m.free[k + 1] <= a < m.free[k + 1] + m.size[m.free[k + 1]];
    } else {
      OthersDiffer(m, base, k, i0);
    }
  }

  lemma MergeCovers(m: Mem, base: nat, k: nat, a: nat)
    requires Bounded(m, base) && Sorted(m, base) && k < |m.free|
    ensures FreeAddr(MergeIf(m, k), a) <==> FreeAddr(m, a)
  {
    if Touches(m, k) {
      if FreeAddr(m, a) { MergeKeepsFree(m, base, k, a); }
      if FreeAddr(MergeAt(m, k), a) { MergeAddsNone(m, base, k, a); }
    }
  }

  // free() makes exactly the block's own addresses free again.
  lemma FreedCovers(m: Mem, base: nat, x: nat, t: nat, a: nat)
    requires Inv(m, base) && x < |m.live| && Stop(m, base, m.live[x], t)
    ensures FreeAddr(Freed(m, x, t), a) <==> FreeAddr(m, a) || m.live[x] <= a < m.live[x] + m.size[m.live[x]]
  {
    var m1 := InsertAt(m, x, t);
    InsertCovers(m, base, x, t, a);
    InsertKeeps(m, base, x, t);
    MergeCovers(m1, base, t + 1, a);
    MergeIfKeeps(m1, base, t + 1, {t, t + 1});
    MergeCovers(MergeIf(m1, t + 1), base, t, a);
  }
}
