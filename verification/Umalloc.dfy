// The storage allocator of user programs: one circular free list in address
// order, addresses counted in header-sized units.

module UmallocList {

  // s.ptr and s.size of the headers in memory; the list itself and the live
  // allocations are what these headers mean.
  datatype Mem = Mem(ptr: seq<nat>, size: seq<nat>, free: seq<nat>, live: seq<nat>, brk: nat)

  function NextOf(i: nat, n: nat): nat {
    if i + 1 == n then 0 else i + 1
  }

  // s without its i-th element, and s with x as its i-th element.
  function Without(s: seq<nat>, i: nat): (r: seq<nat>)
    requires i < |s|
  {
    seq(|s| - 1, j requires 0 <= j < |s| - 1 => if j < i then s[j] else s[j + 1])
  }

  function With(s: seq<nat>, i: nat, x: nat): (r: seq<nat>)
    requires i <= |s|
  {
    seq(|s| + 1, j requires 0 <= j < |s| + 1 => if j < i then s[j] else if j == i then x else s[j - 1])
  }

  // Block a of n units ends before b.
  predicate Before(a: nat, n: nat, b: nat) {
    a < b && a + n <= b
  }

  ghost predicate Bounded(m: Mem, base: nat) {
    && |m.ptr| == |m.size| && base < m.brk <= |m.ptr|
    && (forall i | 0 <= i < |m.free| :: m.free[i] < m.brk)
    && (forall x | 0 <= x < |m.live| :: base < m.live[x] < m.brk)
  }

  // One circular list in address order that starts at `base` and wraps once.
  ghost predicate Circular(m: Mem, base: nat)
    requires Bounded(m, base)
  {
    && |m.free| > 0 && m.free[0] == base
    && (forall i {:trigger m.ptr[m.free[i]]} | 0 <= i < |m.free| :: m.ptr[m.free[i]] == m.free[NextOf(i, |m.free|)])
  }

  // Free blocks are disjoint, and only `base` is empty.
  ghost predicate Sorted(m: Mem, base: nat)
    requires Bounded(m, base)
  {
    && (forall i, j {:trigger Before(m.free[i], m.size[m.free[i]], m.free[j])} | 0 <= i < j < |m.free| ::
          Before(m.free[i], m.size[m.free[i]], m.free[j]))
    && (forall i | 0 <= i < |m.free| :: m.free[i] + m.size[m.free[i]] <= m.brk)
    && (forall i | 0 <= i < |m.free| :: m.size[m.free[i]] == 0 <==> m.free[i] == base)
  }

  predicate Gap(m: Mem, i: int) {
    0 <= i < |m.free| - 1 && m.free[i] < |m.size| && m.free[i] + m.size[m.free[i]] < m.free[i + 1]
  }

  // No free block touches its successor, except perhaps at the listed places.
  ghost predicate Gaps(m: Mem, base: nat, except: set<int>)
    requires Bounded(m, base)
  {
    forall i {:trigger Gap(m, i)} | 0 <= i < |m.free| - 1 && i !in except :: Gap(m, i)
  }

  predicate Apart(a: nat, n: nat, b: nat, k: nat) {
    a + n <= b || b + k <= a
  }

  // Live allocations overlap neither each other nor free memory.
  ghost predicate LiveApart(m: Mem, base: nat)
    requires Bounded(m, base)
  {
    && (forall x | 0 <= x < |m.live| :: m.size[m.live[x]] > 0 && m.live[x] + m.size[m.live[x]] <= m.brk)
    && (forall x, y {:trigger Apart(m.live[x], m.size[m.live[x]], m.live[y], m.size[m.live[y]])} |
          0 <= x < y < |m.live| ::
          Apart(m.live[x], m.size[m.live[x]], m.live[y], m.size[m.live[y]]))
    && (forall x, i {:trigger Apart(m.live[x], m.size[m.live[x]], m.free[i], m.size[m.free[i]])} |
          0 <= x < |m.live| && 0 <= i < |m.free| ::
          Apart(m.live[x], m.size[m.live[x]], m.free[i], m.size[m.free[i]]))
  }

  ghost predicate InvBut(m: Mem, base: nat, except: set<int>) {
    Bounded(m, base) && Circular(m, base) && Sorted(m, base) && Gaps(m, base, except) && LiveApart(m, base)
  }

  // Between calls the list is fully coalesced.
  ghost predicate Inv(m: Mem, base: nat) {
    InvBut(m, base, {})
  }

  function Sum(a: seq<nat>, size: seq<nat>): nat
    requires forall i | 0 <= i < |a| :: a[i] < |size|
  {
    if a == [] then 0 else size[a[0]] + Sum(a[1..], size)
  }

  // All units in free blocks and live allocations.
  function Units(m: Mem): nat
    requires forall i | 0 <= i < |m.free| :: m.free[i] < |m.size|
    requires forall i | 0 <= i < |m.live| :: m.live[i] < |m.size|
  {
    Sum(m.free, m.size) + Sum(m.live, m.size)
  }

  lemma {:induction false} SumConcat(a: seq<nat>, b: seq<nat>, size: seq<nat>)
    requires forall i | 0 <= i < |a| :: a[i] < |size|
    requires forall i | 0 <= i < |b| :: b[i] < |size|
    ensures forall i | 0 <= i < |a + b| :: (a + b)[i] < |size|
    ensures Sum(a + b, size) == Sum(a, size) + Sum(b, size)
  {
    if a == [] {
      assert a + b == b;
    } else {
      assert (a + b)[1..] == a[1..] + b;
      SumConcat(a[1..], b, size);
    }
  }

  lemma {:induction false} SumSame(a: seq<nat>, size: seq<nat>, size': seq<nat>)
    requires |size'| == |size| && forall i | 0 <= i < |a| :: a[i] < |size| && size'[a[i]] == size[a[i]]
    ensures Sum(a, size') == Sum(a, size)
  {
    if a != [] { SumSame(a[1..], size, size'); }
  }

  lemma {:induction false} SumWith(a: seq<nat>, i: nat, x: nat, size: seq<nat>)
    requires i <= |a| && x < |size| && forall j | 0 <= j < |a| :: a[j] < |size|
    ensures Sum(With(a, i, x), size) == Sum(a, size) + size[x]
  {
    if i == 0 {
      assert With(a, i, x)[1..] == a;
    } else {
      assert With(a, i, x)[1..] == With(a[1..], i - 1, x);
      SumWith(a[1..], i - 1, x, size);
    }
  }

  lemma {:induction false} SumWithout(a: seq<nat>, i: nat, size: seq<nat>)
    requires i < |a| && forall j | 0 <= j < |a| :: a[j] < |size|
    ensures Sum(Without(a, i), size) + size[a[i]] == Sum(a, size)
  {
    if i == 0 {
      assert Without(a, i) == a[1..];
    } else {
      assert Without(a, i)[1..] == Without(a[1..], i - 1);
      SumWithout(a[1..], i - 1, size);
    }
  }

  // One block of the list grows by d units.
  lemma {:induction false} SumRaised(a: seq<nat>, k: nat, size: seq<nat>, d: nat)
    requires k < |a| && forall j | 0 <= j < |a| :: a[j] < |size| && (j != k ==> a[j] != a[k])
    ensures Sum(a, size[a[k] := size[a[k]] + d]) == Sum(a, size) + d
  {
    if k == 0 {
      SumSame(a[1..], size, size[a[k] := size[a[k]] + d]);
    } else {
      SumRaised(a[1..], k - 1, size, d);
    }
  }

  lemma SumOne(a: nat, size: seq<nat>)
    requires a < |size|
    ensures Sum([a], size) == size[a]
  {
    assert [a][1..] == [];
  }

  // ---------------------------------------------------------------- free()

  // p = free[t] is the node free() stops at for block bp.
  ghost predicate Stop(m: Mem, base: nat, bp: nat, t: nat)
    requires Bounded(m, base)
  {
    t < |m.free| && m.free[t] < bp && (t + 1 < |m.free| ==> bp < m.free[t + 1])
  }

  // The x-th live block is linked in behind free[t].
  function InsertAt(m: Mem, x: nat, t: nat): Mem
    requires x < |m.live| && t < |m.free| && m.live[x] < |m.ptr| && m.free[t] < |m.ptr|
  {
    var bp := m.live[x];
    var after := m.free[NextOf(t, |m.free|)];
    Mem(m.ptr[bp := after][m.free[t] := bp], m.size,
        With(m.free, t + 1, bp), Without(m.live, x), m.brk)
  }

  predicate Touches(m: Mem, k: nat)
    requires k < |m.free| && m.free[k] < |m.size|
  {
    k + 1 < |m.free| && m.free[k] + m.size[m.free[k]] == m.free[k + 1]
  }

  // free[k] swallows its successor in the list.
  function MergeAt(m: Mem, k: nat): Mem
    requires k + 1 < |m.free| && |m.ptr| == |m.size| && m.free[k] < |m.ptr| && m.free[k + 1] < |m.ptr|
  {
    var a, b := m.free[k], m.free[k + 1];
    Mem(m.ptr[a := m.ptr[b]], m.size[a := m.size[a] + m.size[b]], Without(m.free, k + 1), m.live, m.brk)
  }

  function MergeIf(m: Mem, k: nat): Mem
    requires k < |m.free| && |m.ptr| == |m.size| && m.free[k] < |m.ptr|
    requires k + 1 < |m.free| ==> m.free[k + 1] < |m.ptr|
  {
    if Touches(m, k) then MergeAt(m, k) else m
  }

  lemma InsertBounded(m: Mem, base: nat, x: nat, t: nat)
    requires Inv(m, base) && x < |m.live| && Stop(m, base, m.live[x], t)
    ensures Bounded(InsertAt(m, x, t), base)
    ensures forall i | 0 <= i < |m.free| :: m.free[i] != m.live[x]
  {
    forall i | 0 <= i < |m.free| ensures m.free[i] != m.live[x] {
      assert Apart(m.live[x], m.size[m.live[x]], m.free[i], m.size[m.free[i]]);
    }
  }

  lemma InsertCircular(m: Mem, base: nat, x: nat, t: nat)
    requires Inv(m, base) && x < |m.live| && Stop(m, base, m.live[x], t) && Bounded(InsertAt(m, x, t), base)
    requires forall i | 0 <= i < |m.free| :: m.free[i] != m.live[x]
    ensures Circular(InsertAt(m, x, t), base)
  {
    var m' := InsertAt(m, x, t);
    var n := |m.free|;
    forall i | 0 <= i < |m'.free| ensures m'.ptr[m'.free[i]] == m'.free[NextOf(i, |m'.free|)] {
      if i < t {
        assert Before(m.free[i], m.size[m.free[i]], m.free[t]);
        assert m'.free[i] == m.free[i] && m'.free[i + 1] == m.free[i + 1];
      } else if i > t + 1 {
        assert Before(m.free[t], m.size[m.free[t]], m.free[i - 1]);
        assert m'.free[i] == m.free[i - 1];
        assert m'.free[NextOf(i, n + 1)] == m.free[NextOf(i - 1, n)];
      } else {
        assert m'.free[t] == m.free[t] && m'.free[t + 1] == m.live[x];
        assert m'.free[NextOf(t + 1, n + 1)] == m.free[NextOf(t, n)];
      }
    }
  }

  lemma InsertSides(m: Mem, base: nat, x: nat, t: nat, i: nat)
    requires Inv(m, base) && x < |m.live| && Stop(m, base, m.live[x], t) && i < |m.free|
    ensures i <= t ==> Before(m.free[i], m.size[m.free[i]], m.live[x])
    ensures i > t ==> Before(m.live[x], m.size[m.live[x]], m.free[i])
  {
    assert Apart(m.live[x], m.size[m.live[x]], m.free[i], m.size[m.free[i]]);
    if i < t { assert Before(m.free[i], m.size[m.free[i]], m.free[t]); }
    if i > t + 1 { assert Before(m.free[t + 1], m.size[m.free[t + 1]], m.free[i]); }
  }

  lemma InsertSorted(m: Mem, base: nat, x: nat, t: nat)
    requires Inv(m, base) && x < |m.live| && Stop(m, base, m.live[x], t) && Bounded(InsertAt(m, x, t), base)
    ensures Sorted(InsertAt(m, x, t), base)
  {
    var m' := InsertAt(m, x, t);
    forall i: nat | i < |m.free|
      ensures i <= t ==> Before(m.free[i], m.size[m.free[i]], m.live[x])
      ensures i > t ==> Before(m.live[x], m.size[m.live[x]], m.free[i])
    {
      InsertSides(m, base, x, t, i);
    }
    forall i, j | 0 <= i < j < |m'.free| ensures Before(m'.free[i], m'.size[m'.free[i]], m'.free[j]) {
      if i != t + 1 && j != t + 1 {
        var i0, j0 := if i <= t then i else i - 1, if j <= t then j else j - 1;
        assert Before(m.free[i0], m.size[m.free[i0]], m.free[j0]);
      }
    }
  }

  lemma InsertGaps(m: Mem, base: nat, x: nat, t: nat)
    requires Inv(m, base) && x < |m.live| && t < |m.free| && Bounded(InsertAt(m, x, t), base)
    ensures Gaps(InsertAt(m, x, t), base, {t, t + 1})
  {
    var m' := InsertAt(m, x, t);
    forall i | 0 <= i < |m'.free| - 1 && i !in {t, t + 1} ensures Gap(m', i) {
      var i0 := if i < t then i else i - 1;
      assert Gap(m, i0);
      assert m'.free[i] == m.free[i0] && m'.free[i + 1] == m.free[i0 + 1];
    }
  }

  lemma InsertApart(m: Mem, base: nat, x: nat, t: nat)
    requires Inv(m, base) && x < |m.live| && t < |m.free| && Bounded(InsertAt(m, x, t), base)
    ensures LiveApart(InsertAt(m, x, t), base)
  {
    var m' := InsertAt(m, x, t);
    forall y, z | 0 <= y < z < |m'.live|
      ensures Apart(m'.live[y], m'.size[m'.live[y]], m'.live[z], m'.size[m'.live[z]])
    {
      var y0, z0 := if y < x then y else y + 1, if z < x then z else z + 1;
      assert Apart(m.live[y0], m.size[m.live[y0]], m.live[z0], m.size[m.live[z0]]);
    }
    forall y, i | 0 <= y < |m'.live| && 0 <= i < |m'.free|
      ensures Apart(m'.live[y], m'.size[m'.live[y]], m'.free[i], m'.size[m'.free[i]])
    {
      var y0 := if y < x then y else y + 1;
      if i == t + 1 {
        if y0 < x { assert Apart(m.live[y0], m.size[m.live[y0]], m.live[x], m.size[m.live[x]]); }
        else { assert Apart(m.live[x], m.size[m.live[x]], m.live[y0], m.size[m.live[y0]]); }
      } else {
        var i0 := if i <= t then i else i - 1;
        assert Apart(m.live[y0], m.size[m.live[y0]], m.free[i0], m.size[m.free[i0]]);
      }
    }
  }

  lemma InsertUnits(m: Mem, base: nat, x: nat, t: nat)
    requires Bounded(m, base) && x < |m.live| && t < |m.free| && Bounded(InsertAt(m, x, t), base)
    ensures Units(InsertAt(m, x, t)) == Units(m)
  {
    SumWith(m.free, t + 1, m.live[x], m.size);
    SumWithout(m.live, x, m.size);
  }

  lemma MergeBounded(m: Mem, base: nat, k: nat)
    requires Bounded(m, base) && k + 1 < |m.free|
    ensures Bounded(MergeAt(m, k), base)
  {
  }

  lemma OthersDiffer(m: Mem, base: nat, k: nat, i: nat)
    requires Bounded(m, base) && Sorted(m, base) && k < |m.free| && i < |m.free| && i != k
    ensures m.free[i] != m.free[k]
  {
    if i < k { assert Before(m.free[i], m.size[m.free[i]], m.free[k]); }
    else { assert Before(m.free[k], m.size[m.free[k]], m.free[i]); }
  }

  lemma MergeCircular(m: Mem, base: nat, k: nat)
    requires Bounded(m, base) && Circular(m, base) && Sorted(m, base) && k + 1 < |m.free|
    requires Bounded(MergeAt(m, k), base)
    ensures Circular(MergeAt(m, k), base)
  {
    var m' := MergeAt(m, k);
    var n := |m.free|;
    forall i | 0 <= i < n - 1 ensures m'.ptr[m'.free[i]] == m'.free[NextOf(i, n - 1)] {
      var i0 := if i <= k then i else i + 1;
      assert m'.free[i] == m.free[i0];
      if i != k { OthersDiffer(m, base, k, i0); }
      var s := if i == k then k + 1 else i0;
      assert m.ptr[m.free[s]] == m.free[NextOf(s, n)];
      assert m'.free[NextOf(i, n - 1)] == m.free[NextOf(s, n)];
    }
  }

  lemma MergeSorted(m: Mem, base: nat, k: nat)
    requires Bounded(m, base) && Sorted(m, base) && k < |m.free| && Touches(m, k) && Bounded(MergeAt(m, k), base)
    ensures Sorted(MergeAt(m, k), base)
  {
    var m' := MergeAt(m, k);
    var n := |m.free|;
    forall i: nat | i < n && i != k ensures m.free[i] != m.free[k] { OthersDiffer(m, base, k, i); }
    forall i, j | 0 <= i < j < n - 1 ensures Before(m'.free[i], m'.size[m'.free[i]], m'.free[j]) {
      var i0, j0 := if i <= k then i else i + 1, if j <= k then j else j + 1;
      assert m'.free[i] == m.free[i0] && m'.free[j] == m.free[j0];
      if i == k {
        assert Before(m.free[k + 1], m.size[m.free[k + 1]], m.free[j0]);
      }
      assert Before(m.free[i0], m.size[m.free[i0]], m.free[j0]);
    }
    forall i | 0 <= i < n - 1
      ensures m'.free[i] + m'.size[m'.free[i]] <= m'.brk && (m'.size[m'.free[i]] == 0 <==> m'.free[i] == base)
    {
      var i0 := if i <= k then i else i + 1;
      assert m'.free[i] == m.free[i0];
      if i == k {
        assert Before(m.free[k], m.size[m.free[k]], m.free[k + 1]);
        assert m.size[m.free[k]] > 0;
      }
    }
  }

  lemma MergeGaps(m: Mem, base: nat, k: nat, except: set<int>)
    requires Bounded(m, base) && Sorted(m, base) && Gaps(m, base, except) && k < |m.free| && Touches(m, k)
    requires (forall i | i in except :: i <= k) && Bounded(MergeAt(m, k), base)
    ensures Gaps(MergeAt(m, k), base, except - {k})
  {
    var m' := MergeAt(m, k);
    forall i | 0 <= i < |m'.free| - 1 && i !in except - {k} ensures Gap(m', i) {
      var i0 := if i < k then i else i + 1;
      assert m'.free[i + 1] == m.free[i0 + 1];
      assert Gap(m, i0);
      if i != k { OthersDiffer(m, base, k, if i < k then i else i + 1); }
    }
  }

  lemma MergeApart(m: Mem, base: nat, k: nat)
    requires Bounded(m, base) && Sorted(m, base) && LiveApart(m, base) && k < |m.free| && Touches(m, k)
    requires Bounded(MergeAt(m, k), base)
    ensures LiveApart(MergeAt(m, k), base)
  {
    var m' := MergeAt(m, k);
    var a := m.free[k];
    forall y | 0 <= y < |m.live| ensures m.live[y] != a {
      assert Apart(m.live[y], m.size[m.live[y]], a, m.size[a]);
      assert Apart(m.live[y], m.size[m.live[y]], m.free[k + 1], m.size[m.free[k + 1]]);
    }
    forall y, i | 0 <= y < |m'.live| && 0 <= i < |m'.free|
      ensures Apart(m'.live[y], m'.size[m'.live[y]], m'.free[i], m'.size[m'.free[i]])
    {
      var i0 := if i <= k then i else i + 1;
      assert Apart(m.live[y], m.size[m.live[y]], m.free[i0], m.size[m.free[i0]]);
      if i == k {
        assert Apart(m.live[y], m.size[m.live[y]], m.free[k + 1], m.size[m.free[k + 1]]);
      } else {
        OthersDiffer(m, base, k, i0);
      }
    }
  }

  lemma MergeKeeps(m: Mem, base: nat, k: nat, except: set<int>)
    requires InvBut(m, base, except) && k < |m.free| && Touches(m, k)
    requires forall i | i in except :: i <= k
    ensures InvBut(MergeAt(m, k), base, except - {k})
  {
    MergeBounded(m, base, k);
    MergeCircular(m, base, k);
    MergeSorted(m, base, k);
    MergeGaps(m, base, k, except);
    MergeApart(m, base, k);
  }

  lemma MergeUnits(m: Mem, base: nat, k: nat)
    requires Bounded(m, base) && Sorted(m, base) && k + 1 < |m.free| && Bounded(MergeAt(m, k), base)
    requires forall y | 0 <= y < |m.live| :: m.live[y] != m.free[k]
    ensures Units(MergeAt(m, k)) == Units(m)
  {
    var m' := MergeAt(m, k);
    forall i: nat | i < |m.free| && i != k ensures m.free[i] != m.free[k] { OthersDiffer(m, base, k, i); }
    SumWithout(m.free, k + 1, m.size);
    SumRaised(m'.free, k, m.size, m.size[m.free[k + 1]]);
    SumSame(m.live, m.size, m'.size);
  }
}
