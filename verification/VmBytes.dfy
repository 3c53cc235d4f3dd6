// User memory as bytes: what uva2ka() and copyout() read and write.

module VmBytes {
  import opened VmPages
  import opened VmSpaces

  // Bytes buf written into page p from offset o on.
  function Written(m: Mem, p: nat, o: nat, buf: seq<nat>): Mem
    requires p in m.page && m.page[p].Bytes? && o + |buf| <= |m.page[p].data|
  {
    var data := m.page[p].data;
    m.(page := m.page[p := Bytes(data[..o] + buf + data[o + |buf|..])])
  }

  // A page that user code may touch.
  predicate UserPage(m: Mem, d: nat, v: nat)
    requires v < N * N
  {
    At(m, d, v).Pte? && At(m, d, v).perm.user
  }

  // Kernel mappings are closed to user code.
  ghost predicate KernelClosed(m: Mem, d: nat) {
    forall v: nat | UDIR * N <= v < N * N :: !UserPage(m, d, v)
  }

  function ByteOf(m: Mem, d: nat, x: nat): nat
    requires x < N * N * PGSIZE
  {
    var e := At(m, d, x / PGSIZE);
    if e.Pte? && e.ppn in m.page && m.page[e.ppn].Bytes? && x % PGSIZE < |m.page[e.ppn].data|
    then m.page[e.ppn].data[x % PGSIZE] else 0
  }

  // The first k bytes of buf are in user memory at va, and nothing else changed.
  ghost predicate Wrote(m: Mem, m': Mem, d: nat, va: nat, buf: seq<nat>, k: nat) {
    && k <= |buf| && m'.free == m.free && m'.role == m.role && m'.page.Keys == m.page.Keys && SameMap(m, m', d)
    && (forall p {:trigger OwnUser(m, p, d)} | p in m.page && !OwnUser(m, p, d) :: m'.page[p] == m.page[p])
    && (forall x: nat {:trigger ByteOf(m', d, x)} | IsUser(x / PGSIZE) && x < N * N * PGSIZE ::
          ByteOf(m', d, x) == if va <= x < va + k then buf[x - va] else ByteOf(m, d, x))
  }

  predicate OwnUser(m: Mem, p: nat, d: nat) {
    p in m.role && m.role[p].UserOf? && m.role[p].dir == d
  }

  lemma WrittenKeeps(m: Mem, d: nat, v: nat, o: nat, buf: seq<nat>)
    requires Inv(m) && HasRole(m, d, Dir) && IsUser(v) && At(m, d, v).Pte? && o + |buf| <= PGSIZE
    ensures UserOk(m, At(m, d, v).ppn, d, v / N, v % N)
    ensures Inv(Written(m, At(m, d, v).ppn, o, buf)) && SameMap(m, Written(m, At(m, d, v).ppn, o, buf), d)
  {
    UserAt(m, d, v);
    var p := At(m, d, v).ppn;
    var m' := Written(m, p, o, buf);
    assert forall q | HasRole(m', q, Free) :: HasRole(m, q, Free);
    forall e, i | HasRole(m', e, Dir) && 0 <= i < N ensures DirOk(m', e, i) {
      assert HasRole(m, e, Dir) && DirOk(m, e, i);
    }
    forall t | t in m'.role && m'.role[t].TableOf? ensures TableOk(m', t, m'.role[t].dir, m'.role[t].i) {
      assert TableOk(m, t, m.role[t].dir, m.role[t].i);
    }
    forall t, j | t in m'.role && m'.role[t].TableOf? && m'.role[t].i < UDIR && 0 <= j < N
      ensures EntryOk(m', t, j, m'.role[t].dir, m'.role[t].i)
    {
      assert EntryOk(m, t, j, m.role[t].dir, m.role[t].i);
    }
    forall q | q in m'.role && m'.role[q].UserOf? ensures UserOk(m', q, m'.role[q].dir, m'.role[q].i, m'.role[q].j) {
      var r := m.role[q];
      assert UserOk(m, q, r.dir, r.i, r.j) && DirOk(m, r.dir, r.i);
    }
    forall w | 0 <= w < N * N ensures At(m', d, w) == At(m, d, w) {
      assert DirOk(m, d, w / N);
    }
  }

  // Different user pages are different memory.
  lemma WrittenByte(m: Mem, d: nat, v: nat, o: nat, buf: seq<nat>, x: nat)
    requires Inv(m) && HasRole(m, d, Dir) && IsUser(v) && At(m, d, v).Pte? && o + |buf| <= PGSIZE
    requires UserOk(m, At(m, d, v).ppn, d, v / N, v % N)
    requires SameMap(m, Written(m, At(m, d, v).ppn, o, buf), d) && IsUser(x / PGSIZE) && x < N * N * PGSIZE
    ensures ByteOf(Written(m, At(m, d, v).ppn, o, buf), d, x) ==
      if v * PGSIZE + o <= x < v * PGSIZE + o + |buf| then buf[x - (v * PGSIZE + o)] else ByteOf(m, d, x)
  {
    var w := x / PGSIZE;
    assert At(Written(m, At(m, d, v).ppn, o, buf), d, w) == At(m, d, w);
    if w != v && At(m, d, w).Pte? {
      UserAt(m, d, w);
      UserAt(m, d, v);
      assert w / N != v / N || w % N != v % N;
      assert At(m, d, w).ppn != At(m, d, v).ppn;
    }
  }

  lemma WroteMore(m: Mem, m1: Mem, m2: Mem, d: nat, va: nat, buf: seq<nat>, k: nat, n: nat)
    requires Inv(m1) && HasRole(m1, d, Dir) && Wrote(m, m1, d, va, buf, k) && k + n <= |buf|
    requires IsUser((va + k) / PGSIZE) && At(m1, d, (va + k) / PGSIZE).Pte? && (va + k) % PGSIZE + n <= PGSIZE
    requires UserOk(m1, At(m1, d, (va + k) / PGSIZE).ppn, d, (va + k) / PGSIZE / N, (va + k) / PGSIZE % N)
    requires m2 == Written(m1, At(m1, d, (va + k) / PGSIZE).ppn, (va + k) % PGSIZE, buf[k..k + n]) && SameMap(m1, m2, d)
    ensures Wrote(m, m2, d, va, buf, k + n)
  {
    var v, o := (va + k) / PGSIZE, (va + k) % PGSIZE;
    UserAt(m1, d, v);
    forall w | 0 <= w < N * N ensures At(m2, d, w) == At(m, d, w) { assert At(m1, d, w) == At(m, d, w); }
    forall x: nat | IsUser(x / PGSIZE) && x < N * N * PGSIZE
      ensures ByteOf(m2, d, x) == if va <= x < va + k + n then buf[x - va] else ByteOf(m, d, x)
    {
      WrittenByte(m1, d, v, o, buf[k..k + n], x);
      assert ByteOf(m1, d, x) == if va <= x < va + k then buf[x - va] else ByteOf(m, d, x);
    }
    assert OwnUser(m, At(m1, d, v).ppn, d);
  }
}
