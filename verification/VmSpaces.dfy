// What one address space owns and maps, and what an operation on it may change.

module VmSpaces {
  import opened VmPages

  // Page p is the directory, a table or a user page of address space d.
  predicate Mine(m: Mem, p: nat, d: nat) {
    p in m.role && match m.role[p]
      case Dir => p == d
      case TableOf(e, _) => e == d
      case UserOf(e, _, _) => e == d
      case _ => false
  }

  // What d maps at virtual page v.
  function At(m: Mem, d: nat, v: nat): Pte
    requires v < N * N
  {
    Entry(m, d, v / N, v % N)
  }

  // What the hardware lets code do at v: what both levels allow.
  function Access(m: Mem, d: nat, v: nat): Perm
    requires v < N * N && IsTable(m, d) && At(m, d, v).Pte?
  {
    var upper, lower := m.page[d].ptes[v / N].perm, At(m, d, v).perm;
    Perm(upper.write && lower.write, upper.user && lower.user)
  }

  // It is what the page's own entry says.
  lemma EntryDecides(m: Mem, d: nat, v: nat)
    requires Inv(m) && HasRole(m, d, Dir) && v < N * N && At(m, d, v).Pte?
    ensures IsTable(m, d) && Access(m, d, v) == At(m, d, v).perm
  {
    assert DirOk(m, d, v / N);
  }

  // An operation on d: pages go between d and the free list only, and everything
  // else is left alone, except the pages in hand.
  ghost predicate Frame(m: Mem, m': Mem, d: nat, hand: set<nat>) {
    && m'.page.Keys == m.page.Keys == m.role.Keys == m'.role.Keys
    && (forall p {:trigger FrameAt(m, m', d, p)} | p in m.role && p !in hand :: FrameAt(m, m', d, p))
  }

  predicate FrameAt(m: Mem, m': Mem, d: nat, p: nat) {
    && p in m.role && p in m'.role && p in m.page && p in m'.page
    && if m.role[p].Free? || Mine(m, p, d) then m'.role[p].Free? || Mine(m', p, d)
       else m'.role[p] == m.role[p] && m'.page[p] == m.page[p]
  }

  ghost predicate SameMap(m: Mem, m': Mem, d: nat) {
    forall v | 0 <= v < N * N :: At(m', d, v) == At(m, d, v)
  }

  // User pages stay mapped, and keep their contents.
  ghost predicate UsersKept(m: Mem, m': Mem) {
    forall p {:trigger UserKept(m, m', p)} | p in m.role && m.role[p].UserOf? :: UserKept(m, m', p)
  }

  predicate UserKept(m: Mem, m': Mem, p: nat) {
    p in m.role && p in m'.role && m'.role[p] == m.role[p] && p in m.page && p in m'.page && m'.page[p] == m.page[p]
  }

  lemma UsersTrans(m0: Mem, m1: Mem, m2: Mem)
    requires UsersKept(m0, m1) && UsersKept(m1, m2)
    ensures UsersKept(m0, m2)
  {
    forall p | p in m0.role && m0.role[p].UserOf? ensures UserKept(m0, m2, p) {
      assert UserKept(m0, m1, p) && UserKept(m1, m2, p);
    }
  }

  lemma FrameTrans(m0: Mem, m1: Mem, m2: Mem, d: nat)
    requires Frame(m0, m1, d, {}) && Frame(m1, m2, d, {})
    ensures Frame(m0, m2, d, {})
  {
    forall p | p in m0.role ensures FrameAt(m0, m2, d, p) {
      assert FrameAt(m0, m1, d, p) && FrameAt(m1, m2, d, p);
    }
  }

  // A directory that does not exist yet owns nothing.
  lemma NothingMine(m: Mem, d: nat, p: nat)
    requires Inv(m) && !HasRole(m, d, Dir)
    ensures !Mine(m, p, d)
  {
    if p in m.role && m.role[p].TableOf? { assert TableOk(m, p, m.role[p].dir, m.role[p].i); }
    if p in m.role && m.role[p].UserOf? { assert UserOk(m, p, m.role[p].dir, m.role[p].i, m.role[p].j); }
  }

  // ---------------------------------------------------------------- one step each

  // A new table, in place where the directory had none.
  lemma HungFrame(m: Mem, d: nat, i: nat, m': Mem)
    requires Inv(m) && m.free != [] && HasRole(m, d, Dir) && i < N && IsTable(m, d) && m.page[d].ptes[i] == Absent
    requires m.free[0] != d
    requires m' == Hung(Filled(Taken(m), m.free[0], Blank()), d, i, m.free[0])
    ensures Inv(m') && Frame(m, m', d, {}) && UsersKept(m, m') && SameMap(m, m', d)
  {
    var t := m.free[0];
    var m1 := Taken(m);
    var m2 := Filled(m1, t, Blank());
    TakenKeeps(m);
    FilledKeeps(m1, t, Blank());
    assert HasRole(m2, t, Held) && HasRole(m2, d, Dir);
    HungKeeps(m2, d, i, t);
    assert HasRole(m, t, Free);
    forall v | 0 <= v < N * N ensures At(m', d, v) == At(m, d, v) {
      var q := m.page[d].ptes[v / N];
      if v / N != i && q.Pte? { assert DirOk(m, d, v / N); }
    }
  }

  // Changing a page outside the structure changes no mapping.
  lemma LooseMap(m: Mem, m': Mem, d: nat, p: nat)
    requires Inv(m) && HasRole(m, d, Dir) && Loose(m, p)
    requires forall q | q in m.page && q != p :: q in m'.page && m'.page[q] == m.page[q]
    ensures SameMap(m, m', d)
  {
    forall v | 0 <= v < N * N ensures At(m', d, v) == At(m, d, v) {
      assert DirOk(m, d, v / N);
      if m.page[d].ptes[v / N].Pte? { assert TableOk(m, m.page[d].ptes[v / N].ppn, d, v / N); }
    }
  }

  // A mapped user page has that use.
  lemma UserAt(m: Mem, d: nat, v: nat)
    requires Inv(m) && HasRole(m, d, Dir) && IsUser(v) && At(m, d, v).Pte?
    ensures HasRole(m, At(m, d, v).ppn, UserOf(d, v / N, v % N)) && UserOk(m, At(m, d, v).ppn, d, v / N, v % N)
  {
    var t := m.page[d].ptes[v / N].ppn;
    assert DirOk(m, d, v / N) && EntryOk(m, t, v % N, d, v / N);
  }

  // Storing an entry changes the mapping at one virtual page.
  lemma StoredMap(m: Mem, d: nat, v: nat, t: nat, e: Pte, w: nat)
    requires Inv(m) && v < N * N && w < N * N && HasRole(m, t, TableOf(d, v / N)) && IsTable(m, t)
    ensures At(Stored(m, t, v % N, e), d, w) == if w == v then e else At(m, d, w)
  {
    assert TableOk(m, t, d, v / N) && DirOk(m, d, w / N);
    assert w / N == v / N && w % N == v % N ==> w == v;
  }

  // ---------------------------------------------------------------- what the operations do to the mapping

  // n pages from ppn on appear at first.
  ghost predicate MapsRun(m: Mem, m': Mem, d: nat, first: nat, n: nat, ppn: nat, perm: Perm) {
    forall v: nat {:trigger RunAt(m, m', d, first, n, ppn, perm, v)} | v < N * N ::
      RunAt(m, m', d, first, n, ppn, perm, v)
  }

  ghost predicate RunAt(m: Mem, m': Mem, d: nat, first: nat, n: nat, ppn: nat, perm: Perm, v: nat)
    requires v < N * N
  {
    At(m', d, v) == if first <= v < first + n then Pte(ppn + (v - first), perm) else At(m, d, v)
  }

  predicate IsUser(v: int) {
    0 <= v < UDIR * N
  }

  // Page p would be mapped below KERNBASE when ppn is mapped at first.
  predicate UserSlot(p: nat, first: nat, ppn: nat) {
    IsUser(first + p - ppn)
  }

  // The pages that became user pages.
  function Hand(first: nat, n: nat, ppn: nat): set<nat> {
    set p | ppn <= p < ppn + n && UserSlot(p, first, ppn)
  }

  // The mapping below lo and from hi on stays, and so do the pages behind it.
  ghost predicate Unmaps(m: Mem, m': Mem, d: nat, lo: nat, hi: nat) {
    && (forall v: nat | v < N * N :: At(m', d, v) == if lo <= v < hi then Absent else At(m, d, v))
    && (forall p | && p in m.role && p in m.page && m.role[p].UserOf?
                   && !(m.role[p].dir == d && lo <= m.role[p].i * N + m.role[p].j < hi) ::
          p in m'.role && p in m'.page && m'.role[p] == m.role[p] && m'.page[p] == m.page[p])
  }

  function Zeros(): Page {
    Bytes(seq(PGSIZE, _ => 0))
  }

  predicate ZeroAt(m: Mem, d: nat, v: nat)
    requires v < N * N
  {
    At(m, d, v).Pte? && At(m, d, v).perm == Perm(true, true)
    && At(m, d, v).ppn in m.page && m.page[At(m, d, v).ppn] == Zeros()
  }

  // Zeroed user pages at lo..hi, nothing else new.
  ghost predicate Extends(m: Mem, m': Mem, d: nat, lo: nat, hi: nat) {
    && (forall v: nat | lo <= v < hi && v < N * N :: ZeroAt(m', d, v))
    && (forall v: nat | v < N * N && !(lo <= v < hi) :: At(m', d, v) == At(m, d, v))
  }

  // A size in bytes as a number of pages.
  function Pages(bytes: nat): (r: nat)
    ensures bytes <= r * PGSIZE < bytes + PGSIZE
  {
    (bytes + PGSIZE - 1) / PGSIZE
  }
}
