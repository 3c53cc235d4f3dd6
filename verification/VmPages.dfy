// Physical pages under two-level page tables: kalloc.c's free list and what
// vm.c's directories and tables own.

module VmPages {

  const N := 1024
  const PGSIZE := 4096
  // Directory entries below KERNBASE: the user half of an address space.
  const UDIR := 512

  datatype Perm = Perm(write: bool, user: bool)
  // Directory entries keep nobody out; the entries of their tables may.
  const OPEN := Perm(true, true)

  datatype Pte = Absent | Pte(ppn: nat, perm: Perm)
  datatype Page = Junk | Table(ptes: seq<Pte>) | Bytes(data: seq<nat>)

  // The one use of every physical page. Held pages belong to code in flight or to
  // other parts of the kernel. In a user address space a page stands for table
  // entry j of directory entry i.
  datatype Role = Free | Held | Dir | TableOf(dir: nat, i: nat) | UserOf(dir: nat, i: nat, j: nat)

  datatype Mem = Mem(free: seq<nat>, page: map<nat, Page>, role: map<nat, Role>)

  predicate IsTable(m: Mem, p: nat) {
    p in m.page && m.page[p].Table? && |m.page[p].ptes| == N
  }

  predicate HasRole(m: Mem, p: nat, r: Role) {
    p in m.role && m.role[p] == r
  }

  // The free list holds each free page once.
  ghost predicate ListInv(m: Mem) {
    && m.page.Keys == m.role.Keys
    && (forall a, b | 0 <= a < b < |m.free| :: m.free[a] != m.free[b])
    && (forall a | 0 <= a < |m.free| :: HasRole(m, m.free[a], Free))
    && (forall p | HasRole(m, p, Free) :: p in m.free)
  }

  ghost predicate DirInv(m: Mem) {
    forall d, i {:trigger DirOk(m, d, i)} | HasRole(m, d, Dir) && 0 <= i < N :: DirOk(m, d, i)
  }

  ghost predicate DirOk(m: Mem, d: nat, i: nat)
    requires i < N
  {
    && IsTable(m, d)
    && (m.page[d].ptes[i].Pte? ==> m.page[d].ptes[i].perm == OPEN && HasRole(m, m.page[d].ptes[i].ppn, TableOf(d, i)))
  }

  // A table is the one its directory entry points to.
  ghost predicate TableInv(m: Mem) {
    forall t {:trigger TableOk(m, t, m.role[t].dir, m.role[t].i)} | t in m.role && m.role[t].TableOf? ::
      TableOk(m, t, m.role[t].dir, m.role[t].i)
  }

  ghost predicate TableOk(m: Mem, t: nat, d: nat, i: nat) {
    && i < N && HasRole(m, d, Dir) && IsTable(m, d) && IsTable(m, t)
    && m.page[d].ptes[i].Pte? && m.page[d].ptes[i].ppn == t
  }

  // Entries of user tables own the pages they map; kernel entries own nothing.
  ghost predicate EntryInv(m: Mem) {
    forall t, j {:trigger EntryOk(m, t, j, m.role[t].dir, m.role[t].i)} |
      t in m.role && m.role[t].TableOf? && m.role[t].i < UDIR && 0 <= j < N ::
      EntryOk(m, t, j, m.role[t].dir, m.role[t].i)
  }

  ghost predicate EntryOk(m: Mem, t: nat, j: nat, d: nat, i: nat)
    requires j < N
  {
    IsTable(m, t) && (m.page[t].ptes[j].Pte? ==> HasRole(m, m.page[t].ptes[j].ppn, UserOf(d, i, j)))
  }

  ghost predicate UserInv(m: Mem) {
    forall p {:trigger UserOk(m, p, m.role[p].dir, m.role[p].i, m.role[p].j)} | p in m.role && m.role[p].UserOf? ::
      UserOk(m, p, m.role[p].dir, m.role[p].i, m.role[p].j)
  }

  ghost predicate UserOk(m: Mem, p: nat, d: nat, i: nat, j: nat) {
    && i < UDIR && j < N && HasRole(m, d, Dir) && Entry(m, d, i, j).Pte? && Entry(m, d, i, j).ppn == p
    && p in m.page && m.page[p].Bytes? && |m.page[p].data| == PGSIZE
  }

  // What directory d maps at entry (i, j).
  function Entry(m: Mem, d: nat, i: nat, j: nat): Pte
    requires i < N && j < N
  {
    if IsTable(m, d) && m.page[d].ptes[i].Pte? && IsTable(m, m.page[d].ptes[i].ppn)
    then m.page[m.page[d].ptes[i].ppn].ptes[j] else Absent
  }

  // Every page has exactly one use, and every pointer in a directory or user table
  // is the reason for that use.
  ghost predicate Inv(m: Mem) {
    ListInv(m) && DirInv(m) && TableInv(m) && EntryInv(m) && UserInv(m)
  }

  // At boot the kernel holds every page, and no address space exists.
  lemma BootInv(m: Mem)
    requires m.page.Keys == m.role.Keys && m.free == [] && forall p | p in m.role :: m.role[p].Held?
    ensures Inv(m)
  {
  }

  function Blank(): Page {
    Table(seq(N, _ => Absent))
  }

  // ---------------------------------------------------------------- single steps

  function Taken(m: Mem): Mem
    requires m.free != []
  {
    m.(free := m.free[1..], role := m.role[m.free[0] := Held])
  }

  function Given(m: Mem, p: nat): Mem {
    Mem([p] + m.free, m.page[p := Junk], m.role[p := Free])
  }

  function Filled(m: Mem, p: nat, c: Page): Mem {
    m.(page := m.page[p := c])
  }

  function Started(m: Mem, d: nat): Mem {
    m.(role := m.role[d := Dir])
  }

  function Hung(m: Mem, d: nat, i: nat, t: nat): Mem
    requires i < N && IsTable(m, d)
  {
    m.(page := m.page[d := Table(m.page[d].ptes[i := Pte(t, OPEN)])], role := m.role[t := TableOf(d, i)])
  }

  function Stored(m: Mem, t: nat, j: nat, e: Pte): Mem
    requires j < N && IsTable(m, t)
  {
    m.(page := m.page[t := Table(m.page[t].ptes[j := e])])
  }

  function Owned(m: Mem, p: nat, d: nat, i: nat, j: nat): Mem {
    m.(role := m.role[p := UserOf(d, i, j)])
  }

  // A step that leaves alone what the pages of the three structural roles hold,
  // and gives them no new owner, keeps their invariants.
  ghost predicate SameUse(m: Mem, m': Mem, p: nat) {
    && (forall q | q in m.role && q != p :: q in m'.role && m'.role[q] == m.role[q])
    && (forall q | q in m.page && q != p :: q in m'.page && m'.page[q] == m.page[q])
    && (forall q | q in m'.role :: q in m.role)
  }

  predicate Loose(m: Mem, p: nat) {
    p in m.role && (m.role[p].Free? || m.role[p].Held?)
  }

  lemma LooseStep(m: Mem, m': Mem, p: nat)
    requires DirInv(m) && TableInv(m) && EntryInv(m) && UserInv(m)
    requires SameUse(m, m', p) && Loose(m, p) && Loose(m', p)
    ensures DirInv(m') && TableInv(m') && EntryInv(m') && UserInv(m')
  {
    forall d, i | HasRole(m', d, Dir) && 0 <= i < N ensures DirOk(m', d, i) {
      assert HasRole(m, d, Dir) && DirOk(m, d, i);
    }
    forall t | t in m'.role && m'.role[t].TableOf? ensures TableOk(m', t, m'.role[t].dir, m'.role[t].i) {
      assert TableOk(m, t, m.role[t].dir, m.role[t].i);
    }
    forall t, j | t in m'.role && m'.role[t].TableOf? && m'.role[t].i < UDIR && 0 <= j < N
      ensures EntryOk(m', t, j, m'.role[t].dir, m'.role[t].i)
    {
      assert EntryOk(m, t, j, m.role[t].dir, m.role[t].i);
    }
    forall q | q in m'.role && m'.role[q].UserOf? ensures UserOk(m', q, m'.role[q].dir, m'.role[q].i, m'.role[q].j) {
      var r := m.role[q];
      assert UserOk(m, q, r.dir, r.i, r.j) && DirOk(m, r.dir, r.i);
    }
  }

  lemma TakenKeeps(m: Mem)
    requires Inv(m) && m.free != []
    ensures Inv(Taken(m)) && HasRole(Taken(m), m.free[0], Held)
  {
    var m' := Taken(m);
    assert HasRole(m, m.free[0], Free);
    LooseStep(m, m', m.free[0]);
    forall a | 0 <= a < |m'.free| ensures HasRole(m', m'.free[a], Free) { assert m'.free[a] == m.free[a + 1]; }
    forall p | HasRole(m', p, Free) ensures p in m'.free {
      assert HasRole(m, p, Free);
      var a :| 0 <= a < |m.free| && m.free[a] == p;
      assert m'.free[a - 1] == p;
    }
  }

  lemma GivenKeeps(m: Mem, p: nat)
    requires Inv(m) && HasRole(m, p, Held)
    ensures Inv(Given(m, p))
  {
    var m' := Given(m, p);
    LooseStep(m, m', p);
    forall a | 0 <= a < |m'.free| ensures HasRole(m', m'.free[a], Free) {
      if a > 0 { assert HasRole(m, m.free[a - 1], Free); }
    }
    forall q | HasRole(m', q, Free) ensures q in m'.free {
      if q != p { assert HasRole(m, q, Free); }
    }
  }

  lemma FilledKeeps(m: Mem, p: nat, c: Page)
    requires Inv(m) && HasRole(m, p, Held)
    ensures Inv(Filled(m, p, c))
  {
    LooseStep(m, Filled(m, p, c), p);
    assert forall q | HasRole(Filled(m, p, c), q, Free) :: HasRole(m, q, Free);
  }

  lemma StartedKeeps(m: Mem, d: nat)
    requires Inv(m) && HasRole(m, d, Held) && m.page[d] == Blank()
    ensures Inv(Started(m, d))
  {
    var m' := Started(m, d);
    forall e, i | HasRole(m', e, Dir) && 0 <= i < N ensures DirOk(m', e, i) {
      assert e != d ==> HasRole(m, e, Dir) && DirOk(m, e, i);
    }
    UsersStay(m, m');
    assert forall q | HasRole(m', q, Free) :: HasRole(m, q, Free);
  }

  // No structural role is lost and no page of one is written.
  ghost predicate Grows(m: Mem, m': Mem) {
    && m'.page.Keys == m.page.Keys == m.role.Keys == m'.role.Keys
    && (forall q | q in m.role && !m.role[q].Held? && !m.role[q].Free? ::
          m'.role[q] == m.role[q] && m'.page[q] == m.page[q])
    && (forall q | q in m.role && (m'.role[q].TableOf? || m'.role[q].UserOf?) :: m'.role[q] == m.role[q])
  }

  lemma UsersStay(m: Mem, m': Mem)
    requires DirInv(m) && TableInv(m) && EntryInv(m) && UserInv(m) && Grows(m, m')
    ensures TableInv(m') && EntryInv(m') && UserInv(m')
  {
    forall t | t in m'.role && m'.role[t].TableOf? ensures TableOk(m', t, m'.role[t].dir, m'.role[t].i) {
      assert TableOk(m, t, m.role[t].dir, m.role[t].i);
    }
    forall t, j | t in m'.role && m'.role[t].TableOf? && m'.role[t].i < UDIR && 0 <= j < N
      ensures EntryOk(m', t, j, m'.role[t].dir, m'.role[t].i)
    {
      assert EntryOk(m, t, j, m.role[t].dir, m.role[t].i);
    }
    forall q | q in m'.role && m'.role[q].UserOf? ensures UserOk(m', q, m'.role[q].dir, m'.role[q].i, m'.role[q].j) {
      var r := m.role[q];
      assert UserOk(m, q, r.dir, r.i, r.j) && DirOk(m, r.dir, r.i);
    }
  }

  // ---------------------------------------------------------------- hanging a table into a directory

  lemma HungKeeps(m: Mem, d: nat, i: nat, t: nat)
    requires Inv(m) && HasRole(m, d, Dir) && i < N && IsTable(m, d) && m.page[d].ptes[i] == Absent
    requires HasRole(m, t, Held) && m.page[t] == Blank()
    ensures Inv(Hung(m, d, i, t))
  {
    var m' := Hung(m, d, i, t);
    assert forall q | HasRole(m', q, Free) :: HasRole(m, q, Free);
    forall e, k | HasRole(m', e, Dir) && 0 <= k < N ensures DirOk(m', e, k) {
      assert HasRole(m, e, Dir) && DirOk(m, e, k);
    }
    forall q | q in m'.role && m'.role[q].TableOf? ensures TableOk(m', q, m'.role[q].dir, m'.role[q].i) {
      assert q != t ==> TableOk(m, q, m.role[q].dir, m.role[q].i);
    }
    forall q, j | q in m'.role && m'.role[q].TableOf? && m'.role[q].i < UDIR && 0 <= j < N
      ensures EntryOk(m', q, j, m'.role[q].dir, m'.role[q].i)
    {
      assert q != t ==> EntryOk(m, q, j, m.role[q].dir, m.role[q].i);
    }
    forall q | q in m'.role && m'.role[q].UserOf? ensures UserOk(m', q, m'.role[q].dir, m'.role[q].i, m'.role[q].j) {
      var r := m.role[q];
      assert UserOk(m, q, r.dir, r.i, r.j) && DirOk(m, r.dir, r.i);
    }
  }

  // ---------------------------------------------------------------- storing an entry

  // Storing an entry of table t touches neither directories nor other tables.
  lemma StoredDirs(m: Mem, t: nat, j: nat, e: Pte)
    requires Inv(m) && t in m.role && m.role[t].TableOf? && j < N && IsTable(m, t)
    ensures ListInv(Stored(m, t, j, e)) && DirInv(Stored(m, t, j, e)) && TableInv(Stored(m, t, j, e))
  {
    var m' := Stored(m, t, j, e);
    assert forall q | HasRole(m', q, Free) :: HasRole(m, q, Free);
    forall e, k | HasRole(m', e, Dir) && 0 <= k < N ensures DirOk(m', e, k) {
      assert HasRole(m, e, Dir) && DirOk(m, e, k);
    }
    forall q | q in m'.role && m'.role[q].TableOf? ensures TableOk(m', q, m'.role[q].dir, m'.role[q].i) {
      assert TableOk(m, q, m.role[q].dir, m.role[q].i);
    }
  }

  // The pages user entries own, after entry j of table t became e.
  lemma StoredUser(m: Mem, t: nat, j: nat, e: Pte, q: nat)
    requires Inv(m) && t in m.role && m.role[t].TableOf? && j < N && IsTable(m, t)
    requires q in m.role && m.role[q].UserOf? && (m.role[t].i < UDIR ==> m.page[t].ptes[j] == Absent)
    ensures UserOk(Stored(m, t, j, e), q, m.role[q].dir, m.role[q].i, m.role[q].j)
  {
    var r := m.role[q];
    assert UserOk(m, q, r.dir, r.i, r.j) && DirOk(m, r.dir, r.i);
    assert TableOk(m, t, m.role[t].dir, m.role[t].i);
  }

  // A kernel entry maps without owning.
  lemma KernelStoredKeeps(m: Mem, t: nat, j: nat, e: Pte)
    requires Inv(m) && t in m.role && m.role[t].TableOf? && m.role[t].i >= UDIR && j < N && IsTable(m, t)
    ensures Inv(Stored(m, t, j, e))
  {
    var m' := Stored(m, t, j, e);
    StoredDirs(m, t, j, e);
    forall q, k | q in m'.role && m'.role[q].TableOf? && m'.role[q].i < UDIR && 0 <= k < N
      ensures EntryOk(m', q, k, m'.role[q].dir, m'.role[q].i)
    {
      assert EntryOk(m, q, k, m.role[q].dir, m.role[q].i);
    }
    forall q | q in m'.role && m'.role[q].UserOf? ensures UserOk(m', q, m'.role[q].dir, m'.role[q].i, m'.role[q].j) {
      StoredUser(m, t, j, e, q);
    }
  }

  lemma UserStoredKeeps(m: Mem, t: nat, j: nat, p: nat, perm: Perm, m': Mem)
    requires Inv(m) && t in m.role && m.role[t].TableOf? && m.role[t].i < UDIR && j < N && IsTable(m, t)
    requires m.page[t].ptes[j] == Absent && HasRole(m, p, Held) && m.page[p].Bytes? && |m.page[p].data| == PGSIZE
    requires m' == Owned(Stored(m, t, j, Pte(p, perm)), p, m.role[t].dir, m.role[t].i, j)
    ensures Inv(m')
  {
    var d, i := m.role[t].dir, m.role[t].i;
    StoredDirs(m, t, j, Pte(p, perm));
    var m1 := Stored(m, t, j, Pte(p, perm));
    assert forall q | HasRole(m', q, Free) :: HasRole(m1, q, Free);
    forall e, k | HasRole(m', e, Dir) && 0 <= k < N ensures DirOk(m', e, k) {
      assert HasRole(m1, e, Dir) && DirOk(m1, e, k);
    }
    forall q | q in m'.role && m'.role[q].TableOf? ensures TableOk(m', q, m'.role[q].dir, m'.role[q].i) {
      assert TableOk(m1, q, m.role[q].dir, m.role[q].i);
    }
    forall q, k | q in m'.role && m'.role[q].TableOf? && m'.role[q].i < UDIR && 0 <= k < N
      ensures EntryOk(m', q, k, m'.role[q].dir, m'.role[q].i)
    {
      assert EntryOk(m, q, k, m.role[q].dir, m.role[q].i);
    }
    forall q | q in m'.role && m'.role[q].UserOf? ensures UserOk(m', q, m'.role[q].dir, m'.role[q].i, m'.role[q].j) {
      if q == p { assert TableOk(m1, t, d, i); } else { StoredUser(m, t, j, Pte(p, perm), q); }
    }
  }

  // Unmapping a user page gives it back.
  lemma ClearedKeeps(m: Mem, t: nat, j: nat, m': Mem)
    requires Inv(m) && t in m.role && m.role[t].TableOf? && m.role[t].i < UDIR && j < N && IsTable(m, t)
    requires m.page[t].ptes[j].Pte? && m.page[t].ptes[j].ppn != t
    requires m' == Stored(Given(m, m.page[t].ptes[j].ppn), t, j, Absent)
    ensures Inv(m')
  {
    var p := m.page[t].ptes[j].ppn;
    assert EntryOk(m, t, j, m.role[t].dir, m.role[t].i);
    assert UserOk(m, p, m.role[t].dir, m.role[t].i, j);
    assert ListInv(m') by {
      forall a | 0 <= a < |m'.free| ensures HasRole(m', m'.free[a], Free) {
        if a > 0 { assert HasRole(m, m.free[a - 1], Free); }
      }
      forall q | HasRole(m', q, Free) ensures q in m'.free {
        if q != p { assert HasRole(m, q, Free); }
      }
      assert m.page.Keys == m.role.Keys;
    }
    forall e, k | HasRole(m', e, Dir) && 0 <= k < N ensures DirOk(m', e, k) {
      assert HasRole(m, e, Dir) && DirOk(m, e, k);
    }
    forall q | q in m'.role && m'.role[q].TableOf? ensures TableOk(m', q, m'.role[q].dir, m'.role[q].i) {
      assert TableOk(m, q, m.role[q].dir, m.role[q].i);
    }
    forall q, k | q in m'.role && m'.role[q].TableOf? && m'.role[q].i < UDIR && 0 <= k < N
      ensures EntryOk(m', q, k, m'.role[q].dir, m'.role[q].i)
    {
      assert EntryOk(m, q, k, m.role[q].dir, m.role[q].i);
      assert TableOk(m, q, m.role[q].dir, m.role[q].i) && TableOk(m, t, m.role[t].dir, m.role[t].i);
    }
    ClearedUsers(m, t, j, m');
  }

  lemma ClearedUsers(m: Mem, t: nat, j: nat, m': Mem)
    requires Inv(m) && t in m.role && m.role[t].TableOf? && m.role[t].i < UDIR && j < N && IsTable(m, t)
    requires m.page[t].ptes[j].Pte? && m.page[t].ptes[j].ppn != t
    requires m' == Stored(Given(m, m.page[t].ptes[j].ppn), t, j, Absent)
    ensures UserInv(m')
  {
    var p := m.page[t].ptes[j].ppn;
    assert EntryOk(m, t, j, m.role[t].dir, m.role[t].i);
    forall q | q in m'.role && m'.role[q].UserOf? ensures UserOk(m', q, m'.role[q].dir, m'.role[q].i, m'.role[q].j) {
      var r := m.role[q];
      assert UserOk(m, q, r.dir, r.i, r.j) && DirOk(m, r.dir, r.i);
      assert TableOk(m, t, m.role[t].dir, m.role[t].i);
      assert UserOk(m, p, m.role[t].dir, m.role[t].i, j);
    }
  }
}
