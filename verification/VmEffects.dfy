// What the page-table operations do, as relations between page states, and how
// their steps compose.

module VmEffects {
  import opened Wrappers
  import opened VmPages
  import opened VmSpaces

  const KERNBASE := UDIR * N * PGSIZE
  const USER := Perm(true, true)

  // One new user page with contents c.
  ghost predicate Adds(m: Mem, m': Mem, d: nat, v: nat, c: Page, perm: Perm)
    requires v < N * N
  {
    && (forall w: nat | w < N * N && w != v :: At(m', d, w) == At(m, d, w))
    && At(m', d, v).Pte? && At(m', d, v).perm == perm
    && At(m', d, v).ppn in m'.page && m'.page[At(m', d, v).ppn] == c
  }

  predicate NoTable(m: Mem, d: nat, v: nat) {
    IsTable(m, d) && v / N < N && m.page[d].ptes[v / N] == Absent
  }

  // Only the directory entries lo..hi may have changed.
  ghost predicate DirKept(m: Mem, m': Mem, d: nat, lo: nat, hi: nat) {
    && IsTable(m, d) && IsTable(m', d)
    && forall i | 0 <= i < N && !(lo <= i < hi) :: m'.page[d].ptes[i] == m.page[d].ptes[i]
  }

  // No table for any user address.
  ghost predicate NoUserTables(m: Mem, d: nat) {
    IsTable(m, d) && forall i | 0 <= i < UDIR :: m.page[d].ptes[i] == Absent
  }

  // walkpgdir() cannot make a table for v.
  predicate Stuck(m: Mem, d: nat, v: nat) {
    m.free == [] && NoTable(m, d, v)
  }

  // No page is left for v, or just one and v needs a table too.
  predicate Starved(m: Mem, d: nat, v: nat) {
    m.free == [] || (|m.free| == 1 && NoTable(m, d, v))
  }

  // In `low`, a state on the way, memory has run out: before the new address space
  // was there, or while it grew.
  ghost predicate RanOut(m: Mem, low: Mem) {
    m.free == [] || exists d: nat, v: nat :: NewSpace(m, low, d) && Starved(low, d, v)
  }

  // Page p came from the free list and is in hand; otherwise as in Frame.
  ghost predicate InFlight(m: Mem, m': Mem, d: nat, p: nat) {
    HasRole(m, p, Free) && HasRole(m', p, Held) && Frame(m, m', d, {p})
  }

  lemma PlaceStarts(m: Mem, m1: Mem, d: nat, v: nat, p: nat, c: Page)
    requires Inv(m) && HasRole(m, d, Dir) && HasRole(m, p, Free) && p in m.page && m.free != [] && m.free[0] == p
    requires IsUser(v)
    requires c.Bytes? && |c.data| == PGSIZE && m1 == Filled(Taken(m), p, c)
    ensures SameMap(m, m1, d) && UsersKept(m, m1) && InFlight(m, m1, d, p) && HasRole(m1, d, Dir)
    ensures InHand(m1, v, 0, 1, p)
  {
    LooseMap(m, m1, d, p);
  }

  lemma PlaceEnds(m: Mem, m1: Mem, m2: Mem, d: nat, v: nat, p: nat, c: Page, perm: Perm, k: nat)
    requires IsUser(v) && SameMap(m, m1, d) && UsersKept(m, m1) && InFlight(m, m1, d, p) && p in m1.page
    requires m1.page[p] == c
    requires k <= 1 && MapsSoFar(m1, m2, d, v, k, k, p, perm)
    ensures UsersKept(m, m2)
    ensures k == 1 ==> Adds(m, m2, d, v, c, perm) && Frame(m, m2, d, {})
    ensures k == 0 ==> SameMap(m, m2, d) && InFlight(m, m2, d, p)
  {
    assert MapsRun(m1, m2, d, v, k, p, perm);
    assert RunAt(m1, m2, d, v, k, p, perm, v);
    forall w | 0 <= w < N * N ensures At(m2, d, w) == if w == v && k == 1 then Pte(p, perm) else At(m, d, w) {
      assert RunAt(m1, m2, d, v, k, p, perm, w) && At(m1, d, w) == At(m, d, w);
    }
    UsersTrans(m, m1, m2);
    if k == 1 {
      assert UserSlot(p, v, p) && Placed(m1, m2, d, v, p);
      assert forall q | q in Hand(v, 1, p) :: q == p;
      forall q | q in m.role ensures FrameAt(m, m2, d, q) {
        if q != p { assert FrameAt(m, m1, d, q) && FrameAt(m1, m2, d, q); }
      }
    } else {
      assert Hand(v, 0, p) == {};
      assert FrameAt(m1, m2, d, p) && !Mine(m1, p, d);
      FrameTrans1(m, m1, m2, d, p);
    }
  }

  lemma FrameTrans1(m0: Mem, m1: Mem, m2: Mem, d: nat, p: nat)
    requires Frame(m0, m1, d, {p}) && Frame(m1, m2, d, {})
    ensures Frame(m0, m2, d, {p})
  {
    forall q | q in m0.role && q != p ensures FrameAt(m0, m2, d, q) {
      assert FrameAt(m0, m1, d, q) && FrameAt(m1, m2, d, q);
    }
  }

  // allocuvm() so far.
  ghost predicate Growing(m: Mem, m1: Mem, d: nat, lo: nat, a: nat) {
    Extends(m, m1, d, lo, a) && UsersKept(m, m1) && Frame(m, m1, d, {})
  }

  lemma GrowNext(m: Mem, m1: Mem, m2: Mem, d: nat, lo: nat, a: nat)
    requires Inv(m1) && HasRole(m1, d, Dir) && lo <= a && IsUser(a) && Growing(m, m1, d, lo, a)
    requires Adds(m1, m2, d, a, Zeros(), USER) && UsersKept(m1, m2) && Frame(m1, m2, d, {})
    ensures Growing(m, m2, d, lo, a + 1)
  {
    FrameTrans(m, m1, m2, d);
    UsersTrans(m, m1, m2);
    forall v: nat | lo <= v < a + 1 && v < N * N ensures ZeroAt(m2, d, v) {
      if v < a {
        assert ZeroAt(m1, d, v);
        UserAt(m1, d, v);
        assert UserKept(m1, m2, At(m1, d, v).ppn);
      }
    }
    forall v: nat | v < N * N && !(lo <= v < a + 1) ensures At(m2, d, v) == At(m, d, v) {
      assert At(m1, d, v) == At(m, d, v);
    }
  }

  lemma RollBackMap(m: Mem, m1: Mem, m2: Mem, m3: Mem, d: nat, lo: nat, a: nat, hi: nat)
    requires lo <= a < hi <= UDIR * N && Extends(m, m1, d, lo, a) && SameMap(m1, m2, d) && Unmaps(m2, m3, d, lo, hi)
    requires forall v: nat | lo <= v < hi :: At(m, d, v) == Absent
    ensures SameMap(m, m3, d)
  {
    forall v: nat | v < N * N ensures At(m3, d, v) == At(m, d, v) {
      assert At(m2, d, v) == At(m1, d, v);
    }
  }

  // The pages given back are not those that were mapped at the start.
  lemma RollBackUsers(m: Mem, m2: Mem, m3: Mem, d: nat, lo: nat, hi: nat)
    requires Inv(m) && hi <= UDIR * N && UsersKept(m, m2) && Unmaps(m2, m3, d, lo, hi)
    requires forall v: nat | lo <= v < hi :: At(m, d, v) == Absent
    ensures UsersKept(m, m3)
  {
    forall p | p in m.role && m.role[p].UserOf? ensures UserKept(m, m3, p) {
      var r := m.role[p];
      assert UserKept(m, m2, p);
      assert UserOk(m, p, r.dir, r.i, r.j);
      assert At(m, r.dir, r.i * N + r.j).Pte?;
    }
  }

  lemma RollBack(m: Mem, m1: Mem, m2: Mem, m3: Mem, d: nat, lo: nat, a: nat, hi: nat)
    requires Inv(m) && lo <= a < hi <= UDIR * N && Growing(m, m1, d, lo, a)
    requires forall v: nat | lo <= v < hi :: At(m, d, v) == Absent
    requires UsersKept(m1, m2) && SameMap(m1, m2, d) && Unmaps(m2, m3, d, lo, hi)
    ensures SameMap(m, m3, d) && UsersKept(m, m3)
  {
    RollBackMap(m, m1, m2, m3, d, lo, a, hi);
    UsersTrans(m, m1, m2);
    RollBackUsers(m, m2, m3, d, lo, hi);
  }

  lemma DropFrame(m1: Mem, m2: Mem, m3: Mem, d: nat, p: nat)
    requires InFlight(m1, m2, d, p) && Frame(m2, m3, d, {})
    ensures HasRole(m3, p, Held) && Frame(m1, Given(m3, p), d, {})
  {
    assert FrameAt(m2, m3, d, p) && !Mine(m2, p, d);
    forall q | q in m1.role ensures FrameAt(m1, Given(m3, p), d, q) {
      if q != p { assert FrameAt(m1, m2, d, q) && FrameAt(m2, m3, d, q); }
    }
  }

  lemma GivenUsers(m: Mem, m1: Mem, p: nat)
    requires UsersKept(m, m1) && HasRole(m1, p, Held)
    ensures UsersKept(m, Given(m1, p))
  {
    forall q | q in m.role && m.role[q].UserOf? ensures UserKept(m, Given(m1, p), q) { assert UserKept(m, m1, q); }
  }

  lemma DropHeld(m: Mem, m3: Mem, d: nat, p: nat)
    requires Inv(m3) && HasRole(m3, d, Dir) && HasRole(m3, p, Held) && SameMap(m, m3, d) && UsersKept(m, m3)
    ensures var m' := Given(m3, p); Inv(m') && SameMap(m, m', d) && UsersKept(m, m') && HasRole(m', d, Dir)
  {
    var m' := Given(m3, p);
    GivenKeeps(m3, p);
    LooseMap(m3, m', d, p);
    GivenUsers(m, m3, p);
    forall v | 0 <= v < N * N ensures At(m', d, v) == At(m, d, v) { assert At(m3, d, v) == At(m, d, v); }
  }

  // One page was mapped at v, or nothing.
  ghost predicate MapsOne(m: Mem, m': Mem, d: nat, v: nat, p: nat, perm: Perm, good: bool) {
    && UsersKept(m, m') && MapsRun(m, m', d, v, if good then 1 else 0, p, perm)
    && Frame(m, m', d, if good then Hand(v, 1, p) else {}) && (good && IsUser(v) ==> Placed(m, m', d, v, p))
  }

  // The first a of n pages are mapped, and the others still in hand.
  ghost predicate MapsSoFar(m: Mem, m1: Mem, d: nat, first: nat, a: nat, n: nat, ppn: nat, perm: Perm) {
    && UsersKept(m, m1) && MapsRun(m, m1, d, first, a, ppn, perm) && Frame(m, m1, d, Hand(first, a, ppn))
    && Consumed(m, m1, d, first, a, ppn) && InHand(m1, first, a, n, ppn)
  }

  lemma NextIsAbsent(m: Mem, m1: Mem, d: nat, first: nat, a: nat, n: nat, ppn: nat, perm: Perm)
    requires a < n && first + n <= N * N && MapsSoFar(m, m1, d, first, a, n, ppn, perm)
    requires forall v: nat | first <= v < first + n :: At(m, d, v) == Absent
    ensures At(m1, d, first + a) == Absent && (IsUser(first + a) ==> Ready(m1, ppn + a))
  {
    assert At(m, d, first + a) == Absent && RunAt(m, m1, d, first, a, ppn, perm, first + a);
    assert IsUser(first + a) ==> UserSlot(ppn + a, first, ppn);
  }

  lemma MapsMade(m: Mem, m1: Mem, m2: Mem, d: nat, first: nat, a: nat, n: nat, ppn: nat, perm: Perm, good: bool)
    requires a < n && MapsSoFar(m, m1, d, first, a, n, ppn, perm) && MapsOne(m1, m2, d, first + a, ppn + a, perm, good)
    ensures MapsSoFar(m, m2, d, first, if good then a + 1 else a, if good then n else a, ppn, perm)
  {
    MapsNext(m, m1, m2, d, first, a, ppn, perm, good);
    if good {
      HandFrame(m, m1, m2, d, first, a, ppn);
      HandRest(m1, m2, d, first, a, n, ppn);
      HandPlaced(m, m1, m2, d, first, a, n, ppn);
    } else {
      ConsumedStays(m, m1, m2, d, first, a, ppn);
      forall p | p in m.role && p !in Hand(first, a, ppn) ensures FrameAt(m, m2, d, p) {
        assert FrameAt(m, m1, d, p) && FrameAt(m1, m2, d, p);
      }
    }
  }

  lemma ConsumedStays(m: Mem, m1: Mem, m2: Mem, d: nat, first: nat, a: nat, ppn: nat)
    requires Consumed(m, m1, d, first, a, ppn) && UsersKept(m1, m2)
    ensures Consumed(m, m2, d, first, a, ppn)
  {
    forall p: nat | ppn <= p < ppn + a && UserSlot(p, first, ppn) ensures Placed(m, m2, d, first + p - ppn, p) {
      assert Placed(m, m1, d, first + p - ppn, p) && UserKept(m1, m2, p);
    }
  }

  lemma UnmapNext(m: Mem, m1: Mem, m2: Mem, d: nat, lo: nat, a: nat, next: nat, hi: nat)
    requires Unmaps(m, m1, d, lo, a) && lo <= a < hi && a < next <= UDIR * N
    requires if next == a + 1 then Unmaps(m1, m2, d, a, a + 1) else
        m2 == m1 && forall w: nat | a <= w < next :: At(m1, d, w) == Absent
    ensures Unmaps(m, m2, d, lo, Min(next, hi))
  {
    forall v: nat | v < N * N ensures At(m2, d, v) == if lo <= v < Min(next, hi) then Absent else At(m, d, v) {
      assert At(m1, d, v) == if lo <= v < a then Absent else At(m, d, v);
    }
  }

  lemma UnmapEffect(m: Mem, d: nat, v: nat, t: nat)
    requires Inv(m) && IsUser(v) && HasRole(m, t, TableOf(d, v / N)) && IsTable(m, t) && m.page[t].ptes[v % N].Pte?
    ensures IsTable(Given(m, m.page[t].ptes[v % N].ppn), t)
    ensures HasRole(m, m.page[t].ptes[v % N].ppn, UserOf(d, v / N, v % N))
    ensures var m' := Stored(Given(m, m.page[t].ptes[v % N].ppn), t, v % N, Absent);
      Inv(m') && Unmaps(m, m', d, v, v + 1) && Frame(m, m', d, {})
  {
    var p := m.page[t].ptes[v % N].ppn;
    assert EntryOk(m, t, v % N, d, v / N) && TableOk(m, t, d, v / N);
    var m' := Stored(Given(m, p), t, v % N, Absent);
    ClearedKeeps(m, t, v % N, m');
    forall w: nat | w < N * N ensures At(m', d, w) == if w == v then Absent else At(m, d, w) {
      assert DirOk(m, d, w / N);
      assert w / N == v / N && w % N == v % N ==> w == v;
    }
  }

  // A page in hand that can become a user page.
  predicate Ready(m: Mem, p: nat) {
    HasRole(m, p, Held) && p in m.page && m.page[p].Bytes? && |m.page[p].data| == PGSIZE
  }

  ghost predicate InHand(m: Mem, first: nat, lo: nat, hi: nat, ppn: nat) {
    forall p: nat | ppn + lo <= p < ppn + hi && UserSlot(p, first, ppn) :: Ready(m, p)
  }

  // The user pages among the first k are owned and hold what they held.
  ghost predicate Consumed(m: Mem, m': Mem, d: nat, first: nat, k: nat, ppn: nat) {
    forall p: nat | ppn <= p < ppn + k && UserSlot(p, first, ppn) :: Placed(m, m', d, first + p - ppn, p)
  }

  predicate Placed(m: Mem, m': Mem, d: nat, v: int, p: nat) {
    IsUser(v) && HasRole(m', p, UserOf(d, v / N, v % N)) && p in m.page && p in m'.page && m'.page[p] == m.page[p]
  }

  lemma MapsNext(m: Mem, m1: Mem, m2: Mem, d: nat, first: nat, a: nat, ppn: nat, perm: Perm, good: bool)
    requires MapsRun(m, m1, d, first, a, ppn, perm) && UsersKept(m, m1) && UsersKept(m1, m2)
    requires MapsRun(m1, m2, d, first + a, if good then 1 else 0, ppn + a, perm)
    ensures UsersKept(m, m2) && MapsRun(m, m2, d, first, if good then a + 1 else a, ppn, perm)
  {
    UsersTrans(m, m1, m2);
    var more := if good then a + 1 else a;
    forall v: nat | v < N * N ensures RunAt(m, m2, d, first, more, ppn, perm, v) {
      assert RunAt(m, m1, d, first, a, ppn, perm, v);
      assert RunAt(m1, m2, d, first + a, if good then 1 else 0, ppn + a, perm, v);
    }
  }

  lemma HandFrame(m: Mem, m1: Mem, m2: Mem, d: nat, first: nat, a: nat, ppn: nat)
    requires Frame(m, m1, d, Hand(first, a, ppn)) && Frame(m1, m2, d, Hand(first + a, 1, ppn + a))
    ensures Frame(m, m2, d, Hand(first, a + 1, ppn))
  {
    assert Hand(first, a + 1, ppn) == Hand(first, a, ppn) + Hand(first + a, 1, ppn + a) by {
      assert forall p: nat :: UserSlot(p, first, ppn) == UserSlot(p, first + a, ppn + a);
    }
    forall p | p in m.role && p !in Hand(first, a + 1, ppn) ensures FrameAt(m, m2, d, p) {
      assert FrameAt(m, m1, d, p) && FrameAt(m1, m2, d, p);
    }
  }

  lemma HandRest(m1: Mem, m2: Mem, d: nat, first: nat, a: nat, n: nat, ppn: nat)
    requires a < n && InHand(m1, first, a, n, ppn) && Frame(m1, m2, d, Hand(first + a, 1, ppn + a))
    ensures InHand(m2, first, a + 1, n, ppn)
  {
    forall p: nat | ppn + (a + 1) <= p < ppn + n && UserSlot(p, first, ppn) ensures Ready(m2, p) {
      assert Ready(m1, p) && p !in Hand(first + a, 1, ppn + a) && !Mine(m1, p, d);
      assert FrameAt(m1, m2, d, p);
    }
  }

  lemma HandPlaced(m: Mem, m1: Mem, m2: Mem, d: nat, first: nat, a: nat, n: nat, ppn: nat)
    requires a < n && Frame(m, m1, d, Hand(first, a, ppn))
    requires Consumed(m, m1, d, first, a, ppn) && InHand(m1, first, a, n, ppn) && UsersKept(m1, m2)
    requires IsUser(first + a) ==> Placed(m1, m2, d, first + a, ppn + a)
    ensures Consumed(m, m2, d, first, a + 1, ppn)
  {
    forall p: nat | ppn <= p < ppn + a + 1 && UserSlot(p, first, ppn) ensures Placed(m, m2, d, first + p - ppn, p) {
      if p < ppn + a {
        assert Placed(m, m1, d, first + p - ppn, p) && UserKept(m1, m2, p);
      } else {
        assert p == ppn + a && Ready(m1, p) && p !in Hand(first, a, ppn) && p in m.role && FrameAt(m, m1, d, p);
        assert m1.page[p] == m.page[p];
      }
    }
  }

  lemma GivenList(m: Mem, p: nat)
    requires ListInv(m) && p in m.role && !m.role[p].Free?
    ensures ListInv(Given(m, p))
  {
    var m' := Given(m, p);
    forall a | 0 <= a < |m'.free| ensures HasRole(m', m'.free[a], Free) {
      if a > 0 { assert HasRole(m, m.free[a - 1], Free); }
    }
    forall a, b | 0 <= a < b < |m'.free| ensures m'.free[a] != m'.free[b] {
      assert HasRole(m, m.free[b - 1], Free);
    }
    forall q | HasRole(m', q, Free) ensures q in m'.free {
      if q != p { assert HasRole(m, q, Free); }
    }
  }

  function WithEntry(m: Mem, d: nat, v: nat, t: nat, p: nat, perm: Perm): Mem
    requires IsTable(m, t)
  {
    var s := Stored(m, t, v % N, Pte(p, perm));
    if IsUser(v) then Owned(s, p, d, v / N, v % N) else s
  }

  lemma MapPageEffect(m: Mem, m1: Mem, d: nat, v: nat, t: nat, p: nat, perm: Perm)
    requires Inv(m) && v < N * N && At(m, d, v) == Absent && HasRole(m, d, Dir)
    requires IsUser(v) ==> HasRole(m, p, Held) && p in m.page && m.page[p].Bytes? && |m.page[p].data| == PGSIZE
    requires Inv(m1) && HasRole(m1, d, Dir) && HasRole(m1, t, TableOf(d, v / N)) && IsTable(m1, t)
    requires Frame(m, m1, d, {}) && UsersKept(m, m1) && SameMap(m, m1, d)
    ensures var m' := WithEntry(m1, d, v, t, p, perm);
      Inv(m') && HasRole(m', d, Dir) && MapsOne(m, m', d, v, p, perm, true)
  {
    var m' := WithEntry(m1, d, v, t, p, perm);
    assert At(m1, d, v) == Absent && TableOk(m1, t, d, v / N);
    if IsUser(v) {
      assert FrameAt(m, m1, d, p);
      UserStoredKeeps(m1, t, v % N, p, perm, m');
    } else {
      KernelStoredKeeps(m1, t, v % N, Pte(p, perm));
    }
    forall w: nat | w < N * N ensures RunAt(m, m', d, v, 1, p, perm, w) {
      StoredMap(m1, d, v, t, Pte(p, perm), w);
    }
    assert IsUser(v) ==> p in Hand(v, 1, p);
    forall q | q in m.role && m.role[q].UserOf? ensures UserKept(m, m', q) { assert UserKept(m, m1, q); }
    forall q | q in m.role && q !in Hand(v, 1, p) ensures FrameAt(m, m', d, q) { assert FrameAt(m, m1, d, q); }
  }

  // ---------------------------------------------------------------- mappages()

  // After walkpgdir() of directory entry i, with a table made if there was none.
  function Walked(m: Mem, d: nat, i: nat): Mem {
    if IsTable(m, d) && i < N && m.page[d].ptes[i] == Absent && m.free != []
    then Hung(Filled(Taken(m), m.free[0], Blank()), d, i, m.free[0])
    else m
  }

  function TableNo(m: Mem, d: nat, i: nat): nat {
    if IsTable(m, d) && i < N && m.page[d].ptes[i].Pte? then m.page[d].ptes[i].ppn else 0
  }

  // One turn of the loop of mappages().
  function MappedOne(m: Mem, d: nat, v: nat, p: nat, perm: Perm): Mem {
    var m1 := Walked(m, d, v / N);
    var t := TableNo(m1, d, v / N);
    if Stuck(m, d, v) || !IsTable(m1, t) then m else WithEntry(m1, d, v, t, p, perm)
  }

  lemma WalkedEffect(m: Mem, d: nat, i: nat)
    requires Inv(m) && HasRole(m, d, Dir) && i < N && !(m.free == [] && IsTable(m, d) && m.page[d].ptes[i] == Absent)
    ensures var m1 := Walked(m, d, i); var t := TableNo(m1, d, i);
      && Inv(m1) && HasRole(m1, d, Dir) && HasRole(m1, t, TableOf(d, i)) && IsTable(m1, t)
      && Frame(m, m1, d, {}) && UsersKept(m, m1) && SameMap(m, m1, d) && DirKept(m, m1, d, i, i + 1)
  {
    assert DirOk(m, d, i);
    if m.page[d].ptes[i] == Absent {
      assert HasRole(m, m.free[0], Free);
      HungFrame(m, d, i, Walked(m, d, i));
      assert DirOk(Walked(m, d, i), d, i);
    }
    assert m.page[d].ptes[i].Pte? ==> TableOk(m, m.page[d].ptes[i].ppn, d, i);
  }

  // What that does, in one predicate.
  ghost predicate PageMapped(m: Mem, m': Mem, d: nat, v: nat, p: nat, perm: Perm) {
    && Inv(m') && HasRole(m', d, Dir) && MapsOne(m, m', d, v, p, perm, !Stuck(m, d, v))
    && DirKept(m, m', d, v / N, v / N + 1)
  }

  lemma MappedOneEffect(m: Mem, d: nat, v: nat, p: nat, perm: Perm)
    requires Inv(m) && HasRole(m, d, Dir) && v < N * N && At(m, d, v) == Absent
    requires IsUser(v) ==> Ready(m, p)
    ensures PageMapped(m, MappedOne(m, d, v, p, perm), d, v, p, perm)
  {
    assert DirOk(m, d, v / N);
    if !Stuck(m, d, v) {
      var m1 := Walked(m, d, v / N);
      var t := TableNo(m1, d, v / N);
      WalkedEffect(m, d, v / N);
      MapPageEffect(m, m1, d, v, t, p, perm);
      assert t != d;
    }
  }

  ghost predicate Mappable(m: Mem, d: nat, first: nat, n: nat, ppn: nat) {
    && Inv(m) && HasRole(m, d, Dir) && n > 0 && first + n <= N * N && InHand(m, first, 0, n, ppn)
    && forall v: nat | first <= v < first + n :: At(m, d, v) == Absent
  }

  ghost predicate MapsKept(m: Mem, m1: Mem, d: nat, first: nat, a: nat, n: nat, ppn: nat, perm: Perm)
    requires n > 0
  {
    && Inv(m1) && HasRole(m1, d, Dir) && MapsSoFar(m, m1, d, first, a, n, ppn, perm)
    && DirKept(m, m1, d, first / N, (first + n - 1) / N + 1)
  }

  lemma MapsNone(m: Mem, d: nat, first: nat, n: nat, ppn: nat, perm: Perm)
    requires Mappable(m, d, first, n, ppn)
    ensures MapsKept(m, m, d, first, 0, n, ppn, perm)
  {
    assert DirOk(m, d, 0);
  }

  lemma DirKeptMore(m: Mem, m1: Mem, m2: Mem, d: nat, lo: nat, i: nat, hi: nat)
    requires DirKept(m, m1, d, lo, hi) && DirKept(m1, m2, d, i, i + 1) && lo <= i < hi
    ensures DirKept(m, m2, d, lo, hi)
  {
  }

  lemma MapsTurn(m: Mem, m1: Mem, m2: Mem, d: nat, first: nat, a: nat, n: nat, ppn: nat, perm: Perm)
    requires a < n && MapsKept(m, m1, d, first, a, n, ppn, perm)
    requires PageMapped(m1, m2, d, first + a, ppn + a, perm) && !Stuck(m1, d, first + a)
    ensures MapsKept(m, m2, d, first, a + 1, n, ppn, perm)
  {
    assert MapsSoFar(m, m2, d, first, a + 1, n, ppn, perm) by { MapsMade(m, m1, m2, d, first, a, n, ppn, perm, true); }
    DirKeptMore(m, m1, m2, d, first / N, (first + a) / N, (first + n - 1) / N + 1);
  }

  // What the next turn needs.
  lemma TurnReady(m: Mem, m1: Mem, d: nat, first: nat, a: nat, n: nat, ppn: nat, perm: Perm)
    requires a < n && Mappable(m, d, first, n, ppn) && MapsKept(m, m1, d, first, a, n, ppn, perm)
    ensures Inv(m1) && HasRole(m1, d, Dir) && At(m1, d, first + a) == Absent
    ensures IsUser(first + a) ==> Ready(m1, ppn + a)
  {
    NextIsAbsent(m, m1, d, first, a, n, ppn, perm);
  }

  lemma TurnsDone(m: Mem, m1: Mem, d: nat, first: nat, a: nat, n: nat, ppn: nat, perm: Perm)
    requires a <= n && n > 0 && MapsKept(m, m1, d, first, a, n, ppn, perm)
    ensures MapsSoFar(m, m1, d, first, a, a, ppn, perm)
  {
  }

  // ---------------------------------------------------------------- freevm

  // d's pages are free, and every other page is as it was.
  ghost predicate Released(m: Mem, m': Mem, d: nat) {
    && m'.role == (map p | p in m.role :: if Mine(m, p, d) then Free else m.role[p])
    && forall p | p in m.role && p in m.page && !Mine(m, p, d) && !m.role[p].Free? ::
         p in m'.page && m'.page[p] == m.page[p]
  }

  ghost predicate NoUsers(m: Mem, d: nat) {
    forall p | p in m.role && m.role[p].UserOf? :: m.role[p].dir != d
  }

  lemma NoUsersLeft(m: Mem, m1: Mem, d: nat)
    requires Inv(m1) && Unmaps(m, m1, d, 0, UDIR * N)
    ensures NoUsers(m1, d)
  {
    forall p | p in m1.role && m1.role[p].UserOf? ensures m1.role[p].dir != d {
      var r := m1.role[p];
      assert UserOk(m1, p, r.dir, r.i, r.j);
      assert At(m1, r.dir, r.i * N + r.j).Pte?;
    }
  }

  predicate EarlyTable(r: Role, d: nat, i: nat) {
    r.TableOf? && r.dir == d && r.i < i
  }

  // The tables of the first i directory entries are free; the directory still points at them.
  ghost predicate TablesFreed(m: Mem, m': Mem, d: nat, i: nat) {
    && HasRole(m, d, Dir) && m'.page.Keys == m.page.Keys == m.role.Keys == m'.role.Keys && IsTable(m', d)
    && (forall p | p in m.role :: m'.role[p] == if EarlyTable(m.role[p], d, i) then Free else m.role[p])
    && forall p | p in m.role && !EarlyTable(m.role[p], d, i) :: m'.page[p] == m.page[p]
  }

  lemma TableAt(m: Mem, m': Mem, d: nat, i: nat)
    requires Inv(m) && TablesFreed(m, m', d, i) && i < N
    ensures m'.page[d].ptes[i] == m.page[d].ptes[i]
    ensures m'.page[d].ptes[i].Pte? ==> HasRole(m', m'.page[d].ptes[i].ppn, TableOf(d, i))
    ensures forall p | HasRole(m, p, TableOf(d, i)) :: m.page[d].ptes[i].Pte? && m.page[d].ptes[i].ppn == p
  {
    assert DirOk(m, d, i);
    forall p | HasRole(m, p, TableOf(d, i)) ensures m.page[d].ptes[i].Pte? && m.page[d].ptes[i].ppn == p {
      assert TableOk(m, p, d, i);
    }
  }

  lemma TablesNext(m: Mem, m1: Mem, m2: Mem, d: nat, i: nat)
    requires TablesFreed(m, m1, d, i) && i < N && m1.page[d] == m.page[d]
    requires m1.page[d].ptes[i].Pte? ==> HasRole(m1, m1.page[d].ptes[i].ppn, TableOf(d, i))
    requires forall p | HasRole(m, p, TableOf(d, i)) :: m.page[d].ptes[i].Pte? && m.page[d].ptes[i].ppn == p
    requires m2 == if m1.page[d].ptes[i].Pte? then Given(m1, m1.page[d].ptes[i].ppn) else m1
    ensures TablesFreed(m, m2, d, i + 1)
  {
    forall p | p in m.role ensures m2.role[p] == if EarlyTable(m.role[p], d, i + 1) then Free else m.role[p] {
      assert EarlyTable(m.role[p], d, i + 1) && !EarlyTable(m.role[p], d, i) ==> HasRole(m, p, TableOf(d, i));
    }
    forall p | p in m.role && !EarlyTable(m.role[p], d, i + 1) ensures m2.page[p] == m.page[p] {
    }
  }

  lemma ReleasedRoles(m: Mem, m1: Mem, m2: Mem, d: nat)
    requires Inv(m) && NoUsers(m, d) && TablesFreed(m, m1, d, N) && m2 == Given(m1, d)
    ensures Released(m, m2, d) && m2.page.Keys == m.page.Keys
  {
    forall p | p in m.role ensures m2.role[p] == if Mine(m, p, d) then Free else m.role[p] {
      if m.role[p].TableOf? { assert TableOk(m, p, m.role[p].dir, m.role[p].i); }
    }
  }

  // What remains is still consistent.
  lemma ReleasedInv(m: Mem, m': Mem, d: nat)
    requires Inv(m) && Released(m, m', d) && ListInv(m')
    ensures Inv(m')
  {
    forall e, i | HasRole(m', e, Dir) && 0 <= i < N ensures DirOk(m', e, i) {
      assert HasRole(m, e, Dir) && DirOk(m, e, i);
    }
    forall t | t in m'.role && m'.role[t].TableOf? ensures TableOk(m', t, m'.role[t].dir, m'.role[t].i) {
      assert TableOk(m, t, m.role[t].dir, m.role[t].i);
    }
    forall t, j | t in m'.role && m'.role[t].TableOf? && m'.role[t].i < UDIR && 0 <= j < N
      ensures EntryOk(m', t, j, m'.role[t].dir, m'.role[t].i)
    {
      assert EntryOk(m, t, j, m.role[t].dir, m.role[t].i);
    }
    ReleasedUsers(m, m', d);
  }

  lemma ReleasedUsers(m: Mem, m': Mem, d: nat)
    requires Inv(m) && Released(m, m', d) && ListInv(m')
    ensures UserInv(m')
  {
    forall q | q in m'.role && m'.role[q].UserOf? ensures UserOk(m', q, m'.role[q].dir, m'.role[q].i, m'.role[q].j) {
      var r := m.role[q];
      assert UserOk(m, q, r.dir, r.i, r.j) && DirOk(m, r.dir, r.i);
      var t := m.page[r.dir].ptes[r.i].ppn;
      assert !Mine(m, r.dir, d) && !Mine(m, t, d);
    }
  }

  lemma ReleasedAfter(m: Mem, m1: Mem, m2: Mem, d: nat)
    requires Frame(m, m1, d, {}) && Released(m1, m2, d)
    ensures Released(m, m2, d)
  {
    assert m2.role.Keys == m.role.Keys;
    forall p | p in m.role ensures m2.role[p] == if Mine(m, p, d) then Free else m.role[p] {
      assert FrameAt(m, m1, d, p);
    }
    forall p | p in m.role && p in m.page && !Mine(m, p, d) && !m.role[p].Free?
      ensures p in m2.page && m2.page[p] == m.page[p]
    {
      assert FrameAt(m, m1, d, p);
    }
  }

  // ---------------------------------------------------------------- setupkvm

  // Page numbers of KERNLINK, of the end of mapped memory (P2V(PHYSTOP)) and of DEVSPACE.
  const KERNLINK := 0x80100
  const KERNEND := 0x8E000
  const DEVSPACE := 0xFE000

  datatype Kmap = Kmap(virt: nat, phys: nat, n: nat, perm: Perm)

  // kmap[i], for a kernel whose data starts at page `data`.
  function KernelMap(data: nat, i: nat): (r: Kmap)
    requires i < 4 && KERNLINK < data < KERNEND
    ensures r.n > 0 && UDIR * N <= r.virt && r.virt + r.n <= N * N
  {
    if i == 0 then Kmap(0x80000, 0, 0x100, Perm(true, false))
    else if i == 1 then Kmap(KERNLINK, 0x100, data - KERNLINK, Perm(false, false))
    else if i == 2 then Kmap(data, data - 0x80000, KERNEND - data, Perm(true, false))
    else Kmap(DEVSPACE, DEVSPACE, 0x2000, Perm(true, false))
  }

  // What every address space maps above KERNBASE.
  function KernelPte(data: nat, v: nat): Pte
    requires KERNLINK < data < KERNEND && UDIR * N <= v
  {
    if v < KERNEND then Pte(v - 0x80000, Perm(v < KERNLINK || data <= v, false))
    else if v < DEVSPACE then Absent
    else Pte(v, Perm(true, false))
  }

  function Upto(data: nat, i: nat): nat {
    if i == 0 then 0x80000 else if i == 1 then KERNLINK else if i == 2 then data else if i == 3 then DEVSPACE else N * N
  }

  ghost predicate KernelUpTo(m: Mem, d: nat, data: nat, hi: nat)
    requires KERNLINK < data < KERNEND
  {
    forall v: nat | v < N * N :: At(m, d, v) == if UDIR * N <= v < hi then KernelPte(data, v) else Absent
  }

  // d was a free page and is now a directory; only free pages were used.
  ghost predicate NewSpace(m: Mem, m': Mem, d: nat) {
    HasRole(m, d, Free) && HasRole(m', d, Dir) && Frame(m, m', d, {}) && UsersKept(m, m')
  }

  // Every page has the same use, and those in use hold what they held.
  ghost predicate Untouched(m: Mem, m': Mem) {
    && m'.role == m.role
    && forall p | p in m.role && p in m.page && !m.role[p].Free? :: p in m'.page && m'.page[p] == m.page[p]
  }

  lemma SpaceStarts(m: Mem, m1: Mem, m2: Mem, d: nat, data: nat)
    requires Inv(m) && m.free != [] && d == m.free[0] && HasRole(m, d, Free)
    requires m1 == Filled(Taken(m), d, Blank()) && m2 == Started(m1, d) && KERNLINK < data < KERNEND
    ensures NewSpace(m, m2, d) && KernelUpTo(m2, d, data, UDIR * N)
  {
  }

  lemma KernelNotUser(first: nat, n: nat, ppn: nat)
    requires UDIR * N <= first
    ensures Hand(first, n, ppn) == {} && forall m, lo, hi :: InHand(m, first, lo, hi, ppn)
  {
    assert forall p: nat | p >= ppn :: !UserSlot(p, first, ppn);
  }

  lemma SpaceGrows(m: Mem, m1: Mem, m2: Mem, d: nat)
    requires NewSpace(m, m1, d) && Frame(m1, m2, d, {}) && UsersKept(m1, m2) && HasRole(m2, d, Dir)
    ensures NewSpace(m, m2, d)
  {
    FrameTrans(m, m1, m2, d);
    UsersTrans(m, m1, m2);
  }

  lemma KernelNext(m1: Mem, m2: Mem, d: nat, data: nat, i: nat)
    requires i < 4 && KERNLINK < data < KERNEND && KernelUpTo(m1, d, data, Upto(data, i))
    requires var e := KernelMap(data, i); MapsRun(m1, m2, d, e.virt, e.n, e.phys, e.perm)
    ensures KernelUpTo(m2, d, data, Upto(data, i + 1))
  {
    forall v: nat | v < N * N
      ensures At(m2, d, v) == if UDIR * N <= v < Upto(data, i + 1) then KernelPte(data, v) else Absent
    {
      assert At(m1, d, v) == if UDIR * N <= v < Upto(data, i) then KernelPte(data, v) else Absent;
      var e := KernelMap(data, i);
      assert RunAt(m1, m2, d, e.virt, e.n, e.phys, e.perm, v);
    }
  }

  lemma NothingLeft(m: Mem, m1: Mem, m2: Mem, d: nat)
    requires Inv(m) && NewSpace(m, m1, d) && Released(m1, m2, d)
    ensures Untouched(m, m2)
  {
    ReleasedAfter(m, m1, m2, d);
    forall p | p in m.role ensures !Mine(m, p, d) { NothingMine(m, d, p); }
  }

  // ---------------------------------------------------------------- copyuvm

  // v maps to a page of its own with the contents and permissions of the parent's page.
  ghost predicate SamePage(m: Mem, m': Mem, parent: nat, d: nat, v: nat)
    requires v < N * N
  {
    var a, b := At(m, parent, v), At(m', d, v);
    a.Pte? && b.Pte? && a.perm == b.perm && a.ppn in m.page && b.ppn in m'.page && m'.page[b.ppn] == m.page[a.ppn]
  }

  ghost predicate Copied(m: Mem, m': Mem, parent: nat, d: nat, data: nat, i: nat)
    requires KERNLINK < data < KERNEND
  {
    && (forall v: nat | 1 <= v < i && v < N * N :: SamePage(m, m', parent, d, v))
    && (forall v: nat | v < N * N && !(1 <= v < i) ::
          At(m', d, v) == if UDIR * N <= v then KernelPte(data, v) else Absent)
  }

  // An operation on d leaves every other address space alone: its mapping, and
  // what its user pages hold.
  lemma Bystander(m: Mem, m': Mem, d: nat, e: nat, v: nat)
    requires Inv(m) && HasRole(m, e, Dir) && e != d && Frame(m, m', d, {}) && v < N * N
    ensures HasRole(m', e, Dir) && At(m', e, v) == At(m, e, v)
    ensures IsUser(v) && At(m, e, v).Pte? ==> SamePage(m, m', e, e, v) && m.page[At(m, e, v).ppn].Bytes?
  {
    assert DirOk(m, e, v / N) && !Mine(m, e, d) && FrameAt(m, m', d, e);
    if m.page[e].ptes[v / N].Pte? {
      var t := m.page[e].ptes[v / N].ppn;
      assert TableOk(m, t, e, v / N) && !Mine(m, t, d) && FrameAt(m, m', d, t);
    }
    if IsUser(v) && At(m, e, v).Pte? {
      UserAt(m, e, v);
      assert FrameAt(m, m', d, At(m, e, v).ppn);
    }
  }

  lemma TableOf1(m: Mem, d: nat, v: nat, t: nat)
    requires Inv(m) && HasRole(m, d, Dir) && IsUser(v) && HasRole(m, t, TableOf(d, v / N)) && IsTable(m, t)
    requires At(m, d, v).Pte?
    ensures m.page[t].ptes[v % N] == At(m, d, v) && At(m, d, v).ppn in m.page
    ensures m.page[At(m, d, v).ppn].Bytes? && |m.page[At(m, d, v).ppn].data| == PGSIZE
  {
    assert TableOk(m, t, d, v / N);
    UserAt(m, d, v);
  }

  lemma CopyNext(m: Mem, m1: Mem, m2: Mem, parent: nat, d: nat, data: nat, i: nat)
    requires Inv(m) && Inv(m1) && HasRole(m, parent, Dir) && 1 <= i && IsUser(i) && At(m, parent, i).Pte?
    requires KERNLINK < data < KERNEND
    requires NewSpace(m, m1, d) && Copied(m, m1, parent, d, data, i) && HasRole(m2, d, Dir)
    requires At(m1, parent, i).Pte? && At(m1, parent, i).ppn in m1.page
    requires Adds(m1, m2, d, i, m1.page[At(m1, parent, i).ppn], At(m1, parent, i).perm) && UsersKept(m1, m2)
    requires Frame(m1, m2, d, {})
    ensures NewSpace(m, m2, d) && Copied(m, m2, parent, d, data, i + 1)
  {
    SpaceGrows(m, m1, m2, d);
    Bystander(m, m1, d, parent, i);
    forall v: nat | 1 <= v < i + 1 && v < N * N ensures SamePage(m, m2, parent, d, v) {
      if v < i {
        assert SamePage(m, m1, parent, d, v);
        UserAt(m1, d, v);
        assert UserKept(m1, m2, At(m1, d, v).ppn);
      }
    }
    forall v: nat | v < N * N && !(1 <= v < i + 1)
      ensures At(m2, d, v) == if UDIR * N <= v then KernelPte(data, v) else Absent
    {
      assert At(m1, d, v) == if UDIR * N <= v then KernelPte(data, v) else Absent;
    }
  }
}
