// kalloc.c and vm.c: the methods that change the free list and page tables.

module VmKernel {
  import opened Wrappers
  import opened VmPages
  import opened VmSpaces
  import opened VmEffects
  import opened VmBytes

  // What uva2ka() finds.
  datatype Kva = Fault | Null | Kva(ppn: nat)

  datatype Copying = Complete | Refused | Faulted

  // The k bytes from va are in user pages.
  ghost predicate AllUser(m: Mem, d: nat, va: nat, k: nat) {
    forall x: nat {:trigger x / PGSIZE} | va <= x < va + k :: x / PGSIZE < N * N && UserPage(m, d, x / PGSIZE)
  }

  // Why a copy stops before address a.
  ghost predicate Stops(m: Mem, d: nat, a: nat, o: Copying) {
    match o
    case Complete => true
    case Faulted => a < N * N * PGSIZE && !UserPage(m, d, a / PGSIZE) && NoTable(m, d, a / PGSIZE)
    case Refused => a < N * N * PGSIZE && !UserPage(m, d, a / PGSIZE) && !NoTable(m, d, a / PGSIZE)
  }

  class Memory {
    var free: seq<nat>
    var page: map<nat, Page>
    ghost var role: map<nat, Role>

    ghost function View(): Mem
      reads this
    {
      Mem(free, page, role)
    }

    // At boot the kernel holds every page; freerange() makes them free.
    constructor (held: set<nat>)
      ensures Inv(View()) && free == [] && role.Keys == held && forall p | p in held :: role[p] == Held
    {
      free := [];
      page := map p | p in held :: Junk;
      role := map p | p in held :: Held;
      new;
      BootInv(View());
    }

    // A page that is not free goes in front of the list, filled with junk.
    method Kfree(p: nat)
      requires ListInv(View()) && p in role && !role[p].Free?
      modifies this
      ensures ListInv(View()) && View() == Given(old(View()), p)
    {
      GivenList(View(), p);
      page := page[p := Junk];
      free := [p] + free;
      role := role[p := Free];
    }

    method Kalloc() returns (r: Option<nat>)
      requires Inv(View())
      modifies this
      ensures Inv(View()) && (r.None? <==> old(free) == [])
      ensures View() == if r.Some? then Taken(old(View())) else old(View())
      ensures r.Some? ==>
        r.value == old(free[0]) && HasRole(View(), r.value, Held) && HasRole(old(View()), r.value, Free)
    {
      if free == [] { return None; }
      TakenKeeps(View());
      assert HasRole(View(), free[0], Free);
      r := Some(free[0]);
      role := role[free[0] := Held];
      free := free[1..];
    }

    method Fill(p: nat, c: Page)
      requires Inv(View()) && HasRole(View(), p, Held)
      modifies this
      ensures Inv(View()) && View() == Filled(old(View()), p, c)
    {
      FilledKeeps(View(), p, c);
      page := page[p := c];
    }

    // The table for directory entry i, made if need be and wanted.
    method WalkPgdir(d: nat, i: nat, alloc: bool) returns (r: Option<nat>)
      requires Inv(View()) && HasRole(View(), d, Dir) && i < N
      modifies this
      ensures Inv(View()) && HasRole(View(), d, Dir)
      ensures r.Some? ==> HasRole(View(), r.value, TableOf(d, i)) && IsTable(View(), r.value)
      ensures r.None? ==>
        View() == old(View()) && IsTable(View(), d) && page[d].ptes[i] == Absent && (alloc ==> free == [])
      ensures View() == if alloc then Walked(old(View()), d, i) else old(View())
      ensures r.Some? ==> r.value == TableNo(View(), d, i)
      ensures alloc ==> (r.None? <==> old(Stuck(View(), d, i * N)))
      ensures Frame(old(View()), View(), d, {}) && UsersKept(old(View()), View()) && SameMap(old(View()), View(), d)
      ensures DirKept(old(View()), View(), d, i, i + 1)
    {
      ghost var m := View();
      assert DirOk(m, d, i);
      var pde := page[d].ptes[i];
      if pde.Pte? {
        assert TableOk(m, pde.ppn, d, i);
        return Some(pde.ppn);
      }
      if !alloc { return None; }
      var k := Kalloc();
      if k.None? { return None; }
      var t := k.value;
      Fill(t, Blank());
      HungFrame(m, d, i, Hung(Filled(Taken(m), t, Blank()), d, i, t));
      page := page[d := Table(page[d].ptes[i := Pte(t, Perm(true, true))])];
      role := role[t := TableOf(d, i)];
      r := Some(t);
    }

    // One page at virtual page v. A user page must be in hand, and is then owned.
    method MapPage(d: nat, v: nat, p: nat, perm: Perm) returns (ok: bool)
      requires Inv(View()) && HasRole(View(), d, Dir) && v < N * N && At(View(), d, v) == Absent
      requires IsUser(v) ==> Ready(View(), p)
      modifies this
      ensures PageMapped(old(View()), View(), d, v, p, perm)
      ensures (ok <==> !old(Stuck(View(), d, v))) && (!ok ==> View() == old(View()))
    {
      ghost var m := View();
      MappedOneEffect(m, d, v, p, perm);
      var t := WalkPgdir(d, v / N, true);
      if t.None? { return false; }
      page := page[t.value := Table(page[t.value].ptes[v % N := Pte(p, perm)])];
      if IsUser(v) { role := role[p := UserOf(d, v / N, v % N)]; }
      ok := true;
    }

    // Consecutive pages, stopping where no table can be made. "remap" cannot
    // happen: the caller's range is unmapped.
    method MapPages(d: nat, first: nat, n: nat, ppn: nat, perm: Perm) returns (ok: bool, ghost k: nat)
      requires Mappable(View(), d, first, n, ppn)
      modifies this
      ensures Inv(View()) && HasRole(View(), d, Dir)
      ensures k <= n && (ok <==> k == n) && MapsSoFar(old(View()), View(), d, first, k, k, ppn, perm)
      // It stops exactly where there is no page for a table.
      ensures !ok ==> Stuck(View(), d, first + k) && (k == 0 ==> View() == old(View()))
      ensures ok ==> !old(Stuck(View(), d, first))
      ensures DirKept(old(View()), View(), d, first / N, (first + n - 1) / N + 1)
    {
      ghost var m := View();
      MapsNone(m, d, first, n, ppn, perm);
      k := 0;
      var a := 0;
      while true
        invariant a == k < n && MapsKept(m, View(), d, first, a, n, ppn, perm)
        invariant if a == 0 then View() == m else !Stuck(m, d, first)
        decreases n - a
      {
        ghost var m1 := View();
        TurnReady(m, m1, d, first, a, n, ppn, perm);
        ok := MapPage(d, first + a, ppn + a, perm);
        if !ok { break; }
        MapsTurn(m, m1, View(), d, first, a, n, ppn, perm);
        a, k := a + 1, k + 1;
        if a == n { break; }
      }
      TurnsDone(m, View(), d, first, k, n, ppn, perm);
    }

    // One turn of the loop of deallocuvm() on the virtual page v.
    method Unmap(d: nat, v: nat) returns (next: nat)
      requires Inv(View()) && HasRole(View(), d, Dir) && v < UDIR * N
      modifies this
      ensures Inv(View()) && HasRole(View(), d, Dir) && v < next <= UDIR * N
      ensures if next == v + 1 then Unmaps(old(View()), View(), d, v, v + 1) else
        View() == old(View()) && forall w: nat | v <= w < next :: At(View(), d, w) == Absent
      ensures Frame(old(View()), View(), d, {})
    {
      ghost var m := View();
      var t := WalkPgdir(d, v / N, false);
      if t.None? {
        assert forall w: nat | v / N == w / N :: At(m, d, w) == Absent;
        next := (v / N + 1) * N - 1 + 1;
        return;
      }
      next := v + 1;
      assert TableOk(m, t.value, d, v / N);
      var pte := page[t.value].ptes[v % N];
      if pte.Pte? {
        UnmapEffect(m, d, v, t.value);
        Kfree(pte.ppn);
        page := page[t.value := Table(page[t.value].ptes[v % N := Absent])];
      }
    }

    // The pages between the new and the old end of the process go back to the free list.
    method DeallocUvm(d: nat, oldsz: nat, newsz: nat) returns (r: nat)
      requires Inv(View()) && HasRole(View(), d, Dir) && oldsz <= KERNBASE
      modifies this
      ensures Inv(View()) && HasRole(View(), d, Dir) && r == if newsz >= oldsz then oldsz else newsz
      ensures newsz >= oldsz ==> View() == old(View())
      ensures newsz < oldsz ==> Unmaps(old(View()), View(), d, Pages(newsz), Pages(oldsz))
      ensures Frame(old(View()), View(), d, {})
    {
      if newsz >= oldsz { return oldsz; }
      ghost var m := View();
      var a := Pages(newsz);
      while a * PGSIZE < oldsz
        invariant Inv(View()) && HasRole(View(), d, Dir) && Pages(newsz) <= a <= UDIR * N
        invariant Unmaps(m, View(), d, Pages(newsz), Min(a, Pages(oldsz))) && Frame(m, View(), d, {})
        decreases UDIR * N - a
      {
        ghost var m1, a1 := View(), a;
        a := Unmap(d, a);
        UnmapNext(m, m1, View(), d, Pages(newsz), a1, a, Pages(oldsz));
        FrameTrans(m, m1, View(), d);
      }
      r := newsz;
    }

    // A page with contents c at v: kalloc(), filling it, mappages(). When the
    // mapping fails the page is still in hand.
    method Place(d: nat, v: nat, c: Page, perm: Perm) returns (mem: Option<nat>, ok: bool)
      requires Inv(View()) && HasRole(View(), d, Dir) && IsUser(v) && At(View(), d, v) == Absent
      requires c.Bytes? && |c.data| == PGSIZE
      modifies this
      ensures Inv(View()) && HasRole(View(), d, Dir) && UsersKept(old(View()), View())
      ensures mem.None? ==> !ok && View() == old(View())
      ensures ok <==> !old(Starved(View(), d, v))
      ensures ok ==> Adds(old(View()), View(), d, v, c, perm) && Frame(old(View()), View(), d, {})
      ensures !ok && mem.Some? ==> SameMap(old(View()), View(), d) && InFlight(old(View()), View(), d, mem.value)
    {
      ghost var m := View();
      ok := false;
      mem := Kalloc();
      if mem.None? { return; }
      Fill(mem.value, c);
      ghost var m1 := View();
      PlaceStarts(m, m1, d, v, mem.value, c);
      ghost var k;
      ok, k := MapPages(d, v, 1, mem.value, perm);
      PlaceEnds(m, m1, View(), d, v, mem.value, c, perm, k);
    }

    // Zeroed pages up to the new size, or the old mapping again.
    // It fails only where the pages run out, in state `low` with those below a mapped.
    method AllocUvm(d: nat, oldsz: nat, newsz: nat) returns (r: nat, ghost low: Mem, ghost a: nat)
      requires Inv(View()) && HasRole(View(), d, Dir)
      requires forall v: nat | Pages(oldsz) <= v < Pages(newsz) && v < N * N :: At(View(), d, v) == Absent
      modifies this
      ensures Inv(View()) && HasRole(View(), d, Dir)
      ensures Frame(old(View()), View(), d, {}) && UsersKept(old(View()), View())
      ensures newsz >= KERNBASE ==> r == 0 && View() == old(View())
      ensures newsz < KERNBASE && newsz < oldsz ==> r == oldsz && View() == old(View())
      ensures oldsz <= newsz < KERNBASE ==>
        || (r == newsz && Extends(old(View()), View(), d, Pages(oldsz), Pages(newsz)))
        || (r == 0 && SameMap(old(View()), View(), d)
            && a < Pages(newsz) && Growing(old(View()), low, d, Pages(oldsz), a) && Starved(low, d, a))
    {
      ghost var m := View();
      low, a := m, 0;
      if newsz >= KERNBASE { return 0, low, a; }
      if newsz < oldsz { return oldsz, low, a; }
      var i := Pages(oldsz);
      while i * PGSIZE < newsz
        invariant Pages(oldsz) <= i <= Pages(newsz) && Inv(View()) && HasRole(View(), d, Dir)
        invariant Growing(m, View(), d, Pages(oldsz), i)
        decreases Pages(newsz) - i
      {
        ghost var m1 := View();
        assert At(m, d, i) == Absent;
        var mem, ok := Place(d, i, Zeros(), USER);
        if !ok {
          ghost var m2 := View();
          var _ := DeallocUvm(d, newsz, oldsz);
          ghost var m3 := View();
          RollBack(m, m1, m2, m3, d, Pages(oldsz), i, Pages(newsz));
          if mem.Some? {
            DropFrame(m1, m2, m3, d, mem.value);
            DropHeld(m, m3, d, mem.value);
            Kfree(mem.value);
          }
          FrameTrans(m, m1, View(), d);
          return 0, m1, i;
        }
        GrowNext(m, m1, View(), d, Pages(oldsz), i);
        i := i + 1;
      }
      r := newsz;
    }

    // Everything the address space owns goes back to the free list.
    method FreeVm(d: nat)
      requires Inv(View()) && HasRole(View(), d, Dir)
      modifies this
      ensures Inv(View()) && Released(old(View()), View(), d)
    {
      ghost var m := View();
      var _ := DeallocUvm(d, KERNBASE, 0);
      ghost var m1 := View();
      NoUsersLeft(m, m1, d);
      assert DirOk(m1, d, 0);
      for i := 0 to N
        invariant TablesFreed(m1, View(), d, i) && ListInv(View())
      {
        ghost var m2 := View();
        var pde := page[d].ptes[i];
        TableAt(m1, m2, d, i);
        if pde.Pte? { Kfree(pde.ppn); }
        TablesNext(m1, m2, View(), d, i);
      }
      ghost var m2 := View();
      Kfree(d);
      ReleasedRoles(m1, m2, View(), d);
      ReleasedInv(m1, View(), d);
      ReleasedAfter(m, m1, View(), d);
    }

    // An address space with the kernel mapped and nothing else; or no change.
    method SetupKvm(data: nat) returns (r: Option<nat>, ghost low: Mem)
      requires Inv(View()) && KERNLINK < data < KERNEND
      modifies this
      ensures Inv(View())
      ensures r.None? ==> Untouched(old(View()), View()) && RanOut(old(View()), low)
      ensures r.Some? ==> NewSpace(old(View()), View(), r.value) && KernelUpTo(View(), r.value, data, N * N)
      ensures r.Some? ==> NoUserTables(View(), r.value)
    {
      ghost var m := View();
      low := m;
      var k := Kalloc();
      if k.None? { return None, low; }
      var d := k.value;
      Fill(d, Blank());
      ghost var m1 := View();
      StartedKeeps(m1, d);
      role := role[d := Dir];
      SpaceStarts(m, m1, View(), d, data);
      for i := 0 to 4
        invariant Inv(View()) && NewSpace(m, View(), d) && KernelUpTo(View(), d, data, Upto(data, i))
        invariant NoUserTables(View(), d)
      {
        var e := KernelMap(data, i);
        ghost var m2 := View();
        KernelNotUser(e.virt, e.n, e.phys);
        assert Upto(data, i) <= e.virt;
        ghost var done;
        var ok;
        ok, done := MapPages(d, e.virt, e.n, e.phys, e.perm);
        SpaceGrows(m, m2, View(), d);
        if !ok {
          ghost var m3 := View();
          FreeVm(d);
          NothingLeft(m, m3, View(), d);
          assert Starved(m3, d, e.virt + done);
          return None, m3;
        }
        KernelNext(m2, View(), d, data, i);
      }
      r := Some(d);
    }

    // A child with the parent's pages from page 1 on (page 0 is never mapped here),
    // each copied; or no change. The parent's pages must all be present.
    method CopyUvm(parent: nat, sz: nat, data: nat) returns (r: Option<nat>, ghost low: Mem)
      requires Inv(View()) && HasRole(View(), parent, Dir) && sz <= KERNBASE && KERNLINK < data < KERNEND
      requires forall v: nat | 1 <= v < Pages(sz) :: At(View(), parent, v).Pte?
      modifies this
      ensures Inv(View())
      ensures r.None? ==> Untouched(old(View()), View()) && RanOut(old(View()), low)
      ensures r.Some? ==> NewSpace(old(View()), View(), r.value)
      ensures r.Some? ==> Copied(old(View()), View(), parent, r.value, data, Max(1, Pages(sz)))
    {
      ghost var m := View();
      var k;
      k, low := SetupKvm(data);
      if k.None? { return None, low; }
      var d := k.value;
      var i := 1;
      while i * PGSIZE < sz
        invariant 1 <= i <= Max(1, Pages(sz)) && Inv(View()) && NewSpace(m, View(), d)
        invariant Copied(m, View(), parent, d, data, i)
        decreases Pages(sz) - i
      {
        low := View();
        var good := CopyPage(m, parent, d, data, i);
        if !good { return None, low; }
        i := i + 1;
      }
      r := Some(d);
    }

    // One turn of copyuvm(), including its way out.
    method CopyPage(ghost m: Mem, parent: nat, d: nat, data: nat, i: nat) returns (good: bool)
      requires Inv(m) && HasRole(m, parent, Dir) && 1 <= i && IsUser(i) && At(m, parent, i).Pte?
      requires KERNLINK < data < KERNEND
      requires Inv(View()) && NewSpace(m, View(), d) && Copied(m, View(), parent, d, data, i)
      modifies this
      ensures Inv(View())
      ensures good ==> NewSpace(m, View(), d) && Copied(m, View(), parent, d, data, i + 1)
      ensures !good ==> Untouched(m, View()) && old(Starved(View(), d, i))
    {
      ghost var m1 := View();
      Bystander(m, m1, d, parent, i);
      assert At(m1, d, i) == Absent;
      var t := WalkPgdir(parent, i / N, false);
      TableOf1(m1, parent, i, t.value);
      var pte := page[t.value].ptes[i % N];
      var mem, ok := Place(d, i, page[pte.ppn], pte.perm);
      if ok {
        CopyNext(m, m1, View(), parent, d, data, i);
        return true;
      }
      GiveUp(m, m1, d, mem);
      good := false;
    }

    // copyuvm() after `bad`, with the page in hand if there is one.
    method GiveUp(ghost m: Mem, ghost m1: Mem, d: nat, mem: Option<nat>)
      requires Inv(m) && NewSpace(m, m1, d) && Inv(View()) && HasRole(View(), d, Dir) && UsersKept(m1, View())
      requires if mem.Some? then InFlight(m1, View(), d, mem.value) else View() == m1
      modifies this
      ensures Inv(View()) && Untouched(m, View())
    {
      ghost var m2 := View();
      if mem.Some? {
        DropFrame(m1, m2, m2, d, mem.value);
        GivenKeeps(m2, mem.value);
        GivenUsers(m1, m2, mem.value);
        Kfree(mem.value);
      }
      SpaceGrows(m, m1, View(), d);
      ghost var m3 := View();
      FreeVm(d);
      NothingLeft(m, m3, View(), d);
    }

    // The physical page behind a user page. The code reads the entry through the null
    // pointer that walkpgdir() returns where there is no table: the kernel faults.
    method Uva2ka(d: nat, v: nat) returns (r: Kva)
      requires Inv(View()) && HasRole(View(), d, Dir) && v < N * N
      modifies this
      ensures View() == old(View())
      ensures r.Fault? <==> NoTable(View(), d, v)
      ensures r.Kva? <==> UserPage(View(), d, v)
      ensures r.Kva? ==> r.ppn == At(View(), d, v).ppn
    {
      var t := WalkPgdir(d, v / N, false);
      if t.None? { return Fault; }
      assert TableOk(View(), t.value, d, v / N);
      var pte := page[t.value].ptes[v % N];
      if pte == Absent || !pte.perm.user { return Null; }
      r := Kva(pte.ppn);
    }

    // buf goes to user memory at va, byte for byte, up to the first byte whose page is
    // no user page. There the code returns -1 if the directory has a table for it, and
    // faults if not.
    method CopyOut(d: nat, va0: nat, buf: seq<nat>) returns (o: Copying, ghost k: nat)
      requires Inv(View()) && HasRole(View(), d, Dir) && KernelClosed(View(), d) && va0 < N * N * PGSIZE
      modifies this
      ensures Inv(View()) && HasRole(View(), d, Dir) && Wrote(old(View()), View(), d, va0, buf, k)
      ensures AllUser(old(View()), d, va0, k) && (o.Complete? <==> k == |buf|)
      ensures Stops(old(View()), d, va0 + k, o)
    {
      ghost var m := View();
      var va, at, len := va0, 0, |buf|;
      k := 0;
      while len > 0
        invariant Inv(View()) && HasRole(View(), d, Dir) && at == k && len == |buf| - k
        invariant Wrote(m, View(), d, va0, buf, k)
        invariant AllUser(m, d, va0, k) && (len > 0 ==> va == va0 + k && va < N * N * PGSIZE)
      {
        ghost var m1 := View();
        var v := va / PGSIZE;
        SamePages(m, m1, d, va0, buf, k, v);
        var pa := Uva2ka(d, v);
        if pa.Fault? { return Faulted, k; }
        if pa.Null? { return Refused, k; }
        var n := PGSIZE - (va - v * PGSIZE);
        if n > len { n := len; }
        var off, chunk := va - v * PGSIZE, buf[at..at + n];
        CopyTurn(m, m1, d, va0, buf, k, k + n, v, pa.ppn, off, chunk);
        Store(pa.ppn, off, chunk);
        at, len, k := at + n, len - n, k + n;
        va := (v + 1) * PGSIZE;
      }
      o := Complete;
    }

    // memmove() into a page.
    method Store(p: nat, o: nat, chunk: seq<nat>)
      requires p in page && page[p].Bytes? && o + |chunk| <= |page[p].data|
      modifies this
      ensures View() == Written(old(View()), p, o, chunk)
    {
      var data := page[p].data;
      page := page[p := Bytes(data[..o] + chunk + data[o + |chunk|..])];
    }

    // Every whole page of vstart..vend, first to last, goes on the free list.
    method FreeRange(vstart: nat, vend: nat)
      requires Inv(View()) && forall p: nat | Pages(vstart) <= p < vend / PGSIZE :: p in role && role[p] == Held
      modifies this
      ensures Inv(View())
      ensures forall p: nat :: p in free <==> p in old(free) || Pages(vstart) <= p < vend / PGSIZE
    {
      var p := Pages(vstart);
      while (p + 1) * PGSIZE <= vend
        invariant Inv(View()) && Pages(vstart) <= p
        invariant forall q: nat | p <= q < vend / PGSIZE :: q in role && role[q] == Held
        invariant forall q: nat :: q in free <==> q in old(free) || Pages(vstart) <= q < Mid(p, vend / PGSIZE)
        decreases vend - p * PGSIZE
      {
        GivenKeeps(View(), p);
        Kfree(p);
        p := p + 1;
      }
    }
  }

  function Mid(a: nat, b: nat): nat {
    if a < b then a else b
  }

  lemma Inside(m: Mem, m1: Mem, d: nat, v: nat)
    requires KernelClosed(m, d) && v < N * N && SameMap(m, m1, d) && UserPage(m1, d, v)
    ensures IsUser(v) && UserPage(m, d, v)
  {
    assert At(m1, d, v) == At(m, d, v);
    assert UserPage(m, d, v);
  }

  // What one turn of copyout() needs, and what it does.
  lemma CopyTurn(m: Mem, m1: Mem, d: nat, va: nat, buf: seq<nat>, k: nat, k': nat, v: nat,
                 p: nat, o: nat, chunk: seq<nat>)
    requires Inv(m) && HasRole(m, d, Dir) && KernelClosed(m, d) && Inv(m1) && HasRole(m1, d, Dir)
    requires Wrote(m, m1, d, va, buf, k)
    requires v == (va + k) / PGSIZE && v < N * N && UserPage(m1, d, v) && AllUser(m, d, va, k)
    requires k <= k' <= |buf| && (va + k) % PGSIZE + k' - k <= PGSIZE
    requires p == At(m1, d, v).ppn && o == (va + k) % PGSIZE && chunk == buf[k..k']
    ensures p in m1.page && m1.page[p].Bytes? && |m1.page[p].data| == PGSIZE
    ensures Inv(Written(m1, p, o, chunk)) && HasRole(Written(m1, p, o, chunk), d, Dir)
    ensures Wrote(m, Written(m1, p, o, chunk), d, va, buf, k') && AllUser(m, d, va, k')
  {
    Inside(m, m1, d, v);
    WrittenKeeps(m1, d, v, o, chunk);
    WroteMore(m, m1, Written(m1, p, o, chunk), d, va, buf, k, k' - k);
    AllUserMore(m, d, va, k, k' - k);
  }

  // copyout() changes no mapping, and no directory.
  lemma SamePages(m: Mem, m1: Mem, d: nat, va: nat, buf: seq<nat>, k: nat, v: nat)
    requires Inv(m) && HasRole(m, d, Dir) && Wrote(m, m1, d, va, buf, k) && v < N * N
    ensures UserPage(m1, d, v) == UserPage(m, d, v) && NoTable(m1, d, v) == NoTable(m, d, v)
  {
    assert At(m1, d, v) == At(m, d, v);
    assert DirOk(m, d, v / N) && !OwnUser(m, d, d);
  }

  lemma AllUserMore(m: Mem, d: nat, va: nat, k: nat, n: nat)
    requires AllUser(m, d, va, k) && va + k < N * N * PGSIZE && UserPage(m, d, (va + k) / PGSIZE)
    requires (va + k) % PGSIZE + n <= PGSIZE
    ensures AllUser(m, d, va, k + n)
  {
    forall x | va + k <= x < va + k + n ensures x / PGSIZE == (va + k) / PGSIZE {
    }
  }

  // The space that setupkvm() returns has no table for user memory, so until
  // something is allocated there uva2ka() faults at every user address, and
  // copyout() at its first byte.
  lemma NewSpaceFaults(m: Mem, d: nat, data: nat, va: nat)
    requires KERNLINK < data < KERNEND && KernelUpTo(m, d, data, N * N) && NoUserTables(m, d) && IsUser(va / PGSIZE)
    ensures KernelClosed(m, d) && NoTable(m, d, va / PGSIZE) && !UserPage(m, d, va / PGSIZE)
  {
  }
}
