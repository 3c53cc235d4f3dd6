// proc.c: the scans over ptable.proc, in place.

module ProcTable {
  import opened Wrappers
  import opened ProcFamily

  datatype Outcome = Reaped(pid: nat) | Refused | Asleep

  class Table {
    const proc: array<Proc>
    const initproc: nat
    var nextpid: nat
    ghost var exited: set<nat>
    ghost var reaped: seq<nat>

    ghost predicate Valid()
      reads this, proc
    {
      nextpid > 0 && Inv(proc[..], initproc, nextpid, exited, reaped)
    }

    // userinit(): one process, without a parent.
    constructor (n: nat, init: nat)
      requires init < n
      ensures Valid() && fresh(proc) && proc.Length == n && initproc == init && exited == {} && reaped == []
    {
      initproc, nextpid, exited, reaped := init, 2, {}, [];
      proc := new Proc[n](i =>
        if i == init then Proc(Runnable, 1, None, NoChan, false) else Proc(Unused, 0, None, NoChan, false));
    }

    // The first unused slot becomes an embryo with a new pid.
    method AllocProc() returns (r: Option<nat>)
      requires Valid()
      modifies this`nextpid, proc
      ensures Valid()
      ensures r.None? ==> nextpid == old(nextpid)
      ensures r.None? ==> proc[..] == old(proc[..]) && forall c | 0 <= c < proc.Length :: !proc[c].status.Unused?
      ensures r.Some? ==> r.value < proc.Length && old(proc[r.value]).status.Unused? && proc[r.value].parent.None?
      ensures r.Some? ==> forall c | 0 <= c < r.value :: !old(proc[c]).status.Unused?
      ensures r.Some? ==> nextpid == old(nextpid) + 1
      ensures r.Some? ==>
        proc[..] == old(proc[..])[r.value := old(proc[r.value]).(status := Embryo, pid := old(nextpid))]
    {
      var p := FindUnused();
      if p == proc.Length { return None; }
      Claim(p);
      r := Some(p);
    }

    // The search of allocproc().
    method FindUnused() returns (p: nat)
      ensures p <= proc.Length && (p < proc.Length ==> proc[p].status.Unused?)
      ensures forall c | 0 <= c < p :: !proc[c].status.Unused?
    {
      p := 0;
      while p < proc.Length && !proc[p].status.Unused?
        invariant p <= proc.Length && forall c | 0 <= c < p :: !proc[c].status.Unused?
      {
        p := p + 1;
      }
    }

    method Claim(p: nat)
      requires Valid() && p < proc.Length && proc[p].status.Unused?
      modifies this`nextpid, proc
      ensures Valid() && proc[p].parent.None? && nextpid == old(nextpid) + 1
      ensures proc[..] == old(proc[..])[p := old(proc[p]).(status := Embryo, pid := old(nextpid))]
    {
      ghost var t := proc[..];
      EmbryoKeeps(t, p, initproc, nextpid, exited, reaped);
      proc[p] := proc[p].(status := Embryo, pid := nextpid);
      assert proc[..] == t[p := t[p].(status := Embryo, pid := nextpid)];
      nextpid := nextpid + 1;
    }

    // fork() or allocproc() could not get memory.
    method GiveUp(np: nat)
      requires Valid() && np < proc.Length && proc[np].status.Embryo? && proc[np].parent.None?
      modifies proc
      ensures Valid() && proc[..] == old(proc[..])[np := old(proc[np]).(status := Unused)]
    {
      FreshKeeps(proc[..], np, proc[np].(status := Unused), initproc, nextpid, exited, reaped);
      ghost var t := proc[..][np := proc[np].(status := Unused)];
      proc[np] := proc[np].(status := Unused);
      assert proc[..] == t;
    }

    // fork() names itself the parent, without the lock, while nobody runs the slot.
    method Adopt(np: nat, cur: nat)
      requires Valid() && np < proc.Length && proc[np].status.Embryo? && proc[np].parent.None?
      requires cur < proc.Length && proc[cur].status.Running?
      modifies proc
      ensures Valid() && proc[..] == old(proc[..])[np := old(proc[np]).(parent := Some(cur))]
    {
      ghost var q := proc[np].(parent := Some(cur));
      assert Alive(proc[..][cur]);
      FreshKeeps(proc[..], np, q, initproc, nextpid, exited, reaped);
      ghost var t := proc[..][np := q];
      proc[np] := proc[np].(parent := Some(cur));
      assert proc[..] == t;
    }

    // The end of fork(), under the lock.
    method Publish(np: nat) returns (pid: nat)
      requires Valid() && np < proc.Length && proc[np].status.Embryo? && proc[np].parent.Some?
      modifies proc
      ensures Valid() && pid == old(proc[np]).pid
      ensures proc[..] == old(proc[..])[np := old(proc[np]).(status := Runnable)]
    {
      ghost var q := proc[np].(status := Runnable);
      assert proc[..][np].parent.Some?;
      FreshKeeps(proc[..], np, q, initproc, nextpid, exited, reaped);
      ghost var t := proc[..][np := q];
      pid := proc[np].pid;
      proc[np] := proc[np].(status := Runnable);
      assert proc[..] == t;
    }

    method Wakeup1(ch: Chan)
      modifies proc
      ensures proc[..] == Woken(old(proc[..]), ch)
      ensures forall c | 0 <= c < proc.Length :: !(proc[c].status.Sleeping? && proc[c].chan == ch)
      ensures forall c | 0 <= c < proc.Length ::
        if old(proc[c]).status.Sleeping? && old(proc[c]).chan == ch then proc[c] == old(proc[c]).(status := Runnable)
        else proc[c] == old(proc[c])
    {
      for p := 0 to proc.Length
        invariant forall c | 0 <= c < proc.Length ::
          proc[c] == if c < p && SleepsOn(old(proc[c]), ch) then old(proc[c]).(status := Runnable) else old(proc[c])
      {
        if proc[p].status.Sleeping? && proc[p].chan == ch { proc[p] := proc[p].(status := Runnable); }
      }
    }

    // exit(): the parent is woken, children go to init, and only then the process
    // is a zombie.
    method Exit(cur: nat)
      requires Valid() && cur < proc.Length && cur != initproc && proc[cur].status.Running?
      modifies proc, this`exited
      ensures Valid() && exited == old(exited) + {old(proc[cur]).pid}
      ensures proc[..] == ExitTable(old(proc[..]), cur, initproc)
    {
      ghost var t := proc[..];
      if proc[cur].parent.Some? { Wakeup1(OfProc(proc[cur].parent.value)); }
      HandOver(cur);
      proc[cur] := proc[cur].(status := Zombie);
      assert proc[..] == ExitTable(t, cur, initproc);
      ExitKeeps(t, cur, initproc, nextpid, exited, reaped);
      exited := exited + {t[cur].pid};
    }

    // The reparenting loop.
    method HandOver(cur: nat)
      modifies proc
      ensures proc[..] == Reparented(old(proc[..]), cur, initproc, proc.Length)
    {
      ghost var t := proc[..];
      for p := 0 to proc.Length
        invariant proc[..] == Reparented(t, cur, initproc, p)
      {
        ghost var r := proc[..];
        assert proc[p].parent == t[p].parent && proc[p].status.Zombie? == t[p].status.Zombie?;
        if proc[p].parent == Some(cur) {
          proc[p] := proc[p].(parent := Some(initproc));
          assert proc[..] == r[p := r[p].(parent := Some(initproc))];
          if proc[p].status.Zombie? { Wakeup1(OfProc(initproc)); }
        }
        ReparentedNext(t, proc[..], cur, initproc, p);
      }
    }

    // One round of wait(): a zombie child is reaped, once; without children (or
    // killed) the call fails; otherwise the parent sleeps, with no zombie child.
    method Wait(cur: nat) returns (o: Outcome, ghost child: nat)
      requires Valid() && cur < proc.Length && proc[cur].status.Running?
      modifies proc, this`reaped
      ensures Valid()
      ensures o.Reaped? ==> child < proc.Length && IsChild(old(proc[child]), cur) && old(proc[child]).status.Zombie?
      ensures o.Reaped? ==> o.pid == old(proc[child]).pid && o.pid !in old(reaped) && reaped == old(reaped) + [o.pid]
      ensures o.Reaped? ==> NoZombieChild(old(proc[..])[..child], cur)
      ensures o.Reaped? ==> proc[..] == old(proc[..])[child := Proc(Unused, 0, None, old(proc[child]).chan, false)]
      ensures !o.Reaped? ==> reaped == old(reaped) && NoZombieChild(old(proc[..]), cur)
      ensures o.Refused? ==> proc[..] == old(proc[..]) && (proc[cur].killed || Childless(proc[..], cur))
      ensures o.Asleep? ==> !Childless(old(proc[..]), cur) && !old(proc[cur]).killed
      ensures o.Asleep? ==> proc[..] == old(proc[..])[cur := old(proc[cur]).(status := Sleeping, chan := OfProc(cur))]
    {
      ghost var t := proc[..];
      assert t[..0] == [];
      var havekids := false;
      child := 0;
      for p := 0 to proc.Length
        invariant proc[..] == t && reaped == old(reaped)
        invariant havekids <==> !Childless(t[..p], cur)
        invariant NoZombieChild(t[..p], cur)
      {
        assert proc[p] == t[p];
        ScanNext(t, cur, p);
        if proc[p].parent == Some(cur) {
          havekids := true;
          assert IsChild(t[p], cur);
          if proc[p].status.Zombie? {
            ReapKeeps(t, cur, p, initproc, nextpid, exited, reaped);
            o, child := Reaped(proc[p].pid), p;
            reaped := reaped + [proc[p].pid];
            proc[p] := proc[p].(pid := 0, parent := None, killed := false, status := Unused);
            assert proc[..] == ReapTable(t, p);
            return;
          }
        }
      }
      assert t[..proc.Length] == t;
      if !havekids || proc[cur].killed { return Refused, child; }
      WaitKeeps(t, cur, initproc, nextpid, exited, reaped);
      proc[cur] := proc[cur].(chan := OfProc(cur), status := Sleeping);
      assert proc[..] == WaitTable(t, cur);
      o := Asleep;
    }

    // The process with that pid is marked, and woken if asleep.
    method Kill(pid: nat) returns (ok: bool, ghost c: nat)
      requires Valid()
      modifies proc
      ensures Valid()
      ensures !ok ==> proc[..] == old(proc[..]) && forall p | 0 <= p < proc.Length :: old(proc[..])[p].pid != pid
      ensures ok ==> c < proc.Length && old(proc[c]).pid == pid && forall d | 0 <= d < c :: old(proc[..])[d].pid != pid
      ensures ok ==> proc[..] == old(proc[..])[c := old(proc[c]).(killed := true,
        status := if old(proc[c]).status.Sleeping? then Runnable else old(proc[c]).status)]
    {
      ghost var t := proc[..];
      var p := FindPid(pid);
      ok, c := p < proc.Length, p;
      if ok {
        ghost var q := t[p].(killed := true, status := if t[p].status.Sleeping? then Runnable else t[p].status);
        StatusKeeps(t, p, q, initproc, nextpid, exited, reaped);
        proc[p] := proc[p].(killed := true);
        if proc[p].status.Sleeping? { proc[p] := proc[p].(status := Runnable); }
        assert proc[..] == t[p := q];
      }
    }

    // The search of kill().
    method FindPid(pid: nat) returns (p: nat)
      ensures p <= proc.Length && (p < proc.Length ==> proc[p].pid == pid)
      ensures forall d | 0 <= d < p :: proc[..][d].pid != pid
    {
      p := 0;
      while p < proc.Length && proc[p].pid != pid
        invariant p <= proc.Length && forall d | 0 <= d < p :: proc[d].pid != pid
      {
        p := p + 1;
      }
    }

    // scheduler() and yield() move a process between Runnable and Running.
    method SetRunning(p: nat, running: bool)
      requires Valid() && p < proc.Length && proc[p].status == if running then Runnable else Running
      modifies proc
      ensures Valid() && proc[..] == old(proc[..])[p := old(proc[p]).(status := if running then Running else Runnable)]
    {
      ghost var t := proc[..];
      var q := proc[p].(status := if running then Running else Runnable);
      StatusKeeps(t, p, q, initproc, nextpid, exited, reaped);
      proc[p] := q;
      assert proc[..] == t[p := q];
    }

    // sleep() on anything but a process.
    method SleepOn(p: nat, id: nat)
      requires Valid() && p < proc.Length && proc[p].status.Running?
      modifies proc
      ensures Valid() && proc[..] == old(proc[..])[p := old(proc[p]).(chan := Other(id), status := Sleeping)]
    {
      ghost var t := proc[..];
      var q := proc[p].(chan := Other(id), status := Sleeping);
      StatusKeeps(t, p, q, initproc, nextpid, exited, reaped);
      proc[p] := q;
      assert proc[..] == t[p := q];
    }

    // wakeup() on any channel.
    method Wakeup(ch: Chan)
      requires Valid()
      modifies proc
      ensures Valid() && proc[..] == Woken(old(proc[..]), ch)
      ensures forall c | 0 <= c < proc.Length :: !(proc[c].status.Sleeping? && proc[c].chan == ch)
      ensures forall c | 0 <= c < proc.Length ::
        if old(proc[c]).status.Sleeping? && old(proc[c]).chan == ch then proc[c] == old(proc[c]).(status := Runnable)
        else proc[c] == old(proc[c])
    {
      WokenReruns(proc[..], ch);
      RerunsKeep(proc[..], Woken(proc[..], ch), initproc, nextpid, exited, reaped);
      Wakeup1(ch);
    }
  }

  ghost predicate NoZombieChild(t: seq<Proc>, cur: nat) {
    forall c | 0 <= c < |t| && IsChild(t[c], cur) :: !t[c].status.Zombie?
  }

  ghost predicate Childless(t: seq<Proc>, cur: nat) {
    forall c | 0 <= c < |t| :: !IsChild(t[c], cur)
  }

  lemma ScanNext(t: seq<Proc>, cur: nat, p: nat)
    requires p < |t|
    ensures Childless(t[..p + 1], cur) <==> Childless(t[..p], cur) && !IsChild(t[p], cur)
    ensures NoZombieChild(t[..p + 1], cur) <==>
      NoZombieChild(t[..p], cur) && !(IsChild(t[p], cur) && t[p].status.Zombie?)
  {
    assert t[..p + 1] == t[..p] + [t[p]];
    assert t[..p + 1][p] == t[p];
    forall c | 0 <= c < p ensures t[..p + 1][c] == t[..p][c] {
    }
  }

  lemma ReparentedNext(t: seq<Proc>, now: seq<Proc>, cur: nat, init: nat, p: nat)
    requires p < |t| && |now| == |t|
    requires var r := Reparented(t, cur, init, p);
      now == if IsChild(t[p], cur) then
        (var u := r[p := r[p].(parent := Some(init))]; if t[p].status.Zombie? then Woken(u, OfProc(init)) else u) else r
    ensures now == Reparented(t, cur, init, p + 1)
  {
    assert HasZombie(t, cur, p + 1) <==> HasZombie(t, cur, p) || (IsChild(t[p], cur) && t[p].status.Zombie?);
  }

  // One slot that is not and does not become a zombie.
  lemma SlotHistory(t: seq<Proc>, p: nat, q: Proc, nextpid: nat, nextpid': nat, exited: set<nat>, reaped: seq<nat>)
    requires History(t, nextpid, exited, reaped) && p < |t| && !t[p].status.Zombie? && !q.status.Zombie?
    requires nextpid <= nextpid' && (!q.status.Unused? ==> q.pid !in exited)
    ensures History(t[p := q], nextpid', exited, reaped)
  {
    var t' := t[p := q];
    forall x | x in exited ensures x < nextpid' && (x in reaped || IsZombie(t', x)) {
      if x !in reaped {
        var c :| 0 <= c < |t| && t[c].status.Zombie? && t[c].pid == x;
        assert t'[c].status.Zombie? && t'[c].pid == x;
      }
    }
  }

  // An embryo or unused slot, and what allocproc() and fork() make of it.
  ghost predicate Fresh(t: seq<Proc>, p: nat, q: Proc) {
    && p < |t| && (t[p].status.Unused? || t[p].status.Embryo?)
    && match q.parent
       case None => t[p].parent.None? && (q.status.Unused? || q.status.Embryo?)
       case Some(cur) => (q.status.Embryo? || q.status.Runnable?) && cur < |t| && Alive(t[cur])
  }

  lemma FreshFamilies(t: seq<Proc>, p: nat, q: Proc, init: nat)
    requires Families(t, init) && NoneMissed(t) && Fresh(t, p, q)
    ensures Families(t[p := q], init) && NoneMissed(t[p := q])
  {
    forall c | 0 <= c < |t| && t[c].parent.Some? ensures t[c].parent.value != p {
      assert Alive(t[t[c].parent.value]);
    }
  }

  lemma EmbryoKeeps(t: seq<Proc>, p: nat, init: nat, nextpid: nat, exited: set<nat>, reaped: seq<nat>)
    requires Inv(t, init, nextpid, exited, reaped) && p < |t| && t[p].status.Unused? && nextpid > 0
    ensures Inv(t[p := t[p].(status := Embryo, pid := nextpid)], init, nextpid + 1, exited, reaped)
    ensures t[p].parent.None?
  {
    var q := t[p].(status := Embryo, pid := nextpid);
    FreshFamilies(t, p, q, init);
    SlotHistory(t, p, q, nextpid, nextpid + 1, exited, reaped);
    EmbryoPids(t, p, q, nextpid);
  }

  lemma EmbryoPids(t: seq<Proc>, p: nat, q: Proc, nextpid: nat)
    requires Pids(t, nextpid) && p < |t| && q.pid == nextpid && nextpid > 0
    ensures Pids(t[p := q], nextpid + 1)
  {
  }

  lemma SamePids(t: seq<Proc>, p: nat, q: Proc, nextpid: nat)
    requires Pids(t, nextpid) && p < |t| && q.pid == t[p].pid && !t[p].status.Unused?
    ensures Pids(t[p := q], nextpid)
  {
  }

  lemma FreshKeeps(t: seq<Proc>, p: nat, q: Proc, init: nat, nextpid: nat, exited: set<nat>, reaped: seq<nat>)
    requires Inv(t, init, nextpid, exited, reaped) && Fresh(t, p, q) && t[p].status.Embryo? && q.pid == t[p].pid
    ensures Inv(t[p := q], init, nextpid, exited, reaped)
  {
    FreshFamilies(t, p, q, init);
    SlotHistory(t, p, q, nextpid, nextpid, exited, reaped);
    SamePids(t, p, q, nextpid);
  }

  // A live process whose status changes, but not into a sleep in wait().
  lemma StatusKeeps(t: seq<Proc>, p: nat, q: Proc, init: nat, nextpid: nat, exited: set<nat>, reaped: seq<nat>)
    requires Inv(t, init, nextpid, exited, reaped) && p < |t| && q.pid == t[p].pid && q.parent == t[p].parent
    requires if Alive(t[p]) then Alive(q) else q.status == t[p].status
    requires !(q.status.Sleeping? && q.chan.OfProc?)
    ensures Inv(t[p := q], init, nextpid, exited, reaped)
  {
    var t' := t[p := q];
    assert !InWait(t', p);
    forall c | 0 <= c < |t|
      ensures t'[c].pid == t[c].pid && t'[c].parent == t[c].parent
      ensures if Alive(t[c]) then Alive(t'[c]) else t'[c].status == t[c].status
      ensures InWait(t', c) ==> InWait(t, c)
    {
      assert c != p ==> t'[c] == t[c];
    }
    assert Reruns(t, t');
    RerunsKeep(t, t[p := q], init, nextpid, exited, reaped);
  }
}
