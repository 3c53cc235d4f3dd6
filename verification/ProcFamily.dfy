// proc.c: parents and children in the process table, through fork, exit, wait,
// sleep, wakeup and kill. Each function is one section under ptable.lock.

module ProcFamily {
  import opened Wrappers

  datatype Status = Unused | Embryo | Sleeping | Runnable | Running | Zombie

  // wait() sleeps on the address of the waiting process itself.
  datatype Chan = NoChan | OfProc(p: nat) | Other(id: nat)

  datatype Proc = Proc(status: Status, pid: nat, parent: Option<nat>, chan: Chan, killed: bool)

  predicate Alive(p: Proc) {
    p.status.Sleeping? || p.status.Runnable? || p.status.Running?
  }

  predicate InWait(t: seq<Proc>, q: nat)
    requires q < |t|
  {
    t[q].status.Sleeping? && t[q].chan == OfProc(q)
  }

  // ---------------------------------------------------------------- the invariant

  // Every child has a parent that can still wait for it, and only init has none.
  ghost predicate Families(t: seq<Proc>, init: nat) {
    && init < |t| && Alive(t[init]) && t[init].parent.None?
    && (forall c | 0 <= c < |t| && t[c].parent.Some? ::
          t[c].parent.value < |t| && t[c].parent.value != c && Alive(t[t[c].parent.value]) && !t[c].status.Unused?)
    && (forall c | 0 <= c < |t| && c != init && (Alive(t[c]) || t[c].status.Zombie?) :: t[c].parent.Some?)
  }

  // No parent sleeps in wait() while it has a zombie child.
  ghost predicate NoneMissed(t: seq<Proc>) {
    forall c | 0 <= c < |t| && t[c].status.Zombie? && t[c].parent.Some? && t[c].parent.value < |t| ::
      !InWait(t, t[c].parent.value)
  }

  // Process ids of live slots are distinct.
  ghost predicate Pids(t: seq<Proc>, nextpid: nat) {
    && (forall c | 0 <= c < |t| && !t[c].status.Unused? :: 0 < t[c].pid < nextpid)
    && (forall c, d | 0 <= c < d < |t| && !t[c].status.Unused? && !t[d].status.Unused? :: t[c].pid != t[d].pid)
  }

  // What has become of the processes that exited: reaped once, or a zombie still.
  ghost predicate History(t: seq<Proc>, nextpid: nat, exited: set<nat>, reaped: seq<nat>) {
    && (forall i, j | 0 <= i < j < |reaped| :: reaped[i] != reaped[j])
    && (forall i | 0 <= i < |reaped| :: reaped[i] in exited)
    && (forall x | x in exited :: x < nextpid && (x in reaped || IsZombie(t, x)))
    && (forall c | 0 <= c < |t| && t[c].status.Zombie? :: t[c].pid in exited && t[c].pid !in reaped)
    && (forall c | 0 <= c < |t| && !t[c].status.Zombie? && !t[c].status.Unused? :: t[c].pid !in exited)
  }

  ghost predicate IsZombie(t: seq<Proc>, x: nat) {
    exists c :: 0 <= c < |t| && t[c].status.Zombie? && t[c].pid == x
  }

  ghost predicate Inv(t: seq<Proc>, init: nat, nextpid: nat, exited: set<nat>, reaped: seq<nat>) {
    Families(t, init) && NoneMissed(t) && Pids(t, nextpid) && History(t, nextpid, exited, reaped)
  }

  // ---------------------------------------------------------------- the operations as functions

  predicate SleepsOn(p: Proc, ch: Chan) {
    p.status.Sleeping? && p.chan == ch
  }

  // wakeup1()
  function Woken(t: seq<Proc>, ch: Chan): seq<Proc> {
    seq(|t|, c requires 0 <= c < |t| => if SleepsOn(t[c], ch) then t[c].(status := Runnable) else t[c])
  }

  predicate IsChild(p: Proc, q: nat) {
    p.parent == Some(q)
  }

  // The reparenting loop of exit(), after n slots.
  predicate HasZombie(t: seq<Proc>, cur: nat, n: nat) {
    exists c :: 0 <= c < n <= |t| && IsChild(t[c], cur) && t[c].status.Zombie?
  }

  function Reparented(t: seq<Proc>, cur: nat, init: nat, n: nat): seq<Proc> {
    seq(|t|, c requires 0 <= c < |t| =>
      var p := if HasZombie(t, cur, n) && SleepsOn(t[c], OfProc(init)) then t[c].(status := Runnable) else t[c];
      if c < n && IsChild(t[c], cur) then p.(parent := Some(init)) else p)
  }

  function ExitTable(t: seq<Proc>, cur: nat, init: nat): seq<Proc>
    requires cur < |t|
  {
    var woken := match t[cur].parent case Some(q) => Woken(t, OfProc(q)) case None => t;
    var t1 := Reparented(woken, cur, init, |t|);
    t1[cur := t1[cur].(status := Zombie)]
  }

  // wait() on the zombie child c.
  function ReapTable(t: seq<Proc>, c: nat): seq<Proc>
    requires c < |t|
  {
    t[c := Proc(Unused, 0, None, t[c].chan, false)]
  }

  // sleep() in wait()
  function WaitTable(t: seq<Proc>, cur: nat): seq<Proc>
    requires cur < |t|
  {
    t[cur := t[cur].(status := Sleeping, chan := OfProc(cur))]
  }

  // ---------------------------------------------------------------- each keeps the invariant

  // A change of the status of live processes that puts nobody to sleep in wait().
  ghost predicate Reruns(t: seq<Proc>, t': seq<Proc>) {
    && |t'| == |t|
    && forall c | 0 <= c < |t| ::
      && t'[c].pid == t[c].pid && t'[c].parent == t[c].parent
      && (if Alive(t[c]) then Alive(t'[c]) else t'[c].status == t[c].status)
      && (InWait(t', c) ==> InWait(t, c))
  }

  lemma RerunsFamilies(t: seq<Proc>, t': seq<Proc>, init: nat)
    requires Families(t, init) && Reruns(t, t')
    ensures Families(t', init)
  {
  }

  lemma RerunsMissed(t: seq<Proc>, t': seq<Proc>)
    requires NoneMissed(t) && Reruns(t, t')
    ensures NoneMissed(t')
  {
  }

  lemma RerunsPids(t: seq<Proc>, t': seq<Proc>, nextpid: nat)
    requires Pids(t, nextpid) && Reruns(t, t')
    ensures Pids(t', nextpid)
  {
  }

  lemma RerunsHistory(t: seq<Proc>, t': seq<Proc>, nextpid: nat, exited: set<nat>, reaped: seq<nat>)
    requires History(t, nextpid, exited, reaped) && Reruns(t, t')
    ensures History(t', nextpid, exited, reaped)
  {
    forall x | x in exited ensures x < nextpid && (x in reaped || IsZombie(t', x)) {
      if x !in reaped {
        var c :| 0 <= c < |t| && t[c].status.Zombie? && t[c].pid == x;
        assert t'[c].status.Zombie? && t'[c].pid == x;
      }
    }
  }

  lemma RerunsKeep(t: seq<Proc>, t': seq<Proc>, init: nat, nextpid: nat, exited: set<nat>, reaped: seq<nat>)
    requires Inv(t, init, nextpid, exited, reaped) && Reruns(t, t')
    ensures Inv(t', init, nextpid, exited, reaped)
  {
    RerunsFamilies(t, t', init);
    RerunsMissed(t, t');
    RerunsPids(t, t', nextpid);
    RerunsHistory(t, t', nextpid, exited, reaped);
  }

  lemma WokenReruns(t: seq<Proc>, ch: Chan)
    ensures Reruns(t, Woken(t, ch)) && (ch.OfProc? && ch.p < |t| ==> !InWait(Woken(t, ch), ch.p))
  {
  }

  // -- exit()

  // Abandoned children go to init, which is woken if one of them is a zombie.
  ghost predicate Handed(t: seq<Proc>, t': seq<Proc>, cur: nat, init: nat) {
    && |t'| == |t|
    && forall c | 0 <= c < |t| ::
      && t'[c].pid == t[c].pid && t'[c].parent == (if IsChild(t[c], cur) then Some(init) else t[c].parent)
      && (if Alive(t[c]) then Alive(t'[c]) else t'[c].status == t[c].status)
      && (InWait(t', c) ==> InWait(t, c) && (c == init ==> !HasZombie(t, cur, |t|)))
  }

  lemma ReparentedHands(t: seq<Proc>, cur: nat, init: nat)
    ensures Handed(t, Reparented(t, cur, init, |t|), cur, init)
  {
  }

  lemma HandedFamilies(t: seq<Proc>, t': seq<Proc>, cur: nat, init: nat)
    requires Families(t, init) && Handed(t, t', cur, init) && cur < |t| && cur != init
    ensures Families(t', init) && forall c | 0 <= c < |t'| :: !IsChild(t'[c], cur)
  {
  }

  lemma HandedMissed(t: seq<Proc>, t': seq<Proc>, cur: nat, init: nat)
    requires Families(t, init) && NoneMissed(t) && Handed(t, t', cur, init)
    ensures NoneMissed(t')
  {
    forall c | 0 <= c < |t'| && t'[c].status.Zombie? && t'[c].parent.Some? && t'[c].parent.value < |t'|
      ensures !InWait(t', t'[c].parent.value)
    {
      if IsChild(t[c], cur) { assert HasZombie(t, cur, |t|); }
    }
  }

  lemma HandedRest(t: seq<Proc>, t': seq<Proc>, cur: nat, init: nat, nextpid: nat, exited: set<nat>, reaped: seq<nat>)
    requires Pids(t, nextpid) && History(t, nextpid, exited, reaped) && Handed(t, t', cur, init)
    ensures Pids(t', nextpid) && History(t', nextpid, exited, reaped)
  {
    forall x | x in exited ensures x < nextpid && (x in reaped || IsZombie(t', x)) {
      if x !in reaped {
        var c :| 0 <= c < |t| && t[c].status.Zombie? && t[c].pid == x;
        assert t'[c].status.Zombie? && t'[c].pid == x;
      }
    }
  }

  lemma DiesHistory(t: seq<Proc>, t': seq<Proc>, cur: nat, nextpid: nat, exited: set<nat>, reaped: seq<nat>)
    requires Pids(t, nextpid) && History(t, nextpid, exited, reaped) && cur < |t| && Alive(t[cur])
    requires t' == t[cur := t[cur].(status := Zombie)]
    ensures History(t', nextpid, exited + {t[cur].pid}, reaped)
  {
    forall x | x in exited + {t[cur].pid} ensures x < nextpid && (x in reaped || IsZombie(t', x)) {
      if x == t[cur].pid {
        assert t'[cur].status.Zombie?;
      } else if x !in reaped {
        var c :| 0 <= c < |t| && t[c].status.Zombie? && t[c].pid == x;
        assert t'[c].status.Zombie? && t'[c].pid == x;
      }
    }
  }

  // A childless process whose parent is awake turns into a zombie.
  lemma DiesKeeps(t: seq<Proc>, t': seq<Proc>, cur: nat, init: nat)
    requires Families(t, init) && NoneMissed(t) && cur < |t| && cur != init && Alive(t[cur])
    requires forall c | 0 <= c < |t| :: !IsChild(t[c], cur)
    requires t[cur].parent.Some? ==> !InWait(t, t[cur].parent.value)
    requires t' == t[cur := t[cur].(status := Zombie)]
    ensures Families(t', init) && NoneMissed(t')
  {
  }

  lemma HandedKeeps(t: seq<Proc>, t': seq<Proc>, cur: nat, init: nat, nextpid: nat, exited: set<nat>, reaped: seq<nat>)
    requires Inv(t, init, nextpid, exited, reaped) && Handed(t, t', cur, init) && cur < |t| && cur != init
    ensures Inv(t', init, nextpid, exited, reaped) && forall c | 0 <= c < |t'| :: !IsChild(t'[c], cur)
  {
    HandedFamilies(t, t', cur, init);
    HandedMissed(t, t', cur, init);
    HandedRest(t, t', cur, init, nextpid, exited, reaped);
  }

  lemma Dies(t: seq<Proc>, t': seq<Proc>, cur: nat, init: nat, nextpid: nat, exited: set<nat>, reaped: seq<nat>)
    requires Inv(t, init, nextpid, exited, reaped) && cur < |t| && cur != init && Alive(t[cur])
    requires forall c | 0 <= c < |t| :: !IsChild(t[c], cur)
    requires t[cur].parent.Some? ==> !InWait(t, t[cur].parent.value)
    requires t' == t[cur := t[cur].(status := Zombie)]
    ensures Inv(t', init, nextpid, exited + {t[cur].pid}, reaped)
  {
    DiesKeeps(t, t', cur, init);
    DiesHistory(t, t', cur, nextpid, exited, reaped);
  }

  lemma ExitKeeps(t: seq<Proc>, cur: nat, init: nat, nextpid: nat, exited: set<nat>, reaped: seq<nat>)
    requires Inv(t, init, nextpid, exited, reaped) && cur < |t| && cur != init && t[cur].status.Running?
    ensures Inv(ExitTable(t, cur, init), init, nextpid, exited + {t[cur].pid}, reaped)
  {
    var q := t[cur].parent.value;
    var t1 := Woken(t, OfProc(q));
    WokenReruns(t, OfProc(q));
    RerunsKeep(t, t1, init, nextpid, exited, reaped);
    var t2 := Reparented(t1, cur, init, |t1|);
    ReparentedHands(t1, cur, init);
    HandedKeeps(t1, t2, cur, init, nextpid, exited, reaped);
    var t3 := t2[cur := t2[cur].(status := Zombie)];
    Dies(t2, t3, cur, init, nextpid, exited, reaped);
    assert t3 == ExitTable(t, cur, init);
  }

  // What exit() does to every process: it is a zombie itself, its children are
  // init's, and nobody sleeps on for its parent, nor for init if a zombie came to it.
  lemma ExitEffect(t: seq<Proc>, cur: nat, init: nat, c: nat)
    requires Families(t, init) && cur < |t| && cur != init && Alive(t[cur]) && c < |t|
    ensures var t' := ExitTable(t, cur, init);
      && |t'| == |t| && t'[c].parent == (if t[c].parent == Some(cur) then Some(init) else t[c].parent)
      && t'[c].pid == t[c].pid && t'[c].chan == t[c].chan && t'[c].killed == t[c].killed
      && t'[c].status ==
        if c == cur then Zombie
        else if !t[c].status.Sleeping? then t[c].status
        else if Some(t[c].chan) == OnParent(t[cur]) then Runnable
        else if t[c].chan == OfProc(init) && HasZombie(t, cur, |t|) then Runnable
        else Sleeping
  {
    WokenZombies(t, OfProc(t[cur].parent.value), cur);
  }

  lemma WokenZombies(t: seq<Proc>, ch: Chan, cur: nat)
    ensures |Woken(t, ch)| == |t| && HasZombie(Woken(t, ch), cur, |t|) == HasZombie(t, cur, |t|)
  {
    var u := Woken(t, ch);
    assert forall c | 0 <= c < |t| :: u[c].parent == t[c].parent && u[c].status.Zombie? == t[c].status.Zombie?;
  }

  function OnParent(p: Proc): Option<Chan> {
    match p.parent case Some(q) => Some(OfProc(q)) case None => None
  }

  // -- wait()

  lemma ReapHistory(t: seq<Proc>, c: nat, nextpid: nat, exited: set<nat>, reaped: seq<nat>)
    requires Pids(t, nextpid) && History(t, nextpid, exited, reaped) && c < |t| && t[c].status.Zombie?
    ensures History(ReapTable(t, c), nextpid, exited, reaped + [t[c].pid])
  {
    var t', reaped' := ReapTable(t, c), reaped + [t[c].pid];
    assert reaped'[|reaped|] == t[c].pid;
    forall x | x in exited ensures x < nextpid && (x in reaped' || IsZombie(t', x)) {
      if x !in reaped' {
        var d :| 0 <= d < |t| && t[d].status.Zombie? && t[d].pid == x;
        assert t'[d].status.Zombie? && t'[d].pid == x;
      }
    }
  }

  lemma ReapKeeps(t: seq<Proc>, cur: nat, c: nat, init: nat, nextpid: nat, exited: set<nat>, reaped: seq<nat>)
    requires Inv(t, init, nextpid, exited, reaped) && c < |t| && IsChild(t[c], cur) && t[c].status.Zombie?
    ensures Inv(ReapTable(t, c), init, nextpid, exited, reaped + [t[c].pid]) && t[c].pid !in reaped
  {
    ReapHistory(t, c, nextpid, exited, reaped);
    ReapFamilies(t, c, init);
  }

  lemma ReapFamilies(t: seq<Proc>, c: nat, init: nat)
    requires Families(t, init) && NoneMissed(t) && c < |t| && t[c].status.Zombie?
    ensures Families(ReapTable(t, c), init) && NoneMissed(ReapTable(t, c))
  {
  }

  lemma WaitFamilies(t: seq<Proc>, cur: nat, init: nat)
    requires Families(t, init) && NoneMissed(t) && cur < |t| && t[cur].status.Running?
    requires forall c | 0 <= c < |t| && IsChild(t[c], cur) :: !t[c].status.Zombie?
    ensures Families(WaitTable(t, cur), init) && NoneMissed(WaitTable(t, cur))
  {
  }

  lemma WaitKeeps(t: seq<Proc>, cur: nat, init: nat, nextpid: nat, exited: set<nat>, reaped: seq<nat>)
    requires Inv(t, init, nextpid, exited, reaped) && cur < |t| && t[cur].status.Running?
    requires forall c | 0 <= c < |t| && IsChild(t[c], cur) :: !t[c].status.Zombie?
    ensures Inv(WaitTable(t, cur), init, nextpid, exited, reaped)
  {
    var t' := WaitTable(t, cur);
    WaitFamilies(t, cur, init);
    forall x | x in exited ensures x < nextpid && (x in reaped || IsZombie(t', x)) {
      if x !in reaped {
        var c :| 0 <= c < |t| && t[c].status.Zombie? && t[c].pid == x;
        assert t'[c].status.Zombie? && t'[c].pid == x;
      }
    }
  }
}
