// Power cuts while filewrite runs: the transactions of one writer on the log
// machine, from the blocks it logs to the file a reboot finds.

module FsCrash {
  import opened Wrappers
  import opened FsDisk
  import opened FsInvariant
  import opened FsContent
  import opened FsWrite
  import opened FsFile
  import opened FsImage
  import L = CrashLog
  import K = CrashLogInvariant
  import T = CrashLogTheorems

  // ---------------------------------------------------------------- a writer on the log machine

  // states[t] is the file system after t transactions; the t-th logged txns[t].
  datatype Script = Script(states: seq<Fs>, txns: seq<set<nat>>)

  // No transaction changes a block it does not log.
  ghost predicate IsScript(g: Geo, w: Script) {
    && |w.states| == |w.txns| + 1 && g.ipb > 0 && (forall t | 0 <= t < |w.states| :: Sized(g, w.states[t]))
    && forall t: nat {:trigger w.txns[t]} | t < |w.txns| :: OnlyLogged(g, w.states[t], w.states[t + 1], w.txns[t])
  }

  // How many operations of p ended in the moments a..n.
  function Ended(labels: seq<L.Label>, p: nat, a: nat, n: nat): nat
    requires a <= n <= |labels|
  {
    if n == a then 0 else Ended(labels, p, a, n - 1) + if labels[n - 1] == L.End(p) then 1 else 0
  }

  // In its transaction t process p changes only the blocks of txns[t], and ends it
  // with those blocks as the script has them.  A last transaction that it never
  // ends may change anything.  Other processes may run operations too, without
  // changing blocks, and the power stays on.
  ghost predicate Scripted(c: L.Config, g: Geo, w: Script, p: nat, s: L.State, l: L.Label, t: nat)
    requires OnDisk(c, g) && IsScript(g, w) && |s.disk| == c.size
  {
    match l
    case Modify(q, b, _) => q == p && (t < |w.txns| ==> b in w.txns[t])
    case LogWrite(q, b) => q == p && t < |w.txns| ==> b in w.txns[t]
    case End(q) => q == p ==> t < |w.txns| && EndsWith(c, g, s, w.txns[t], w.states[t + 1])
    case Crash => false
    case _ => true
  }

  ghost predicate EndsWith(c: L.Config, g: Geo, s: L.State, logged: set<nat>, fs: Fs)
    requires OnDisk(c, g) && Sized(g, fs) && |s.disk| == c.size
  {
    forall b: nat {:trigger Image(g, fs, b)} | b in logged && L.Home(c, b) :: L.Logical(s, b) == Image(g, fs, b)
  }

  ghost predicate Follows(c: L.Config, g: Geo, w: Script, r: T.Run, p: nat, a: nat, n: nat)
    requires OnDisk(c, g) && IsScript(g, w) && T.IsRun(c, r) && a <= n <= |r.labels|
  {
    forall j: nat {:trigger ScriptedAt(c, g, w, r, p, a, j)} | a <= j < n :: ScriptedAt(c, g, w, r, p, a, j)
  }

  ghost predicate ScriptedAt(c: L.Config, g: Geo, w: Script, r: T.Run, p: nat, a: nat, j: nat)
    requires OnDisk(c, g) && IsScript(g, w) && a <= j < |r.labels| < |r.states|
  {
    |r.states[j].disk| == c.size && Scripted(c, g, w, p, r.states[j], r.labels[j], Ended(r.labels, p, a, j))
  }

  predicate InOp(s: L.State, p: nat) {
    p < |s.procs| && s.procs[p].In?
  }

  // After t transactions every process sees the script's state t, but for what the
  // transaction in progress has changed, and that one has logged only its own blocks.
  ghost predicate Tracks(c: L.Config, g: Geo, w: Script, p: nat, s: L.State, t: nat)
    requires OnDisk(c, g) && IsScript(g, w)
  {
    && L.Inv(c, s) && !L.Recovering(s) && t <= |w.txns|
    && (InOp(s, p) && t < |w.txns| ==> s.procs[p].wrote <= w.txns[t])
    && forall b: nat {:trigger Image(g, w.states[t], b)} |
         L.Home(c, b) && !(InOp(s, p) && (t == |w.txns| || b in w.txns[t])) ::
         L.Logical(s, b) == Image(g, w.states[t], b)
  }

  // Nothing is in progress and everybody sees the script's first state.
  ghost predicate Starts(c: L.Config, g: Geo, w: Script, s: L.State)
    requires OnDisk(c, g) && IsScript(g, w)
  {
    && L.Inv(c, s) && s.pc.Idle? && s.outstanding == 0
    && forall b: nat {:trigger Image(g, w.states[0], b)} | L.Home(c, b) :: L.Logical(s, b) == Image(g, w.states[0], b)
  }

  // ---------------------------------------------------------------- one step

  // With the power on, only changing a buffer changes what a process reads.
  lemma LogicalStays(c: L.Config, s: L.State, l: L.Label, b: nat)
    requires L.Layout(c) && L.Inv(c, s) && !L.Recovering(s) && L.Enabled(c, s, l) && !l.Modify? && !l.Crash?
    requires L.Home(c, b)
    ensures L.Inv(c, L.Next(c, s, l)) && !L.Recovering(L.Next(c, s, l))
    ensures L.Logical(L.Next(c, s, l), b) == L.Logical(s, b)
  {
    K.StepKeeps(c, s, l);
    match l {
      case Tick => T.TickDurable(c, s, b);
      case Read(x) => K.ReadKeeps(c, s, x);
      case Release(x) => K.ReleaseKeeps(c, s, x);
      case Evict(x) => K.EvictKeeps(c, s, x);
      case _ =>
    }
  }

  // What a step does to the operation of p.
  lemma OpAfter(c: L.Config, s: L.State, l: L.Label, p: nat)
    requires L.Layout(c) && |s.disk| == c.size && L.Enabled(c, s, l) && !l.Crash?
    ensures l == L.End(p) ==> InOp(s, p) && !InOp(L.Next(c, s, l), p)
    ensures l != L.End(p) && l != L.Begin(p) ==> InOp(L.Next(c, s, l), p) == InOp(s, p)
    ensures l != L.End(p) && InOp(L.Next(c, s, l), p) ==>
      var was := if InOp(s, p) then s.procs[p].wrote else {};
      L.Next(c, s, l).procs[p].wrote == if l.LogWrite? && l.p == p then was + {l.b} else was
  {
  }

  lemma StepTracks(c: L.Config, g: Geo, w: Script, p: nat, s: L.State, l: L.Label, s': L.State, t: nat, t': nat)
    requires OnDisk(c, g) && IsScript(g, w) && Tracks(c, g, w, p, s, t) && |s.disk| == c.size && L.Enabled(c, s, l)
    requires Scripted(c, g, w, p, s, l, t)
    requires s' == L.Next(c, s, l) && t' == if l == L.End(p) then t + 1 else t
    ensures Tracks(c, g, w, p, s', t')
  {
    K.StepKeeps(c, s, l);
    OpAfter(c, s, l, p);
    assert !L.Recovering(s') by { if !l.Modify? { LogicalStays(c, s, l, BBlock(g, 0)); } }
    forall b: nat | L.Home(c, b) && !(InOp(s', p) && (t' == |w.txns| || b in w.txns[t']))
      ensures L.Logical(s', b) == Image(g, w.states[t'], b)
    {
      TracksAt(c, g, w, p, s, l, t, b);
    }
  }

  lemma TracksAt(c: L.Config, g: Geo, w: Script, p: nat, s: L.State, l: L.Label, t: nat, b: nat)
    requires OnDisk(c, g) && IsScript(g, w) && Tracks(c, g, w, p, s, t) && |s.disk| == c.size && L.Enabled(c, s, l)
    requires Scripted(c, g, w, p, s, l, t) && L.Home(c, b)
    ensures var t' := if l == L.End(p) then t + 1 else t;
      t' <= |w.txns| &&
      (!(InOp(L.Next(c, s, l), p) && (t' == |w.txns| || b in w.txns[t'])) ==>
        L.Logical(L.Next(c, s, l), b) == Image(g, w.states[t'], b))
  {
    OpAfter(c, s, l, p);
    if !l.Modify? { LogicalStays(c, s, l, b); }
    if l == L.End(p) {
      if b in w.txns[t] {
        assert L.Logical(s, b) == Image(g, w.states[t + 1], b);
      } else {
        assert OnlyLogged(g, w.states[t], w.states[t + 1], w.txns[t]);
        UnloggedImage(g, w.states[t], w.states[t + 1], w.txns[t], b);
        assert L.Logical(s, b) == Image(g, w.states[t], b);
      }
    } else {
      assert !(InOp(s, p) && (t == |w.txns| || b in w.txns[t])) ==> L.Logical(s, b) == Image(g, w.states[t], b);
    }
  }

  lemma StartTracks(c: L.Config, g: Geo, w: Script, p: nat, s: L.State)
    requires OnDisk(c, g) && IsScript(g, w) && Starts(c, g, w, s)
    ensures Tracks(c, g, w, p, s, 0)
  {
    K.QuietWhenNone(s.procs);
  }

  lemma TracksOn(c: L.Config, g: Geo, w: Script, p: nat, s: L.State, l: L.Label, s': L.State, t: nat, t': nat)
    requires OnDisk(c, g) && IsScript(g, w) && |s.disk| == c.size && t' == if l == L.End(p) then t + 1 else t
    ensures Tracks(c, g, w, p, s, t) && T.StepTo(c, s, l, s') && Scripted(c, g, w, p, s, l, t)
        ==> Tracks(c, g, w, p, s', t')
  {
    if Tracks(c, g, w, p, s, t) && T.StepTo(c, s, l, s') && Scripted(c, g, w, p, s, l, t) {
      StepTracks(c, g, w, p, s, l, s', t, t');
    }
  }

  // ---------------------------------------------------------------- whole runs

  lemma {:induction false} RunTracks(c: L.Config, g: Geo, w: Script, r: T.Run, p: nat, a: nat, n: nat)
    requires OnDisk(c, g) && IsScript(g, w) && T.IsRun(c, r) && a <= n <= |r.labels|
    requires Starts(c, g, w, r.states[a]) && Follows(c, g, w, r, p, a, n)
    ensures Tracks(c, g, w, p, r.states[n], Ended(r.labels, p, a, n))
    decreases n - a
  {
    if n == a {
      StartTracks(c, g, w, p, r.states[a]);
    } else {
      RunTracks(c, g, w, r, p, a, n - 1);
      var t, t' := Ended(r.labels, p, a, n - 1), Ended(r.labels, p, a, n);
      assert T.StepAt(c, r, n - 1);
      assert ScriptedAt(c, g, w, r, p, a, n - 1);
      TracksOn(c, g, w, p, r.states[n - 1], r.labels[n - 1], r.states[n], t, t');
    }
  }

  // How many of p's transactions the disk holds at moment n: those that had ended
  // at the last commit.
  function Durable(r: T.Run, p: nat, a: nat, n: nat): nat
    requires a <= n <= |r.labels| < |r.states|
  {
    var k := T.LastCommit(r, n);
    if k < a then 0 else Ended(r.labels, p, a, k)
  }

  lemma {:induction false} EndedGrows(labels: seq<L.Label>, p: nat, a: nat, k: nat, n: nat)
    requires a <= k <= n <= |labels|
    ensures Ended(labels, p, a, k) <= Ended(labels, p, a, n)
    decreases n
  {
    if k < n { EndedGrows(labels, p, a, k, n - 1); }
  }

  ghost predicate DiskHolds(c: L.Config, g: Geo, disk: seq<L.Block>, fs: Fs)
    requires OnDisk(c, g) && Sized(g, fs)
  {
    && |disk| == c.size && L.ValidHeader(c, disk[c.start])
    && forall b: nat {:trigger Image(g, fs, b)} | L.Home(c, b) :: T.Recovered(c, disk, b) == Image(g, fs, b)
  }

  // Whenever the power fails, what recovery makes of the disk is one of the script's
  // states, with whole transactions only.
  lemma WholeTransactions(c: L.Config, g: Geo, w: Script, r: T.Run, p: nat, a: nat, n: nat)
    requires OnDisk(c, g) && IsScript(g, w) && T.IsRun(c, r) && a <= n <= |r.labels|
    requires Starts(c, g, w, r.states[a]) && Follows(c, g, w, r, p, a, n)
    ensures Durable(r, p, a, n) <= Ended(r.labels, p, a, n) <= |w.txns|
    ensures DiskHolds(c, g, r.states[n].disk, w.states[Durable(r, p, a, n)])
    // With no operation in progress every transaction that ended is on the disk.
    ensures r.states[n].pc.Idle? && r.states[n].outstanding == 0 ==>
      DiskHolds(c, g, r.states[n].disk, w.states[Ended(r.labels, p, a, n)])
  {
    RunTracks(c, g, w, r, p, a, n);
    var k, s := T.LastCommit(r, n), r.states[n];
    var d := Durable(r, p, a, n);
    if k >= a {
      EndedGrows(r.labels, p, a, k, n);
      RunTracks(c, g, w, r, p, a, k);
    }
    forall b: nat | L.Home(c, b) ensures T.Recovered(c, s.disk, b) == Image(g, w.states[d], b) {
      if k < a { BeforeCommit(c, g, w, r, a, n, b); } else { AtCommit(c, g, w, r, p, a, n, b); }
    }
    if s.pc.Idle? && s.outstanding == 0 {
      K.QuietWhenNone(s.procs);
      var e := Ended(r.labels, p, a, n);
      forall b: nat | L.Home(c, b) ensures T.Recovered(c, s.disk, b) == Image(g, w.states[e], b) {
        T.QuietIsDurable(c, s, b);
        assert L.Logical(s, b) == Image(g, w.states[e], b);
      }
    }
  }

  lemma BeforeCommit(c: L.Config, g: Geo, w: Script, r: T.Run, a: nat, n: nat, b: nat)
    requires OnDisk(c, g) && IsScript(g, w) && T.IsRun(c, r) && a <= n <= |r.labels| && L.Home(c, b)
    requires Starts(c, g, w, r.states[a]) && T.LastCommit(r, n) < a && L.Inv(c, r.states[n])
    ensures T.Recovered(c, r.states[n].disk, b) == Image(g, w.states[0], b)
  {
    assert T.LastCommit(r, a) == T.LastCommit(r, n);
    T.CrashAtomicity(c, r, a, b);
    T.CrashAtomicity(c, r, n, b);
    T.QuietIsDurable(c, r.states[a], b);
    assert L.Logical(r.states[a], b) == Image(g, w.states[0], b);
  }

  lemma AtCommit(c: L.Config, g: Geo, w: Script, r: T.Run, p: nat, a: nat, n: nat, b: nat)
    requires OnDisk(c, g) && IsScript(g, w) && T.IsRun(c, r) && a <= n <= |r.labels| && L.Home(c, b)
    requires T.LastCommit(r, n) >= a && L.Inv(c, r.states[n])
    requires Tracks(c, g, w, p, r.states[T.LastCommit(r, n)], Ended(r.labels, p, a, T.LastCommit(r, n)))
    ensures Ended(r.labels, p, a, T.LastCommit(r, n)) <= |w.txns|
    ensures T.Recovered(c, r.states[n].disk, b) == Image(g, w.states[Ended(r.labels, p, a, T.LastCommit(r, n))], b)
  {
    T.CrashAtomicity(c, r, n, b);
    var k := T.LastCommit(r, n);
    assert !InOp(r.states[k], p);
    assert L.Logical(r.states[k], b) == Image(g, w.states[Ended(r.labels, p, a, k)], b);
  }

  // ---------------------------------------------------------------- the reboot

  // The power fails at moment n and nobody begins an operation before moment m.
  predicate Rebooting(r: T.Run, n: nat, m: nat)
    requires |r.labels| < |r.states|
  {
    n < m <= |r.labels| && r.labels[n] == L.Crash && forall j | n < j < m :: !r.labels[j].Begin?
  }

  // No operation and no commit: the log is idle or being recovered.
  ghost predicate Resting(c: L.Config, s: L.State)
    requires L.Layout(c)
  {
    L.Inv(c, s) && !s.committing && L.Quiet(s.procs)
  }

  lemma RestStep(c: L.Config, s: L.State, l: L.Label, s': L.State, b: nat)
    requires L.Layout(c) && L.Home(c, b)
    ensures Resting(c, s) && T.StepTo(c, s, l, s') && !l.Begin? ==>
      Resting(c, s') && T.Recovered(c, s'.disk, b) == T.Recovered(c, s.disk, b)
  {
    T.StepOfRun(c, s, l, s', b);
  }

  lemma CrashStep(c: L.Config, s: L.State, s': L.State, b: nat)
    requires L.Layout(c) && L.Home(c, b)
    ensures L.Inv(c, s) && T.StepTo(c, s, L.Crash, s') ==>
      Resting(c, s') && T.Recovered(c, s'.disk, b) == T.Recovered(c, s.disk, b)
  {
    T.StepOfRun(c, s, L.Crash, s', b);
  }

  // However often the power fails again on the way, the disk promises the same.
  lemma {:induction false} RebootKeeps(c: L.Config, r: T.Run, n: nat, m: nat, b: nat)
    requires L.Layout(c) && T.IsRun(c, r) && Rebooting(r, n, m) && L.Home(c, b)
    ensures L.Inv(c, r.states[n]) && Resting(c, r.states[m])
    ensures T.Recovered(c, r.states[m].disk, b) == T.Recovered(c, r.states[n].disk, b)
    decreases m
  {
    assert T.StepAt(c, r, m - 1);
    if m - 1 == n {
      T.RunKeeps(c, r, n);
      CrashStep(c, r.states[n], r.states[m], b);
    } else {
      RebootKeeps(c, r, n, m - 1, b);
      RestStep(c, r.states[m - 1], r.labels[m - 1], r.states[m], b);
    }
  }

  // What bread returns for each block.
  ghost function Seen(c: L.Config, g: Geo, s: L.State): (disk: seq<L.Block>)
    requires OnDisk(c, g) && L.Inv(c, s)
    ensures |disk| == g.size && forall b | 0 <= b < g.size :: |disk[b]| == g.bsize / 4
  {
    seq(c.size, b requires 0 <= b < c.size => L.Logical(s, b))
  }

  // After the reboot bread returns what the disk promised when the power failed.
  lemma RebootShows(c: L.Config, g: Geo, fs: Fs, r: T.Run, n: nat, m: nat)
    requires OnDisk(c, g) && Sized(g, fs) && T.IsRun(c, r) && Rebooting(r, n, m) && r.states[m].pc.Idle?
    requires DiskHolds(c, g, r.states[n].disk, fs)
    ensures L.Inv(c, r.states[m]) && Holds(c, g, Seen(c, g, r.states[m]), fs)
  {
    var s, n0 := r.states[m], BBlock(g, 0);
    RebootKeeps(c, r, n, m, n0);
    K.SumsWhenQuiet(s.procs, c.maxop);
    forall b: nat | b < g.size && L.Home(c, b) ensures L.Logical(s, b) == Image(g, fs, b) {
      RebootKeeps(c, r, n, m, b);
      T.QuietIsDurable(c, s, b);
      assert T.Recovered(c, r.states[n].disk, b) == Image(g, fs, b);
    }
  }

  // How many of p's transactions a power cut at moment n leaves: those that had ended
  // at the last commit, and all that had ended if nothing was in progress.
  function Survivors(r: T.Run, p: nat, a: nat, n: nat): nat
    requires a <= n <= |r.labels| < |r.states|
  {
    if r.states[n].pc.Idle? && r.states[n].outstanding == 0 then Ended(r.labels, p, a, n) else Durable(r, p, a, n)
  }

  // ---------------------------------------------------------------- filewrite

  lemma WriteIsScript(g: Geo, w: Script, ip: nat, off: nat, src: seq<byte>, maxop: nat)
    requires maxop >= 6 && StepsOf(g, w.states, w.txns, ip, off, src, maxop)
    ensures IsScript(g, w)
  {
    var steps, txns := w.states, w.txns;
    forall t: nat | t < |steps| ensures Sized(g, steps[t]) { StepAt(g, steps, txns, ip, off, src, maxop, t); }
    forall t: nat {:trigger txns[t]} | t < |txns| ensures g.ipb > 0 && OnlyLogged(g, steps[t], steps[t + 1], txns[t]) {
      StepAt(g, steps, txns, ip, off, src, maxop, t);
    }
  }

  // The file system that a kernel in state s finds.
  ghost predicate Found(c: L.Config, g: Geo, s: L.State, fs: Fs)
    requires OnDisk(c, g)
  {
    L.Inv(c, s) && fs == Mount(g, Seen(c, g, s))
  }

  // A transaction's log_writes keep to its reservation, so they find room in the log.
  lemma ChunkFits(c: L.Config, g: Geo, w: Script, p: nat, s: L.State, t: nat, b: nat)
    requires OnDisk(c, g) && IsScript(g, w) && Tracks(c, g, w, p, s, t) && InOp(s, p) && t < |w.txns|
    requires |w.txns[t]| <= c.maxop && b in w.txns[t]
    ensures |s.procs[p].wrote + {b}| <= c.maxop
    ensures b !in s.procs[p].wrote ==> |s.head| < c.logsize && (c.nlog > c.logsize ==> |s.head| < c.nlog - 1)
  {
    var wrote := s.procs[p].wrote;
    SubsetSize(wrote + {b}, w.txns[t]);
    if b !in wrote {
      assert |wrote + {b}| == |wrote| + 1;
      T.RoomForReserved(c, s, p, b);
    }
  }

  lemma StepStorable(g: Geo, steps: seq<Fs>, txns: seq<set<nat>>, ip: nat, off: nat, src: seq<byte>, maxop: nat, t: nat)
    requires maxop >= 6 && StepsOf(g, steps, txns, ip, off, src, maxop) && t < |steps|
    requires Whole(g, steps[0], ip) && steps[0].inodes == steps[0].dinodes && AllStorable(g, steps[0])
    ensures Inv(g, steps[t], {}, {}) && steps[t].inodes == steps[t].dinodes && AllStorable(g, steps[t])
  {
    StepAt(g, steps, txns, ip, off, src, maxop, t);
    var fs0, fs := steps[0], steps[t];
    forall i: nat | i < g.ninodes ensures fs.inodes[i] == fs.dinodes[i] && Storable(fs.inodes[i]) {
      if i == ip {
        OwnStorable(g, fs0, fs, ip, off, src, ChunkEnd(maxop, |src|, t));
      } else {
        assert OtherFile(g, fs0, fs, i);
      }
    }
  }

  lemma OwnStorable(g: Geo, fs0: Fs, fs: Fs, ip: nat, off: nat, src: seq<byte>, e: nat)
    requires e <= |src| && ip < g.ninodes && Sized(g, fs0) && off <= fs0.inodes[ip].size
    requires StepDone(g, fs0, fs, ip, off, src, e) && Storable(fs0.inodes[ip])
    ensures Storable(fs.inodes[ip])
  {
    assert fs.inodes[ip].size == |Content(g, fs, ip)|;
    forall k | 0 <= k < |fs.inodes[ip].addrs| ensures fs.inodes[ip].addrs[k] < U32 {
      assert Addr(g, fs, ip, k) == fs.inodes[ip].addrs[k];
    }
  }

  // filewrite runs, the power fails at moment n, and recovery, interrupted or not, has
  // ended by moment m. The reboot finds a sound file system in which the first
  // whole chunks of the buffer are written and nothing else has changed.
  lemma PowerCut(c: L.Config, g: Geo, w: Script, r: T.Run, p: nat, a: nat, n: nat, m: nat,
                 ip: nat, off: nat, src: seq<byte>, maxop: nat) returns (t: nat, fs: Fs)
    requires maxop >= 6 && StepsOf(g, w.states, w.txns, ip, off, src, maxop) && IsScript(g, w)
    requires Whole(g, w.states[0], ip) && w.states[0].inodes == w.states[0].dinodes && AllStorable(g, w.states[0])
    requires OnDisk(c, g) && T.IsRun(c, r) && a <= n && Rebooting(r, n, m) && r.states[m].pc.Idle?
    requires Starts(c, g, w, r.states[a]) && Follows(c, g, w, r, p, a, n)
    ensures t <= |w.txns| && t == Survivors(r, p, a, n) && Found(c, g, r.states[m], fs)
    ensures Inv(g, fs, {}, {}) && fs.inodes == fs.dinodes
    ensures Content(g, fs, ip) == Spliced(Content(g, w.states[0], ip), off, src[..ChunkEnd(maxop, |src|, t)])
    ensures forall j: nat | j < g.ninodes && j != ip :: Content(g, fs, j) == Content(g, w.states[0], j)
  {
    t := Survivors(r, p, a, n);
    WholeTransactions(c, g, w, r, p, a, n);
    RebootShows(c, g, w.states[t], r, n, m);
    var disk := Seen(c, g, r.states[m]);
    fs := Mount(g, disk);
    StepAt(g, w.states, w.txns, ip, off, src, maxop, t);
    StepStorable(g, w.states, w.txns, ip, off, src, maxop, t);
    MountedBack(c, g, disk, w.states[t]);
    forall j: nat | j < g.ninodes && j != ip ensures Content(g, fs, j) == Content(g, w.states[0], j) {
      assert OtherFile(g, w.states[0], w.states[t], j);
    }
  }
}
