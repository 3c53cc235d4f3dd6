// Crash atomicity and log admission over whole runs.

module CrashLogTheorems {
  import opened CrashLog
  import opened CrashLogInvariant

  ghost function IndexOf(h: seq<nat>, b: nat): (i: nat)
    requires b in h
    ensures i < |h| && h[i] == b
  {
    var i :| 0 <= i < |h| && h[i] == b;
    i
  }

  // The home block b as recovery from this disk will leave it: the logged copy
  // if the header names b, else the block itself.
  ghost function Recovered(c: Config, disk: seq<Block>, b: nat): Block
    requires Layout(c) && |disk| == c.size && ValidHeader(c, disk[c.start]) && b < c.size
  {
    var h := DecodeHead(c, disk[c.start]);
    if b in h then disk[c.start + 1 + IndexOf(h, b)] else disk[b]
  }

  lemma RecoveredEmpty(c: Config, disk: seq<Block>, b: nat)
    requires Layout(c) && |disk| == c.size && ValidHeader(c, disk[c.start]) && b < c.size
    requires disk[c.start][0] == 0
    ensures Recovered(c, disk, b) == disk[b]
  {
  }

  // ---------------------------------------------------------------- one disk write

  lemma LogOneDurable(c: Config, s: State, t: nat, b: nat)
    requires Layout(c) && Inv(c, s) && s.pc == Logging(t) && Home(c, b)
    requires Inv(c, LogOne(c, s, t))
    ensures Recovered(c, LogOne(c, s, t).disk, b) == Recovered(c, s.disk, b)
    ensures Logical(LogOne(c, s, t), b) == Logical(s, b)
  {
    var s' := LogOne(c, s, t);
    assert s'.disk[c.start] == s.disk[c.start];
    RecoveredEmpty(c, s.disk, b);
    RecoveredEmpty(c, s'.disk, b);
  }

  lemma WrittenHeader(c: Config, s: State)
    requires Layout(c) && Shape(c, s) && |Logical(s, c.start)| == c.words
    ensures var b := WriteHead(c, s).disk[c.start]; ValidHeader(c, b) && DecodeHead(c, b) == s.head
  {
    HeadRoundTrip(c, Logical(s, c.start), s.head);
  }

  lemma RecoveredFromSlots(c: Config, disk: seq<Block>, h: seq<nat>, b: nat)
    requires Layout(c) && |disk| == c.size && ValidHeader(c, disk[c.start]) && b < c.size
    requires DecodeHead(c, disk[c.start]) == h && |h| < c.nlog
    ensures Recovered(c, disk, b) == if b in h then disk[c.start + 1 + IndexOf(h, b)] else disk[b]
  {
  }

  // The header write is the commit: before it recovery yields the old contents,
  // after it the contents every process sees.
  lemma HeadingCommits(c: Config, s: State, s': State, b: nat)
    requires Layout(c) && Inv(c, s) && s.pc == Heading && Home(c, b)
    requires |Logical(s, c.start)| == c.words
    requires s' == WriteHead(c, s).(pc := Installing(0, false)) && Inv(c, s')
    ensures Recovered(c, s'.disk, b) == Logical(s, b)
    ensures Logical(s', b) == Logical(s, b)
  {
    WrittenHeader(c, s);
    SlotsHoldLogical(c, s, s'.disk, b);
  }

  lemma SlotsHoldLogical(c: Config, s: State, disk: seq<Block>, b: nat)
    requires Layout(c) && Shape(c, s) && Coherent(c, s) && Copied(c, s, |s.head|) && Quiet(s.procs) && Home(c, b)
    requires |disk| == c.size && ValidHeader(c, disk[c.start]) && DecodeHead(c, disk[c.start]) == s.head
    requires disk == s.disk[c.start := disk[c.start]]
    ensures Recovered(c, disk, b) == Logical(s, b)
  {
    RecoveredFromSlots(c, disk, s.head, b);
    if b in s.head {
      var i := IndexOf(s.head, b);
      assert s.disk[c.start + 1 + i] == Logical(s, s.head[i]);
    } else {
      assert !Touched(s.procs, b);
    }
  }

  lemma InstallKeepsRecovered(c: Config, disk: seq<Block>, h: seq<nat>, t: nat, b: nat)
    requires Layout(c) && |disk| == c.size && ValidHeader(c, disk[c.start]) && Home(c, b)
    requires GoodHead(c, h) && DecodeHead(c, disk[c.start]) == h && t < |h|
    ensures Recovered(c, disk[h[t] := disk[c.start + 1 + t]], b) == Recovered(c, disk, b)
  {
    var disk' := disk[h[t] := disk[c.start + 1 + t]];
    assert disk'[c.start] == disk[c.start];
    RecoveredFromSlots(c, disk, h, b);
    RecoveredFromSlots(c, disk', h, b);
  }

  lemma InstallDurable(c: Config, s: State, t: nat, boot: bool, b: nat)
    requires Layout(c) && Inv(c, s) && s.pc == Installing(t, boot) && t < |s.head| && Home(c, b)
    requires Inv(c, InstallOne(c, s, t))
    ensures Recovered(c, InstallOne(c, s, t).disk, b) == Recovered(c, s.disk, b)
    ensures !boot ==> Logical(InstallOne(c, s, t), b) == Logical(s, b)
  {
    InstallReadsDisk(c, s, t);
    InstallKeepsRecovered(c, s.disk, s.head, t, b);
    if !boot { InstallKeepsLogical(c, s, t, b); }
  }

  lemma InstallKeepsLogical(c: Config, s: State, t: nat, b: nat)
    requires Layout(c) && Shape(c, s) && t < |s.head| && s.pc.Installing? && Copied(c, s, |s.head|) && Home(c, b)
    ensures Logical(Installing1(c, s, t), b) == Logical(s, b)
  {
    if b == s.head[t] {
      assert s.disk[c.start + 1 + t] == Logical(s, s.head[t]);
    }
  }

  lemma EraseDurable(c: Config, s: State, s': State, boot: bool, b: nat)
    requires Layout(c) && Inv(c, s) && s.pc == Installing(|s.head|, boot) && Home(c, b)
    requires |Logical(s, c.start)| == c.words
    requires s' == WriteHead(c, s.(head := [])).(pc := if boot then Idle else Finishing) && Inv(c, s')
    ensures Recovered(c, s'.disk, b) == Recovered(c, s.disk, b)
    ensures Logical(s', b) == Logical(s, b)
  {
    HeadRoundTrip(c, Logical(s, c.start), []);
    RecoveredEmpty(c, s'.disk, b);
    InstalledAll(c, s.disk, s.head, b);
  }

  lemma InstalledAll(c: Config, disk: seq<Block>, h: seq<nat>, b: nat)
    requires Layout(c) && |disk| == c.size && ValidHeader(c, disk[c.start]) && Home(c, b)
    requires GoodHead(c, h) && DecodeHead(c, disk[c.start]) == h && Installed(c, disk, h, |h|)
    ensures Recovered(c, disk, b) == disk[b]
  {
    if b in h {
      var i := IndexOf(h, b);
      assert disk[h[i]] == disk[c.start + 1 + i];
    }
  }

  // ---------------------------------------------------------------- one step

  predicate IsCommit(s: State, l: Label) {
    l.Tick? && s.pc.Heading?
  }

  // No step but the commit changes what recovery would yield, crashes and
  // half-done recoveries included.
  lemma StepDurable(c: Config, s: State, l: Label, b: nat)
    requires Layout(c) && Inv(c, s) && Enabled(c, s, l) && Home(c, b)
    requires Inv(c, Next(c, s, l))
    ensures Recovered(c, Next(c, s, l).disk, b) == if IsCommit(s, l) then Logical(s, b) else Recovered(c, s.disk, b)
  {
    if l.Tick? {
      TickDurable(c, s, b);
    }
  }

  lemma TickDurable(c: Config, s: State, b: nat)
    requires Layout(c) && Inv(c, s) && Enabled(c, s, Tick) && Home(c, b)
    requires Inv(c, TickOf(c, s))
    ensures Recovered(c, TickOf(c, s).disk, b) == if s.pc.Heading? then Logical(s, b) else Recovered(c, s.disk, b)
    ensures s.committing ==> Logical(TickOf(c, s), b) == Logical(s, b)
  {
    match s.pc {
      case Idle =>
      case Logging(t) => LogOneDurable(c, s, t, b);
      case Heading => HeadingCommits(c, s, TickOf(c, s), b);
      case Installing(t, boot) =>
        if t < |s.head| { InstallDurable(c, s, t, boot, b); } else { EraseDurable(c, s, TickOf(c, s), boot, b); }
      case Finishing =>
      case Booting =>
    }
  }

  // While a commit is under way no process can change a file-system block, so
  // the commit saves exactly the contents at the moment the last operation ended.
  lemma CommitFreezes(c: Config, s: State, l: Label, b: nat)
    requires Layout(c) && Inv(c, s) && Enabled(c, s, l) && s.committing && l != Crash && Home(c, b)
    ensures Logical(Next(c, s, l), b) == Logical(s, b)
    ensures s.outstanding == 0 && Next(c, s, l).outstanding == 0
  {
    StepKeeps(c, s, l);
    SumsWhenQuiet(s.procs, c.maxop);
    match l {
      case Tick => TickDurable(c, s, b);
      case Read(x) => ReadKeeps(c, s, x);
      case Release(x) => ReleaseKeeps(c, s, x);
      case Evict(x) => EvictKeeps(c, s, x);
      case _ =>
    }
  }

  // At every moment with no operation and no commit in progress the disk holds everything.
  lemma QuietIsDurable(c: Config, s: State, b: nat)
    requires Layout(c) && Inv(c, s) && s.pc.Idle? && s.outstanding == 0 && Home(c, b)
    ensures Logical(s, b) == Recovered(c, s.disk, b)
  {
    QuietWhenNone(s.procs);
    RecoveredEmpty(c, s.disk, b);
  }

  // ---------------------------------------------------------------- whole runs

  // states[i + 1] follows states[i] by labels[i]; the machine is switched on in
  // states[0] with any disk that has a readable header.
  datatype Run = Run(states: seq<State>, labels: seq<Label>)

  ghost predicate PowerOn(c: Config, s: State)
    requires Layout(c)
  {
    && |s.disk| == c.size && (forall b | 0 <= b < c.size :: |s.disk[b]| == c.words)
    && ValidHeader(c, s.disk[c.start])
    && s == Reset(s)
  }

  ghost predicate IsRun(c: Config, r: Run)
    requires Layout(c)
  {
    && |r.states| == |r.labels| + 1
    && PowerOn(c, r.states[0])
    && forall i: nat {:trigger StepAt(c, r, i)} | i < |r.labels| :: StepAt(c, r, i)
  }

  ghost predicate StepAt(c: Config, r: Run, i: nat)
    requires Layout(c) && i < |r.labels| < |r.states|
  {
    StepTo(c, r.states[i], r.labels[i], r.states[i + 1])
  }

  ghost predicate StepTo(c: Config, s: State, l: Label, s': State)
    requires Layout(c)
  {
    |s.disk| == c.size && Enabled(c, s, l) && s' == Next(c, s, l)
  }

  lemma {:induction false} RunKeeps(c: Config, r: Run, n: nat)
    requires Layout(c) && IsRun(c, r) && n <= |r.labels|
    ensures Inv(c, r.states[n])
  {
    if n == 0 {
      SumsWhenQuiet(r.states[0].procs, c.maxop);
      assert forall b: nat :: !Touched(r.states[0].procs, b);
    } else {
      RunKeeps(c, r, n - 1);
      assert StepAt(c, r, n - 1);
      StepKeeps(c, r.states[n - 1], r.labels[n - 1]);
    }
  }

  // The last header write that happened before moment n, or -1.
  function LastCommit(r: Run, n: nat): (k: int)
    requires n <= |r.labels| < |r.states|
    ensures -1 <= k < n && (k >= 0 ==> IsCommit(r.states[k], r.labels[k]))
    ensures forall j | k < j < n :: !IsCommit(r.states[j], r.labels[j])
  {
    if n == 0 then -1
    else if IsCommit(r.states[n - 1], r.labels[n - 1]) then n - 1
    else LastCommit(r, n - 1)
  }

  lemma StepOfRun(c: Config, s: State, l: Label, s': State, b: nat)
    requires Layout(c) && Home(c, b)
    ensures Inv(c, s) && StepTo(c, s, l, s') ==>
      && Inv(c, s') && (IsCommit(s, l) ==> s.outstanding == 0 && Quiet(s.procs))
      && Recovered(c, s'.disk, b) == if IsCommit(s, l) then Logical(s, b) else Recovered(c, s.disk, b)
  {
    if Inv(c, s) && StepTo(c, s, l, s') {
      StepKeeps(c, s, l);
      StepDurable(c, s, l, b);
      if IsCommit(s, l) { SumsWhenQuiet(s.procs, c.maxop); }
    }
  }

  // Cut the power at any moment n of any run, however often it was cut before:
  // recovery yields exactly what the processes saw at the last commit, and at
  // that moment no operation was outstanding.
  lemma {:induction false} CrashAtomicity(c: Config, r: Run, n: nat, b: nat)
    requires Layout(c) && IsRun(c, r) && n <= |r.labels| && Home(c, b)
    ensures Inv(c, r.states[n])
    ensures var k := LastCommit(r, n);
      if k < 0 then Recovered(c, r.states[n].disk, b) == Recovered(c, r.states[0].disk, b)
      else |r.states[k].disk| == c.size && r.states[k].outstanding == 0 && Quiet(r.states[k].procs)
           && Recovered(c, r.states[n].disk, b) == Logical(r.states[k], b)
  {
    RunKeeps(c, r, n);
    if n > 0 {
      CrashAtomicity(c, r, n - 1, b);
      assert StepAt(c, r, n - 1);
      StepOfRun(c, r.states[n - 1], r.labels[n - 1], r.states[n], b);
    }
  }

  // Once a recovery has run to its end the processes see the last commit.
  lemma RebootShowsLastCommit(c: Config, r: Run, n: nat, b: nat)
    requires Layout(c) && IsRun(c, r) && 0 < n <= |r.labels| && Home(c, b)
    requires Recovering(r.states[n - 1]) && r.states[n].pc.Idle?
    ensures |r.states[n].disk| == c.size
    ensures var k := LastCommit(r, n);
      if k < 0 then Inv(c, r.states[0]) && Logical(r.states[n], b) == Recovered(c, r.states[0].disk, b)
      else |r.states[k].disk| == c.size && Logical(r.states[n], b) == Logical(r.states[k], b)
  {
    CrashAtomicity(c, r, n, b);
    RunKeeps(c, r, 0);
    RunKeeps(c, r, n - 1);
    var s := r.states[n - 1];
    assert StepAt(c, r, n - 1);
    SumsWhenQuiet(s.procs, c.maxop);
    QuietIsDurable(c, r.states[n], b);
  }

  // ---------------------------------------------------------------- admission

  lemma Admission(c: Config, r: Run, n: nat)
    requires Layout(c) && IsRun(c, r) && n <= |r.labels|
    ensures var s := r.states[n];
      && s.outstanding == Count(s.procs)
      && |s.head| + Unspent(s.procs, c.maxop) <= c.logsize
      && (forall i, j | 0 <= i < j < |s.head| :: s.head[i] != s.head[j])
      && (s.committing ==> s.outstanding == 0)
      && ((exists p :: 0 <= p < |s.procs| && s.procs[p].Asleep?) ==>
            s.committing || (s.outstanding > 0 && |s.head| + (s.outstanding + 1) * c.maxop > c.logsize))
  {
    RunKeeps(c, r, n);
    if r.states[n].committing { SumsWhenQuiet(r.states[n].procs, c.maxop); }
  }

  // The end of an operation that others outlive: they stay as they are, nobody is
  // left asleep, and a process that had no room may try again.
  lemma EndWakes(c: Config, s: State, p: nat, q: nat)
    requires Layout(c) && Inv(c, s) && Enabled(c, s, End(p)) && s.outstanding > 1 && q < |s.procs| && q != p
    ensures var s' := Next(c, s, End(p));
      && |s'.procs| == |s.procs| && s'.procs[p].Out? && s'.outstanding == s.outstanding - 1 && !s'.committing
      && (s.procs[q].In? ==> s'.procs[q] == s.procs[q])
      && (!s.procs[q].In? ==> s'.procs[q].Out?)
      && (!s.procs[q].In? && |s.head| + s.outstanding * c.maxop <= c.logsize ==> Enabled(c, s', Begin(q)))
  {
    assert s.pc.Idle? by { assert !Quiet(s.procs); }
  }

  // begin_op never sleeps on an idle log.
  lemma IdleLogAdmits(c: Config, s: State, p: nat)
    requires Layout(c) && Inv(c, s) && s.pc.Idle? && s.outstanding == 0
    requires p < |s.procs| && s.procs[p].Out?
    ensures Enabled(c, s, Begin(p)) && !Enabled(c, s, Sleep(p))
  {
  }

  // A block new to its operation always finds the log below LOGSIZE; the second
  // panic of log_write cannot fire either if the region has a slot for each of them.
  lemma RoomForReserved(c: Config, s: State, p: nat, b: nat)
    requires Layout(c) && Inv(c, s) && p < |s.procs| && s.procs[p].In?
    requires b !in s.procs[p].wrote && |s.procs[p].wrote| < c.maxop
    ensures |s.head| < c.logsize
    ensures c.nlog > c.logsize ==> |s.head| < c.nlog - 1
  {
    SumsAfterUpdate(s.procs, p, Out, c.maxop);
    UnspentBounds(s.procs[p := Out], c.maxop);
  }
}
