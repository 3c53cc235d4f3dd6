// Every step of the log machine keeps its invariant.

module CrashLogInvariant {
  import opened CrashLog

  // ---------------------------------------------------------------- sums over processes

  lemma {:induction false} SumsAfterUpdate(ps: seq<Proc>, p: nat, x: Proc, maxop: nat)
    requires p < |ps|
    ensures Count(ps[p := x]) == Count(ps) - (if ps[p].In? then 1 else 0) + (if x.In? then 1 else 0)
    ensures Unspent(ps[p := x], maxop) == Unspent(ps, maxop)
              - (if ps[p].In? then maxop - |ps[p].wrote| else 0)
              + (if x.In? then maxop - |x.wrote| else 0)
  {
    if p == 0 {
      assert ps[p := x][1..] == ps[1..];
    } else {
      assert ps[p := x][1..] == ps[1..][p - 1 := x];
      SumsAfterUpdate(ps[1..], p - 1, x, maxop);
    }
  }

  lemma {:induction false} SumsWhenQuiet(ps: seq<Proc>, maxop: nat)
    requires Quiet(ps)
    ensures Count(ps) == 0 && Unspent(ps, maxop) == 0
  {
    if ps != [] { SumsWhenQuiet(ps[1..], maxop); }
  }

  lemma {:induction false} QuietWhenNone(ps: seq<Proc>)
    requires Count(ps) == 0
    ensures Quiet(ps)
  {
    if ps != [] { QuietWhenNone(ps[1..]); }
  }

  lemma {:induction false} SumsAfterWake(ps: seq<Proc>, maxop: nat)
    ensures Count(WakeAll(ps)) == Count(ps) && Unspent(WakeAll(ps), maxop) == Unspent(ps, maxop)
  {
    if ps != [] {
      assert WakeAll(ps)[1..] == WakeAll(ps[1..]);
      SumsAfterWake(ps[1..], maxop);
    }
  }

  lemma {:induction false} UnspentBounds(ps: seq<Proc>, maxop: nat)
    requires forall p | 0 <= p < |ps| && ps[p].In? :: |ps[p].wrote| <= maxop
    ensures 0 <= Unspent(ps, maxop) <= Count(ps) * maxop
  {
    if ps != [] {
      UnspentBounds(ps[1..], maxop);
    }
  }

  // ---------------------------------------------------------------- frames

  // Of the cache, the commit phase looks at the logged blocks only.
  ghost predicate SamePins(s: State, s': State) {
    && (forall b | b in s.head && b in s.cache && s.cache[b].dirty ::
          b in s'.cache && s'.cache[b].dirty)
    && (forall b | b in s'.cache && s'.cache[b].dirty :: b in s.cache && s.cache[b].dirty)
  }

  lemma CommitFrame(c: Config, s: State, s': State)
    requires Layout(c) && Shape(c, s) && Shape(c, s') && CommitPhase(c, s)
    requires s'.disk == s.disk && s'.head == s.head && s'.pc == s.pc && s'.committing == s.committing
    requires s.outstanding > 0 ==> s'.outstanding > 0
    requires s.pc.Idle? || Quiet(s'.procs)
    requires SamePins(s, s')
    requires forall b: nat | b < c.size && (s.pc.Logging? || s.pc.Heading? || s.pc.Installing?) ::
               Logical(s', b) == Logical(s, b)
    requires s.pc.Booting? ==> s'.cache == map[]
    ensures CommitPhase(c, s')
  {
  }

  // Steps that leave the cache alone and only move processes around.
  lemma ProcessFrame(c: Config, s: State, s': State)
    requires Layout(c) && Shape(c, s) && Coherent(c, s) && CommitPhase(c, s)
    requires s' == s.(procs := s'.procs, outstanding := s'.outstanding)
    requires s.outstanding > 0 ==> s'.outstanding > 0
    requires s.pc.Idle? || Quiet(s'.procs)
    requires forall b: nat :: Touched(s'.procs, b) <==> Touched(s.procs, b)
    ensures Shape(c, s') && Coherent(c, s') && CommitPhase(c, s')
  {
    CommitFrame(c, s, s');
  }

  lemma TouchedAfterUpdate(ps: seq<Proc>, p: nat, x: Proc, b: nat)
    requires p < |ps|
    ensures Touched(ps[p := x], b) ==> Touched(ps, b) || (x.In? && b in x.touched)
    ensures x.In? && b in x.touched ==> Touched(ps[p := x], b)
    ensures Touched(ps, b) ==> Touched(ps[p := x], b) || (ps[p].In? && b in ps[p].touched)
  {
    var ps' := ps[p := x];
    if x.In? && b in x.touched { assert ps'[p] == x; }
    if Touched(ps, b) {
      var q :| 0 <= q < |ps| && ps[q].In? && b in ps[q].touched;
      if q != p { assert ps'[q] == ps[q]; }
    }
  }

  // ---------------------------------------------------------------- process steps

  lemma BeginKeeps(c: Config, s: State, p: nat)
    requires Layout(c) && Inv(c, s) && Enabled(c, s, Begin(p))
    ensures Inv(c, Next(c, s, Begin(p)))
  {
    var s' := Next(c, s, Begin(p));
    SumsAfterUpdate(s.procs, p, In({}, {}), c.maxop);
    UnspentBounds(s.procs, c.maxop);
    forall b: nat ensures Touched(s'.procs, b) <==> Touched(s.procs, b) {
      TouchedAfterUpdate(s.procs, p, In({}, {}), b);
    }
    ProcessFrame(c, s, s');
  }

  lemma SleepKeeps(c: Config, s: State, p: nat)
    requires Layout(c) && Inv(c, s) && Enabled(c, s, Sleep(p))
    ensures Inv(c, Next(c, s, Sleep(p)))
  {
    var s' := Next(c, s, Sleep(p));
    SumsAfterUpdate(s.procs, p, Asleep, c.maxop);
    forall b: nat ensures Touched(s'.procs, b) <==> Touched(s.procs, b) {
      TouchedAfterUpdate(s.procs, p, Asleep, b);
    }
    ProcessFrame(c, s, s');
    if s.outstanding == 0 { QuietWhenNone(s.procs); }
  }

  // Steps that only load clean buffers, drop clean buffers, or count users.
  ghost predicate CacheMoves(s: State, s': State) {
    && s' == s.(cache := s'.cache)
    && (forall b | b in s'.cache :: if b in s.cache
          then s'.cache[b].data == s.cache[b].data && s'.cache[b].dirty == s.cache[b].dirty
          else b < |s.disk| && s'.cache[b].data == s.disk[b] && !s'.cache[b].dirty)
    && (forall b | b in s.cache && b !in s'.cache :: !s.cache[b].dirty && !Touched(s.procs, b))
    && (forall b: nat | Touched(s.procs, b) && b in s'.cache :: s'.cache[b].refs > 0)
  }

  lemma CacheFrame(c: Config, s: State, s': State)
    requires Layout(c) && Shape(c, s) && Coherent(c, s) && CommitPhase(c, s) && CacheMoves(s, s')
    requires s.pc.Booting? ==> s'.cache == map[]
    ensures Shape(c, s') && Coherent(c, s') && CommitPhase(c, s')
    ensures forall b: nat | b < c.size :: Logical(s', b) == Logical(s, b)
  {
    CommitFrame(c, s, s');
  }

  lemma ReadKeeps(c: Config, s: State, b: nat)
    requires Layout(c) && Inv(c, s) && Enabled(c, s, Read(b))
    ensures Inv(c, Next(c, s, Read(b)))
    ensures forall x: nat | x < c.size :: Logical(Next(c, s, Read(b)), x) == Logical(s, x)
  {
    CacheFrame(c, s, Next(c, s, Read(b)));
  }

  lemma ReleaseKeeps(c: Config, s: State, b: nat)
    requires Layout(c) && Inv(c, s) && Enabled(c, s, Release(b))
    ensures Inv(c, Next(c, s, Release(b)))
    ensures forall x: nat | x < c.size :: Logical(Next(c, s, Release(b)), x) == Logical(s, x)
  {
    CacheFrame(c, s, Next(c, s, Release(b)));
  }

  // Only a clean buffer that nobody is modifying is recycled, so nothing is lost.
  lemma EvictKeeps(c: Config, s: State, b: nat)
    requires Layout(c) && Inv(c, s) && Enabled(c, s, Evict(b))
    ensures Inv(c, Next(c, s, Evict(b)))
    ensures forall x: nat | x < c.size :: Logical(Next(c, s, Evict(b)), x) == Logical(s, x)
  {
    assert !Touched(s.procs, b);
    CacheFrame(c, s, Next(c, s, Evict(b)));
  }

  lemma ModifyKeeps(c: Config, s: State, p: nat, b: nat, data: Block)
    requires Layout(c) && Inv(c, s) && Enabled(c, s, Modify(p, b, data))
    ensures Inv(c, Next(c, s, Modify(p, b, data)))
  {
    var s' := Next(c, s, Modify(p, b, data));
    var x := In(s.procs[p].touched + {b}, s.procs[p].wrote);
    SumsAfterUpdate(s.procs, p, x, c.maxop);
    forall y: nat ensures Touched(s'.procs, y) <==> Touched(s.procs, y) || y == b {
      TouchedAfterUpdate(s.procs, p, x, y);
    }
    assert !Quiet(s.procs);
    CommitFrame(c, s, s');
  }

  // Absorption: the log grows only when the operation's own share shrinks.
  lemma LogWriteReserved(c: Config, s: State, p: nat, b: nat)
    requires Layout(c) && Shape(c, s) && Reserved(c, s) && Enabled(c, s, LogWrite(p, b))
    ensures Reserved(c, Next(c, s, LogWrite(p, b)))
  {
    var wrote := s.procs[p].wrote;
    SumsAfterUpdate(s.procs, p, In(s.procs[p].touched - {b}, wrote + {b}), c.maxop);
    if b in wrote {
      assert wrote + {b} == wrote;
    } else {
      assert |wrote + {b}| == |wrote| + 1;
    }
  }

  lemma LogWriteCoherent(c: Config, s: State, p: nat, b: nat)
    requires Layout(c) && Shape(c, s) && Coherent(c, s) && Enabled(c, s, LogWrite(p, b))
    ensures Coherent(c, Next(c, s, LogWrite(p, b)))
  {
    var s' := Next(c, s, LogWrite(p, b));
    var x := In(s.procs[p].touched - {b}, s.procs[p].wrote + {b});
    forall y: nat
      ensures Touched(s'.procs, y) ==> Touched(s.procs, y)
      ensures Touched(s.procs, y) ==> Touched(s'.procs, y) || y == b
    {
      TouchedAfterUpdate(s.procs, p, x, y);
    }
  }

  lemma LogWriteShape(c: Config, s: State, p: nat, b: nat)
    requires Layout(c) && Shape(c, s) && Enabled(c, s, LogWrite(p, b))
    ensures Shape(c, Next(c, s, LogWrite(p, b)))
  {
    var head := if b in s.head then s.head else s.head + [b];
    assert GoodHead(c, head);
  }

  lemma LogWriteCommit(c: Config, s: State, s': State, b: nat)
    requires Layout(c) && Shape(c, s) && CommitPhase(c, s) && s.pc.Idle? && s.outstanding > 0
    requires b in s.cache && Shape(c, s')
    requires s' == s.(head := if b in s.head then s.head else s.head + [b],
                      cache := s.cache[b := s.cache[b].(dirty := true)], procs := s'.procs)
    ensures CommitPhase(c, s')
  {
    assert Pinned(s', 0);
  }

  lemma LogWriteKeeps(c: Config, s: State, p: nat, b: nat)
    requires Layout(c) && Inv(c, s) && Enabled(c, s, LogWrite(p, b))
    ensures Inv(c, Next(c, s, LogWrite(p, b)))
  {
    var s' := Next(c, s, LogWrite(p, b));
    assert s.pc.Idle? by { assert !Quiet(s.procs); }
    LogWriteReserved(c, s, p, b);
    LogWriteCoherent(c, s, p, b);
    LogWriteShape(c, s, p, b);
    assert s.outstanding > 0 by { if Count(s.procs) == 0 { QuietWhenNone(s.procs); } }
    LogWriteCommit(c, s, s', b);
  }

  lemma EndKeeps(c: Config, s: State, p: nat)
    requires Layout(c) && Inv(c, s) && Enabled(c, s, End(p))
    ensures Inv(c, Next(c, s, End(p)))
  {
    var s' := Next(c, s, End(p));
    var procs := s.procs[p := Out];
    assert !Quiet(s.procs);
    assert s.pc.Idle?;
    SumsAfterUpdate(s.procs, p, Out, c.maxop);
    SumsAfterWake(procs, c.maxop);
    forall y: nat
      ensures Touched(s'.procs, y) <==> Touched(s.procs, y)
    {
      TouchedAfterUpdate(s.procs, p, Out, y);
      TouchedAfterWake(procs, y);
    }
    if Count(procs) == 0 { QuietWhenNone(procs); }
    assert Coherent(c, s');
  }

  lemma TouchedAfterWake(ps: seq<Proc>, b: nat)
    ensures Touched(WakeAll(ps), b) <==> Touched(ps, b)
  {
    if Touched(ps, b) {
      var q :| 0 <= q < |ps| && ps[q].In? && b in ps[q].touched;
      assert WakeAll(ps)[q] == ps[q];
    }
  }

  // ---------------------------------------------------------------- the committer

  // A log slot is never dirty, so reading it through the cache reads the disk.
  lemma LogRegionIsClean(c: Config, s: State, b: nat)
    requires Layout(c) && Shape(c, s) && Coherent(c, s) && c.start <= b < c.start + c.nlog
    ensures Logical(s, b) == s.disk[b]
    ensures b in s.cache ==> !s.cache[b].dirty
    ensures !Touched(s.procs, b)
  {
  }

  lemma PutKeepsShape(c: Config, s: State, b: nat, v: Block)
    requires Shape(c, s) && b < c.size && |v| == c.words
    ensures Shape(c, Put(s, b, v))
  {
  }

  lemma PutKeepsCoherent(c: Config, s: State, b: nat, v: Block)
    requires Shape(c, s) && Coherent(c, s) && b < c.size && |v| == c.words && !Touched(s.procs, b)
    ensures Coherent(c, Put(s, b, v))
  {
  }

  lemma PcMoves(c: Config, s: State, pc: Pc)
    requires Shape(c, s) && Coherent(c, s)
    ensures Shape(c, s.(pc := pc)) && Coherent(c, s.(pc := pc))
  {
  }

  // Disk writes of the committer leave the processes and the head alone.
  lemma Assemble(c: Config, s: State, s': State)
    requires Layout(c) && Shape(c, s) && Reserved(c, s) && SleepersCovered(c, s)
    requires Shape(c, s') && Coherent(c, s') && CommitPhase(c, s')
    requires s'.procs == s.procs && s'.outstanding == s.outstanding && s'.committing == s.committing
    requires s'.head == s.head
    ensures Inv(c, s')
  {
  }

  lemma PutBase(c: Config, s: State, b: nat, v: Block, pc: Pc)
    requires Shape(c, s) && Coherent(c, s) && b < c.size && |v| == c.words && !Touched(s.procs, b)
    ensures Shape(c, Put(s, b, v).(pc := pc)) && Coherent(c, Put(s, b, v).(pc := pc))
  {
    var s1 := Put(s, b, v);
    PutKeepsShape(c, s, b, v);
    PutKeepsCoherent(c, s, b, v);
    PcMoves(c, s1, pc);
  }

  lemma LogOneBase(c: Config, s: State, t: nat)
    requires Layout(c) && Shape(c, s) && Coherent(c, s) && t < |s.head| && s.head[t] in s.cache
    ensures Shape(c, LogOne(c, s, t)) && Coherent(c, LogOne(c, s, t))
  {
    LogRegionIsClean(c, s, c.start + 1 + t);
    PutBase(c, s, c.start + 1 + t, Logical(s, s.head[t]), if t + 1 == |s.head| then Heading else Logging(t + 1));
  }

  lemma LogOneKeeps(c: Config, s: State, t: nat)
    requires Layout(c) && Inv(c, s) && s.pc == Logging(t)
    ensures Inv(c, LogOne(c, s, t))
  {
    LogOneBase(c, s, t);
    LogOneCommit(c, s, t);
    Assemble(c, s, LogOne(c, s, t));
  }

  lemma LogOneCommit(c: Config, s: State, t: nat)
    requires Layout(c) && Shape(c, s) && CommitPhase(c, s) && s.pc == Logging(t)
    requires Shape(c, LogOne(c, s, t))
    ensures CommitPhase(c, LogOne(c, s, t))
  {
    var s' := LogOne(c, s, t);
    var to := c.start + 1 + t;
    assert Load(s, s.head[t]) == s;
    assert forall i | 0 <= i < |s.head| :: s.head[i] != to;
    assert forall i | 0 <= i < |s.head| :: Logical(s', s.head[i]) == Logical(s, s.head[i]);
    assert Copied(c, s', t + 1);
    assert Pinned(s', 0);
  }

  lemma HeadingKeeps(c: Config, s: State)
    requires Layout(c) && Inv(c, s) && s.pc == Heading
    ensures |Logical(s, c.start)| == c.words
    ensures Inv(c, WriteHead(c, s).(pc := Installing(0, false)))
  {
    LogRegionIsClean(c, s, c.start);
    var v := EncodeHead(Logical(s, c.start), s.head);
    var s' := WriteHead(c, s).(pc := Installing(0, false));
    assert ValidHeader(c, v) && DecodeHead(c, v) == s.head by { HeadRoundTrip(c, Logical(s, c.start), s.head); }
    assert Shape(c, s') && Coherent(c, s') by {
      PutKeepsShape(c, s, c.start, v);
      PutKeepsCoherent(c, s, c.start, v);
    }
    HeadingCommit(c, s, v, s');
    Assemble(c, s, s');
  }

  lemma HeadingCommit(c: Config, s: State, v: Block, s': State)
    requires Layout(c) && Shape(c, s) && CommitPhase(c, s) && s.pc == Heading && Shape(c, s')
    requires ValidHeader(c, v) && DecodeHead(c, v) == s.head
    requires s' == Put(s, c.start, v).(pc := Installing(0, false))
    ensures CommitPhase(c, s')
  {
    assert forall i | 0 <= i < |s.head| :: Logical(s', s.head[i]) == Logical(s, s.head[i]);
    assert Copied(c, s', |s.head|);
    assert Pinned(s', 0);
  }

  lemma LoadKeeps(c: Config, s: State, b: nat)
    requires Shape(c, s) && Coherent(c, s) && b < c.size
    ensures Shape(c, Load(s, b)) && Coherent(c, Load(s, b))
  {
  }

  function Installing1(c: Config, s: State, t: nat): State
    requires Layout(c) && |s.disk| == c.size && t < |s.head| < c.nlog && s.head[t] < c.size && s.pc.Installing?
  {
    Put(Load(s, c.start + 1 + t), s.head[t], s.disk[c.start + 1 + t]).(pc := Installing(t + 1, s.pc.boot))
  }

  // The log slot is read through the cache and the cache agrees with the disk.
  lemma InstallReadsDisk(c: Config, s: State, t: nat)
    requires Layout(c) && Shape(c, s) && Coherent(c, s) && t < |s.head| && s.pc.Installing?
    ensures InstallOne(c, s, t) == Installing1(c, s, t)
  {
    LogRegionIsClean(c, s, c.start + 1 + t);
  }

  lemma InstallOneBase(c: Config, s: State, t: nat)
    requires Layout(c) && Shape(c, s) && Coherent(c, s) && t < |s.head| && s.pc.Installing?
    requires !Touched(s.procs, s.head[t])
    ensures Shape(c, Installing1(c, s, t)) && Coherent(c, Installing1(c, s, t))
  {
    var s1 := Load(s, c.start + 1 + t);
    var b, v, pc := s.head[t], s.disk[c.start + 1 + t], Installing(t + 1, s.pc.boot);
    assert Shape(c, s1) && Coherent(c, s1) by { LoadKeeps(c, s, c.start + 1 + t); }
    assert b < c.size && |v| == c.words && s1.procs == s.procs;
    var s2 := Put(s1, b, v).(pc := pc);
    PutBase(c, s1, b, v, pc);
    assert s2 == Installing1(c, s, t);
  }

  lemma InstallOneKeeps(c: Config, s: State, t: nat, boot: bool)
    requires Layout(c) && Inv(c, s) && s.pc == Installing(t, boot) && t < |s.head|
    ensures Inv(c, InstallOne(c, s, t))
  {
    var s' := Installing1(c, s, t);
    assert InstallOne(c, s, t) == s' by { InstallReadsDisk(c, s, t); }
    LogRegionIsClean(c, s, c.start + 1 + t);
    InstallOneBase(c, s, t);
    InstallOneCommit(c, s, s', t, boot);
    Assemble(c, s, s');
  }

  lemma InstalledOneMore(c: Config, disk: seq<Block>, head: seq<nat>, t: nat)
    requires Layout(c) && |disk| == c.size && GoodHead(c, head) && t < |head| && Installed(c, disk, head, t)
    ensures Installed(c, disk[head[t] := disk[c.start + 1 + t]], head, t + 1)
  {
    var disk' := disk[head[t] := disk[c.start + 1 + t]];
    forall i | 0 <= i < t + 1 ensures disk'[head[i]] == disk'[c.start + 1 + i] {
      assert c.start + 1 + i != head[t];
      if i < t { assert head[i] != head[t]; }
    }
  }

  lemma InstallOnePins(c: Config, s: State, s': State, t: nat, slot: nat, v: Block)
    requires Layout(c) && Shape(c, s) && t < |s.head| && Pinned(s, t) && Copied(c, s, |s.head|)
    requires slot == c.start + 1 + t && v == s.disk[slot]
    requires slot in s.cache ==> !s.cache[slot].dirty
    requires s'.head == s.head && s'.disk == s.disk[s.head[t] := v]
    requires forall b | b in s.cache && b != s.head[t] && b != slot :: b in s'.cache && s'.cache[b] == s.cache[b]
    requires s.head[t] in s'.cache && s'.cache[s.head[t]].data == v
    requires forall b | b in s'.cache && b != s.head[t] && b != slot :: b in s.cache
    requires Shape(c, s')
    ensures Pinned(s', t + 1) && Copied(c, s', |s.head|)
  {
    forall i | 0 <= i < |s.head| ensures s'.disk[c.start + 1 + i] == Logical(s', s'.head[i]) {
      assert c.start + 1 + i != s.head[t];
      assert s.disk[c.start + 1 + i] == Logical(s, s.head[i]);
      if i != t { assert s.head[i] != s.head[t] && s.head[i] != slot; }
    }
  }

  lemma InstallOneCommit(c: Config, s: State, s': State, t: nat, boot: bool)
    requires Layout(c) && Shape(c, s) && CommitPhase(c, s) && s.pc == Installing(t, boot) && t < |s.head|
    requires s' == Put(Load(s, c.start + 1 + t), s.head[t], s.disk[c.start + 1 + t]).(pc := Installing(t + 1, boot))
    requires c.start + 1 + t in s.cache ==> !s.cache[c.start + 1 + t].dirty
    requires Shape(c, s')
    ensures CommitPhase(c, s')
  {
    var slot := c.start + 1 + t;
    InstalledOneMore(c, s.disk, s.head, t);
    assert forall i | 0 <= i < t :: s.head[i] != slot;
    assert s'.disk[c.start] == s.disk[c.start];
    if !boot {
      InstallOnePins(c, s, s', t, slot, s.disk[slot]);
    }
    assert InstallPhase(c, s', t + 1, boot);
  }

  lemma EraseKeeps(c: Config, s: State, boot: bool)
    requires Layout(c) && Inv(c, s) && s.pc == Installing(|s.head|, boot)
    ensures |Logical(s, c.start)| == c.words
    ensures Inv(c, WriteHead(c, s.(head := [])).(pc := if boot then Idle else Finishing))
  {
    LogRegionIsClean(c, s, c.start);
    var s0 := s.(head := []);
    var v := EncodeHead(Logical(s, c.start), []);
    var s' := WriteHead(c, s0).(pc := if boot then Idle else Finishing);
    HeadRoundTrip(c, Logical(s, c.start), []);
    forall b | b in s.cache ensures !s.cache[b].dirty {
      if b in s.head {
        var i :| 0 <= i < |s.head| && s.head[i] == b;
      }
    }
    PutKeepsShape(c, s0, c.start, v);
    PutKeepsCoherent(c, s0, c.start, v);
    UnspentBounds(s.procs, c.maxop);
    SumsWhenQuiet(s.procs, c.maxop);
  }

  lemma FinishKeeps(c: Config, s: State)
    requires Layout(c) && Inv(c, s) && s.pc == Finishing
    ensures Inv(c, Finished(s))
  {
    var s' := Finished(s);
    SumsAfterWake(s.procs, c.maxop);
    forall b: nat ensures Touched(s'.procs, b) <==> Touched(s.procs, b) { TouchedAfterWake(s.procs, b); }
    assert Shape(c, s') && Coherent(c, s');
  }

  lemma BootKeeps(c: Config, s: State)
    requires Layout(c) && Inv(c, s) && s.pc == Booting
    ensures Inv(c, Load(s, c.start).(head := DecodeHead(c, s.disk[c.start]), pc := Installing(0, true)))
  {
    var head := DecodeHead(c, s.disk[c.start]);
    var s' := Load(s, c.start).(head := head, pc := Installing(0, true));
    assert GoodHead(c, head);
    SumsWhenQuiet(s.procs, c.maxop);
    assert forall b: nat :: !Touched(s.procs, b);
  }

  lemma TickKeeps(c: Config, s: State)
    requires Layout(c) && Inv(c, s) && Enabled(c, s, Tick)
    ensures Inv(c, TickOf(c, s))
  {
    match s.pc {
      case Idle =>
      case Logging(t) => LogOneKeeps(c, s, t);
      case Heading => HeadingKeeps(c, s);
      case Installing(t, boot) =>
        if t < |s.head| { InstallOneKeeps(c, s, t, boot); } else { EraseKeeps(c, s, boot); }
      case Finishing => FinishKeeps(c, s);
      case Booting => BootKeeps(c, s);
    }
  }

  lemma CrashKeeps(c: Config, s: State)
    requires Layout(c) && Inv(c, s)
    ensures Inv(c, Reset(s))
  {
    var s' := Reset(s);
    SumsWhenQuiet(s'.procs, c.maxop);
    assert forall b: nat :: !Touched(s'.procs, b);
  }

  // ---------------------------------------------------------------- all steps

  lemma StepKeeps(c: Config, s: State, l: Label)
    requires Layout(c) && Inv(c, s) && Enabled(c, s, l)
    ensures Inv(c, Next(c, s, l))
  {
    match l {
      case Begin(p) => BeginKeeps(c, s, p);
      case Sleep(p) => SleepKeeps(c, s, p);
      case Read(b) => ReadKeeps(c, s, b);
      case Release(b) => ReleaseKeeps(c, s, b);
      case Evict(b) => EvictKeeps(c, s, b);
      case Modify(p, b, data) => ModifyKeeps(c, s, p, b, data);
      case LogWrite(p, b) => LogWriteKeeps(c, s, p, b);
      case End(p) => EndKeeps(c, s, p);
      case Tick => TickKeeps(c, s);
      case Crash => CrashKeeps(c, s);
    }
  }
}
