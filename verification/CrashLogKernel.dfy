// log.c as the kernel runs it: the log structure, the cache and the disk are
// updated in place.  Each method is tied to the step functions of CrashLog, so
// the theorems about runs of the machine are theorems about this code.

module CrashLogKernel {
  import opened CrashLog
  import opened CrashLogInvariant
  import opened CrashLogTheorems

  // ---------------------------------------------------------------- loops as functions

  // What the loops need: sizes, and logged numbers that are on the disk.
  ghost predicate Sized(c: Config, s: State) {
    && Layout(c) && |s.disk| == c.size && |s.head| <= c.logsize && |s.head| < c.nlog
    && |Logical(s, c.start)| == c.words
    && (forall i | 0 <= i < |s.head| :: s.head[i] < c.size && s.head[i] != c.start)
  }

  // Entry t of the header can be copied.
  ghost predicate CanCopy(c: Config, s: State, t: int) {
    Layout(c) && |s.disk| == c.size && 0 <= t < |s.head| < c.nlog && s.head[t] < c.size
  }

  // write_log after t iterations.
  ghost function LogUpTo(c: Config, s: State, t: nat): State {
    if t == 0 then s
    else
      var s1 := LogUpTo(c, s, t - 1);
      if CanCopy(c, s1, t - 1) then LogOne(c, s1, t - 1) else s1
  }

  lemma LogOneShape(c: Config, s: State, t: nat)
    requires Sized(c, s) && t < |s.head|
    ensures CanCopy(c, s, t)
    ensures var r := LogOne(c, s, t);
      && Sized(c, r) && r.head == s.head && r.procs == s.procs && r.outstanding == s.outstanding
      && r.committing == s.committing && r.pc == if t + 1 == |s.head| then Heading else Logging(t + 1)
  {
  }

  lemma {:induction false} LogUpToShape(c: Config, s: State, t: nat)
    requires Sized(c, s) && t <= |s.head|
    ensures var r := LogUpTo(c, s, t);
      && Sized(c, r) && r.head == s.head && r.procs == s.procs && r.outstanding == s.outstanding
      && r.committing == s.committing
      && (t < |s.head| && s.pc == Logging(0) ==> r.pc == Logging(t)) && (0 < t == |s.head| ==> r.pc == Heading)
  {
    if t > 0 {
      LogUpToShape(c, s, t - 1);
      LogOneShape(c, LogUpTo(c, s, t - 1), t - 1);
    }
  }

  lemma HeadShape(c: Config, s: State)
    requires Sized(c, s)
    ensures var r := WriteHead(c, s).(pc := Installing(0, false)); Sized(c, r) && r.head == s.head
  {
  }

  // install_trans after t iterations.
  ghost function InstallUpTo(c: Config, s: State, t: nat): State {
    if t == 0 then s
    else
      var s1 := InstallUpTo(c, s, t - 1);
      if s1.pc.Installing? && CanCopy(c, s1, t - 1) then InstallOne(c, s1, t - 1) else s1
  }

  lemma InstallOneShape(c: Config, s: State, t: nat)
    requires Sized(c, s) && t < |s.head| && s.pc.Installing?
    ensures CanCopy(c, s, t)
    ensures var r := InstallOne(c, s, t);
      && Sized(c, r) && r.head == s.head && r.procs == s.procs && r.outstanding == s.outstanding
      && r.committing == s.committing && r.pc == Installing(t + 1, s.pc.boot)
  {
  }

  lemma {:induction false} InstallUpToShape(c: Config, s: State, t: nat)
    requires Sized(c, s) && t <= |s.head| && s.pc.Installing?
    ensures var r := InstallUpTo(c, s, t);
      && Sized(c, r) && r.head == s.head && r.procs == s.procs && r.outstanding == s.outstanding
      && r.committing == s.committing
      && r.pc.Installing? && (s.pc.tail == 0 ==> r.pc == Installing(t, s.pc.boot))
  {
    if t > 0 {
      InstallUpToShape(c, s, t - 1);
      InstallOneShape(c, InstallUpTo(c, s, t - 1), t - 1);
    }
  }

  // wakeup(&log): nobody sleeps any more, and everybody else is where it was.
  ghost predicate Roused(ps: seq<Proc>, ps': seq<Proc>) {
    |ps'| == |ps| && forall q | 0 <= q < |ps| :: !ps'[q].Asleep? && ps'[q] == if ps[q].Asleep? then Out else ps[q]
  }

  // Install everything, then clear the header on disk.
  ghost function InstallAndErase(c: Config, s: State): (r: State)
    requires Sized(c, s) && s.pc.Installing? && s.pc.tail == 0
    ensures Sized(c, r) && r.head == [] && r.pc == if s.pc.boot then Idle else Finishing
    ensures r.procs == s.procs && r.outstanding == s.outstanding
  {
    InstallUpToShape(c, s, |s.head|);
    var s1 := InstallUpTo(c, s, |s.head|);
    WriteHead(c, s1.(head := [])).(pc := if s.pc.boot then Idle else Finishing)
  }

  ghost function CommitOf(c: Config, s: State): (r: State)
    requires Sized(c, s) && (if s.head == [] then s.pc.Finishing? else s.pc == Logging(0))
    ensures Sized(c, r) && r.head == [] && r.procs == s.procs && r.outstanding == s.outstanding
  {
    LogUpToShape(c, s, |s.head|);
    if s.head == [] then s
    else InstallAndErase(c, WriteHead(c, LogUpTo(c, s, |s.head|)).(pc := Installing(0, false)))
  }

  ghost function RecoverOf(c: Config, s: State): (r: State)
    requires Layout(c) && |s.disk| == c.size && s.pc.Booting? && ValidHeader(c, s.disk[c.start])
    requires Sized(c, s)
  {
    InstallAndErase(c, Load(s, c.start).(head := DecodeHead(c, s.disk[c.start]), pc := Installing(0, true)))
  }

  lemma LogCanCopy(c: Config, s: State, t: nat)
    requires Sized(c, s) && t < |s.head|
    ensures CanCopy(c, LogUpTo(c, s, t), t) && LogUpTo(c, s, t + 1) == LogOne(c, LogUpTo(c, s, t), t)
  {
    LogUpToShape(c, s, t);
  }

  lemma InstallNext(c: Config, s: State, t: nat, s1: State, r: State)
    requires Sized(c, s) && s.pc.Installing? && s.pc.tail == 0 && t < |s.head|
    requires s1 == InstallUpTo(c, s, t) && r == InstallUpTo(c, s, t + 1)
    ensures CanCopy(c, s1, t) && s1.pc.Installing? && s1.pc.tail == t && r == InstallOne(c, s1, t)
  {
    InstallUpToShape(c, s, t);
  }

  // ---------------------------------------------------------------- the functions are runs

  lemma InvIsSized(c: Config, s: State)
    requires Layout(c) && Inv(c, s)
    ensures Sized(c, s)
  {
  }

  lemma Filled(was: Block, head: seq<nat>, data: Block)
    requires |data| == |was| > |head| && data[0] == |head|
    requires forall k | 0 <= k < |head| :: data[k + 1] == head[k]
    requires forall k | |head| < k < |was| :: data[k] == was[k]
    ensures data == EncodeHead(was, head)
  {
    var want := EncodeHead(was, head);
    forall k | 0 <= k < |was| ensures data[k] == want[k] {
      if 0 < k <= |head| { assert data[k - 1 + 1] == head[k - 1]; }
    }
  }

  // What a part of a commit or of a recovery, from s to r, keeps of block b.
  ghost predicate Kept(c: Config, s: State, r: State, b: nat)
    requires Layout(c) && Inv(c, s)
  {
    match s.pc
    case Installing(_, _) => Inv(c, r) && (Home(c, b) ==> Recovered(c, r.disk, b) == Recovered(c, s.disk, b))
    case _ => Inv(c, r) && (Home(c, b) ==> Logical(r, b) == Logical(s, b))
  }

  lemma LogOneStep(c: Config, s: State, s1: State, t: nat, r: State, b: nat)
    requires Layout(c) && Inv(c, s) && s.pc.Logging? && Kept(c, s, s1, b)
    requires Sized(c, s1) && s1.pc.Logging? && s1.pc.tail == t < |s1.head| && r == LogOne(c, s1, t)
    ensures Kept(c, s, r, b)
  {
    LogOneKeeps(c, s1, t);
    if Home(c, b) { LogOneDurable(c, s1, t, b); }
  }

  // write_log up to and with slot t.
  lemma {:induction false} LogUpToKeeps(c: Config, s: State, t: nat, r: State, b: nat)
    requires Layout(c) && Inv(c, s) && Sized(c, s) && s.pc.Logging? && s.pc.tail == 0 && 0 < t <= |s.head|
    requires r == LogUpTo(c, s, t)
    ensures Kept(c, s, r, b)
  {
    var s1 := LogUpTo(c, s, t - 1);
    LogUpToShape(c, s, t - 1);
    if t > 1 { LogUpToKeeps(c, s, t - 1, s1, b); } else { assert s1 == s; }
    LogOneStep(c, s, s1, t - 1, r, b);
  }

  lemma InstallOneStep(c: Config, s: State, s1: State, t: nat, r: State, b: nat)
    requires s.pc.Installing? && CanCopy(c, s1, t)
    requires s1.pc.Installing? && s1.pc.tail == t && r == InstallOne(c, s1, t)
    ensures Inv(c, s) && Kept(c, s, s1, b) ==> Kept(c, s, r, b)
  {
    if Inv(c, s) && Kept(c, s, s1, b) {
      InstallOneKeeps(c, s1, t, s1.pc.boot);
      if Home(c, b) { InstallDurable(c, s1, t, s1.pc.boot, b); }
    }
  }

  lemma {:induction false} InstallUpToKeeps(c: Config, s: State, t: nat, r: State, b: nat)
    requires Sized(c, s) && s.pc.Installing? && s.pc.tail == 0 && t <= |s.head| && r == InstallUpTo(c, s, t)
    ensures Inv(c, s) ==> Kept(c, s, r, b)
  {
    if t == 0 {
      assert r == s;
    } else {
      var s1 := InstallUpTo(c, s, t - 1);
      InstallUpToKeeps(c, s, t - 1, s1, b);
      InstallNext(c, s, t - 1, s1, r);
      InstallOneStep(c, s, s1, t - 1, r, b);
    }
  }

  lemma InstallAndEraseEffect(c: Config, s: State, b: nat)
    requires Layout(c) && Inv(c, s) && Sized(c, s) && s.pc.Installing? && s.pc.tail == 0
    ensures Inv(c, InstallAndErase(c, s))
    ensures Home(c, b) ==> InstallAndErase(c, s).disk[b] == Recovered(c, s.disk, b)
  {
    var s1 := InstallUpTo(c, s, |s.head|);
    InstallUpToShape(c, s, |s.head|);
    InstallUpToKeeps(c, s, |s.head|, s1, b);
    EraseKeeps(c, s1, s.pc.boot);
    var s2 := InstallAndErase(c, s);
    if Home(c, b) {
      EraseDurable(c, s1, s2, s.pc.boot, b);
      RecoveredEmpty(c, s2.disk, b);
    }
  }

  // A commit puts on the disk, block for block, what the processes saw.
  lemma CommitEffect(c: Config, s: State, b: nat)
    requires Layout(c) && Inv(c, s) && Sized(c, s) && s.committing
    requires if s.head == [] then s.pc.Finishing? else s.pc == Logging(0)
    ensures Inv(c, CommitOf(c, s))
    ensures Home(c, b) ==> CommitOf(c, s).disk[b] == Logical(s, b)
  {
    if s.head == [] {
      if Home(c, b) { FinishedIsDurable(c, s, b); }
    } else {
      var s1 := LogUpTo(c, s, |s.head|);
      LogUpToShape(c, s, |s.head|);
      LogUpToKeeps(c, s, |s.head|, s1, b);
      HeadingKeeps(c, s1);
      var s2 := WriteHead(c, s1).(pc := Installing(0, false));
      if Home(c, b) { HeadingCommits(c, s1, s2, b); }
      InstallAndEraseEffect(c, s2, b);
    }
  }

  lemma FinishedIsDurable(c: Config, s: State, b: nat)
    requires Layout(c) && Inv(c, s) && s.pc.Finishing? && Home(c, b)
    ensures Logical(s, b) == s.disk[b]
  {
    assert !Touched(s.procs, b);
  }

  // Recovery puts on the disk what the header and the log slots promise.
  lemma RecoverEffect(c: Config, s: State, b: nat)
    requires Layout(c) && Inv(c, s) && Sized(c, s) && s.pc.Booting?
    ensures Inv(c, RecoverOf(c, s))
    ensures Home(c, b) ==> RecoverOf(c, s).disk[b] == Recovered(c, s.disk, b)
  {
    BootKeeps(c, s);
    var s1 := Load(s, c.start).(head := DecodeHead(c, s.disk[c.start]), pc := Installing(0, true));
    InstallAndEraseEffect(c, s1, b);
  }

  // ---------------------------------------------------------------- the code

  class Kernel {
    const c: Config
    var disk: array<Block>           // memdisk
    var cache: map<nat, Buf>         // valid buffers by block number
    var lhn: nat                     // log.lh.n
    var lhblock: array<nat>          // log.lh.block
    var outstanding: int
    var committing: bool
    ghost var pc: Pc
    ghost var procs: seq<Proc>

    ghost predicate Fields()
      reads this
    {
      Layout(c) && disk.Length == c.size && lhblock.Length == c.logsize && lhn <= c.logsize
    }

    // The state of the machine this kernel is in.
    ghost function View(): State
      reads this, disk, lhblock
      requires Fields()
    {
      State(disk[..], cache, lhblock[..lhn], outstanding, committing, pc, procs)
    }

    // bread .. brelse around a read.
    method Bread(b: nat) returns (data: Block)
      requires Fields() && b < c.size
      modifies this`cache
      ensures Fields() && data == Logical(old(View()), b)
      ensures View() == Load(old(View()), b)
    {
      if b !in cache {
        cache := cache[b := Buf(disk[b], false, 0)];
      }
      data := cache[b].data;
    }

    // memmove into a buffer, then bwrite and brelse.
    method Bwrite(b: nat, data: Block)
      requires Fields() && b < c.size
      modifies this`cache, disk
      ensures Fields() && View() == Put(old(View()), b, data)
    {
      var refs := if b in cache then cache[b].refs else 0;
      disk[b] := data;
      cache := cache[b := Buf(data, false, refs)];
    }

    method WriteHead()
      requires Fields() && |Logical(View(), c.start)| == c.words
      modifies this`cache, disk
      ensures Fields() && View() == CrashLog.WriteHead(c, old(View()))
    {
      var buf := Bread(c.start);
      var data := FillHead(buf);
      Bwrite(c.start, data);
    }

    // The loop of write_head, in the buffer.
    method FillHead(buf: Block) returns (data: Block)
      requires Fields() && lhn < |buf|
      ensures data == EncodeHead(buf, lhblock[..lhn])
    {
      data := buf[0 := lhn];
      var i := 0;
      while i < lhn
        invariant 0 <= i <= lhn && |data| == |buf| && data[0] == lhn
        invariant forall k | 0 <= k < i :: data[k + 1] == lhblock[k]
        invariant forall k | i < k < |buf| :: data[k] == buf[k]
      {
        data := data[i + 1 := lhblock[i]];
        i := i + 1;
      }
      Filled(buf, lhblock[..lhn], data);
    }

    // The body of write_log's loop.
    method LogBlock(tail: nat)
      requires Fields() && CanCopy(c, View(), tail)
      modifies this`cache, this`pc, disk
      ensures Fields() && View() == LogOne(c, old(View()), tail)
    {
      var from := Bread(lhblock[tail]);
      Bwrite(c.start + tail + 1, from);
      pc := if tail + 1 == lhn then Heading else Logging(tail + 1);
    }

    // The body of install_trans's loop.
    method InstallBlock(tail: nat)
      requires Fields() && CanCopy(c, View(), tail) && pc.Installing?
      modifies this`cache, this`pc, disk
      ensures Fields() && View() == InstallOne(c, old(View()), tail)
    {
      var lbuf := Bread(c.start + tail + 1);
      Bwrite(lhblock[tail], lbuf);
      pc := Installing(tail + 1, pc.boot);
    }

    // One turn of each loop, in terms of where the loop started.
    method LogTurn(ghost s: State, tail: nat)
      requires Fields() && Sized(c, s) && tail < |s.head| == lhn && View() == LogUpTo(c, s, tail)
      modifies this`cache, this`pc, disk
      ensures Fields() && View() == LogUpTo(c, s, tail + 1)
    {
      LogCanCopy(c, s, tail);
      LogBlock(tail);
    }

    method InstallTurn(ghost s: State, tail: nat)
      requires Fields() && Sized(c, s) && s.pc.Installing? && s.pc.tail == 0 && tail < |s.head| == lhn
      requires View() == InstallUpTo(c, s, tail)
      modifies this`cache, this`pc, disk
      ensures Fields() && View() == InstallUpTo(c, s, tail + 1)
    {
      InstallNext(c, s, tail, InstallUpTo(c, s, tail), InstallUpTo(c, s, tail + 1));
      InstallBlock(tail);
    }

    method WriteLog()
      requires Fields() && Sized(c, View()) && pc == Logging(0)
      modifies this`cache, this`pc, disk
      ensures Fields() && View() == LogUpTo(c, old(View()), lhn)
    {
      ghost var s := View();
      var tail := 0;
      while tail < lhn
        invariant 0 <= tail <= lhn
        invariant Fields() && lhn == |s.head| && View() == LogUpTo(c, s, tail)
      {
        LogTurn(s, tail);
        tail := tail + 1;
      }
    }

    method InstallTrans(ghost s: State)
      requires Fields() && Sized(c, s) && s.pc.Installing? && s.pc.tail == 0 && View() == s
      modifies this`cache, this`pc, disk
      ensures Fields() && View() == InstallUpTo(c, s, |s.head|)
    {
      var tail := 0;
      while tail < lhn
        invariant 0 <= tail <= lhn
        invariant Fields() && lhn == |s.head| && View() == InstallUpTo(c, s, tail)
      {
        InstallTurn(s, tail);
        tail := tail + 1;
      }
    }

    method InstallThenClear()
      requires Fields() && Sized(c, View()) && pc.Installing? && pc.tail == 0
      modifies this`cache, this`pc, this`lhn, disk
      ensures Fields() && View() == InstallAndErase(c, old(View()))
    {
      ghost var boot := pc.boot;
      ghost var s := View();
      InstallTrans(s);
      InstallUpToShape(c, s, |s.head|);
      lhn := 0;
      WriteHead();
      pc := if boot then Idle else Finishing;
    }

    method Commit()
      requires Fields() && Sized(c, View()) && pc == if lhn == 0 then Finishing else Logging(0)
      modifies this`cache, this`pc, this`lhn, disk
      ensures Fields() && View() == CommitOf(c, old(View()))
    {
      if lhn > 0 {
        ghost var s := View();
        WriteLog();
        LogUpToShape(c, s, |s.head|);
        HeadShape(c, LogUpTo(c, s, |s.head|));
        WriteHead();
        pc := Installing(0, false);
        InstallThenClear();
      }
    }
  
    // Power on: any disk with a readable header, nothing in memory.
    method ReadHead()
      requires Fields() && pc.Booting? && ValidHeader(c, disk[c.start]) && cache == map[]
      modifies this`cache, this`pc, this`lhn, lhblock
      ensures Fields()
      ensures View()
           == Load(old(View()), c.start).(head := DecodeHead(c, old(disk[c.start])), pc := Installing(0, true))
    {
      var buf := Bread(c.start);
      ghost var loaded := cache;
      var n := buf[0] as nat;
      var i := 0;
      while i < n
        invariant 0 <= i <= n == buf[0] && Fields()
        invariant cache == loaded && buf == disk[c.start]
        invariant forall k | 0 <= k < i :: lhblock[k] == buf[k + 1]
      {
        lhblock[i] := buf[i + 1] as nat;
        i := i + 1;
      }
      lhn := n;
      pc := Installing(0, true);
      assert lhblock[..lhn] == DecodeHead(c, disk[c.start]);
    }

    // Recovery installs every committed block and forgets the log.
    method RecoverFromLog()
      requires Fields() && Inv(c, View()) && pc.Booting?
      modifies this`cache, this`pc, this`lhn, disk, lhblock
      ensures Fields() && Inv(c, View()) && pc.Idle? && lhn == 0
      ensures forall b: nat | Home(c, b) :: disk[b] == old(Recovered(c, disk[..], b))
    {
      ghost var s := View();
      InvIsSized(c, s);
      BootKeeps(c, s);
      ReadHead();
      InvIsSized(c, View());
      InstallThenClear();
      assert View() == RecoverOf(c, s);
      RecoverMeans(c, s);
    }

    // begin_op, one turn of its loop: admitted, or put to sleep on &log.
    method BeginOp(p: nat) returns (admitted: bool)
      requires Fields() && p < |procs| && procs[p].Out? && !Recovering(View())
      modifies this`outstanding, this`procs
      ensures Fields()
      ensures admitted ==> old(Enabled(c, View(), Begin(p))) && View() == old(Next(c, View(), Begin(p)))
      ensures !admitted ==> old(Enabled(c, View(), Sleep(p))) && View() == old(Next(c, View(), Sleep(p)))
    {
      if committing {
        procs := procs[p := Asleep];
        admitted := false;
      } else if lhn + (outstanding + 1) * c.maxop > c.logsize {
        procs := procs[p := Asleep];
        admitted := false;
      } else {
        outstanding := outstanding + 1;
        procs := procs[p := In({}, {})];
        admitted := true;
      }
    }

    // log_write: absorb or append, and pin.  The panics are the preconditions.
    method LogWriteBlock(p: nat, b: nat)
      requires Fields() && Enabled(c, View(), LogWrite(p, b))
      modifies this`lhn, this`cache, this`procs, lhblock
      ensures Fields() && View() == old(Next(c, View(), LogWrite(p, b)))
    {
      var i := 0;
      while i < lhn && lhblock[i] != b
        invariant 0 <= i <= lhn
        invariant b !in lhblock[..i]
      {
        i := i + 1;
      }
      lhblock[i] := b;
      if i == lhn {
        lhn := lhn + 1;
      }
      cache := cache[b := cache[b].(dirty := true)];
      procs := procs[p := In(procs[p].touched - {b}, procs[p].wrote + {b})];
    }

    // Back under log.lock, after the commit.
    method Finish()
      requires Fields()
      modifies this`pc, this`committing, this`procs
      ensures Fields() && View() == Finished(old(View()))
    {
      committing := false;
      procs := WakeAll(procs);
      pc := Idle;
    }

    // The second half of end_op, run by the process that found outstanding 0.
    method CommitLast()
      requires Fields() && Inv(c, View()) && committing
      requires pc == if lhn == 0 then Finishing else Logging(0)
      modifies this`cache, this`pc, this`lhn, this`committing, this`procs, disk
      ensures Fields() && Inv(c, View()) && pc.Idle? && !committing && lhn == 0 && outstanding == old(outstanding)
      ensures forall b: nat | Home(c, b) :: disk[b] == old(Logical(View(), b))
      ensures Roused(old(procs), procs)
    {
      ghost var s := View();
      InvIsSized(c, s);
      Commit();
      assert View() == CommitOf(c, s);
      Finish();
      CommitMeans(c, s, View());
    }

    // end_op: the last operation out commits, synchronously.
    method EndOp(p: nat)
      requires Fields() && Inv(c, View()) && p < |procs| && procs[p].In? && procs[p].touched == {}
      modifies this`cache, this`pc, this`lhn, this`outstanding, this`committing, this`procs, disk
      ensures Fields() && Inv(c, View()) && pc.Idle? && !committing && outstanding == old(outstanding) - 1
      ensures Roused(old(procs)[p := Out], procs)
      ensures old(outstanding) > 1 ==> View() == old(Next(c, View(), End(p)))
      ensures old(outstanding) == 1 ==> lhn == 0 && forall b: nat | Home(c, b) :: disk[b] == old(Logical(View(), b))
    {
      ghost var s := View();
      EndKeeps(c, s, p);
      EndIsIdle(c, s, p);
      outstanding := outstanding - 1;
      if outstanding == 0 {
        committing := true;
        procs := procs[p := Out];
        pc := if lhn > 0 then Logging(0) else Finishing;
        assert View() == Next(c, s, End(p));
        CommitLast();
      } else {
        procs := WakeAll(procs[p := Out]);
        assert View() == Next(c, s, End(p));
      }
    }
  }

  lemma EndIsIdle(c: Config, s: State, p: nat)
    requires Layout(c) && Inv(c, s) && p < |s.procs| && s.procs[p].In?
    ensures s.pc.Idle? && !s.committing && s.outstanding > 0
  {
    assert !Quiet(s.procs);
    if Count(s.procs) == 0 { QuietWhenNone(s.procs); }
  }

  lemma RecoverMeans(c: Config, s: State)
    requires Layout(c) && Inv(c, s) && Sized(c, s) && s.pc.Booting?
    ensures Inv(c, RecoverOf(c, s)) && RecoverOf(c, s).pc.Idle?
    ensures forall b: nat | Home(c, b) :: RecoverOf(c, s).disk[b] == Recovered(c, s.disk, b)
  {
    forall b: nat | Home(c, b) ensures RecoverOf(c, s).disk[b] == Recovered(c, s.disk, b) {
      RecoverEffect(c, s, b);
    }
    RecoverEffect(c, s, 0);
  }

  lemma CommitMeans(c: Config, s: State, r: State)
    requires Layout(c) && Inv(c, s) && Sized(c, s) && s.committing
    requires (if s.head == [] then s.pc.Finishing? else s.pc == Logging(0)) && r == Finished(CommitOf(c, s))
    ensures Inv(c, r)
    ensures forall b: nat | Home(c, b) :: r.disk[b] == Logical(s, b)
  {
    forall b: nat | Home(c, b) ensures r.disk[b] == Logical(s, b) {
      CommitEffect(c, s, b);
    }
    CommitEffect(c, s, 0);
    FinishKeeps(c, CommitOf(c, s));
  }
}
