// When can log_write panic although every operation stays within its
// reservation?  Its guard compares the log with LOGSIZE and with log.size - 1
// before it looks for absorption, so the answer depends on the sizes.

module CrashLogGeometry {
  import opened Wrappers
  import opened CrashLog
  import opened CrashLogInvariant
  import opened CrashLogTheorems

  ghost predicate Reaches(c: Config, s: State)
    requires Layout(c)
  {
    exists r :: IsRun(c, r) && r.states[|r.labels|] == s
  }

  lemma ReachStep(c: Config, s: State, l: Label)
    requires Layout(c) && Reaches(c, s) && |s.disk| == c.size && Enabled(c, s, l)
    ensures Reaches(c, Next(c, s, l))
  {
    var r :| IsRun(c, r) && r.states[|r.labels|] == s;
    var r' := Run(r.states + [Next(c, s, l)], r.labels + [l]);
    forall i: nat | i < |r'.labels| ensures StepAt(c, r', i) {
      if i < |r.labels| { assert StepAt(c, r, i); }
    }
    assert IsRun(c, r') && r'.states[|r'.labels|] == Next(c, s, l);
  }

  lemma ReachInv(c: Config, s: State)
    requires Layout(c) && Reaches(c, s)
    ensures Inv(c, s)
  {
    var r :| IsRun(c, r) && r.states[|r.labels|] == s;
    RunKeeps(c, r, |r.labels|);
  }

  // The number of entries at which log_write panics.
  function Cap(c: Config): nat
    requires c.nlog > 0
  {
    if c.logsize < c.nlog - 1 then c.logsize else c.nlog - 1
  }

  // The number of blocks that can be logged.
  function Homes(c: Config): nat
    requires c.start + c.nlog <= c.size
  {
    c.size - c.nlog
  }

  // A log_write by p of block b panics, although with b p has logged no more than
  // MAXOPBLOCKS distinct blocks. b may be one that p has logged before.
  ghost predicate PanicsInBudget(c: Config, s: State, p: nat, b: nat)
    requires Layout(c)
  {
    && p < |s.procs| && s.procs[p].In? && Home(c, b)
    && b in s.cache && s.cache[b].refs > 0
    && |s.procs[p].wrote + {b}| <= c.maxop && |s.head| >= Cap(c)
  }

  // The caller of log_write holds the buffer; reading it changes nothing else.
  lemma Hold(c: Config, s: State, b: nat) returns (s': State)
    requires Layout(c) && Reaches(c, s) && s.pc.Idle? && b < c.size
    ensures Reaches(c, s') && s'.head == s.head && s'.procs == s.procs
    ensures b in s'.cache && s'.cache[b].refs > 0 && s'.pc == s.pc && s'.outstanding == s.outstanding
    ensures s'.committing == s.committing
  {
    assert |s.disk| == c.size by { ReachInv(c, s); }
    ReachStep(c, s, Read(b));
    s' := Next(c, s, Read(b));
  }

  // The same for a block new to p.
  ghost predicate PanicsOnNew(c: Config, s: State, p: nat, b: nat)
    requires Layout(c)
  {
    PanicsInBudget(c, s, p, b) && b !in s.procs[p].wrote
  }

  // ---------------------------------------------------------------- how many blocks there are

  function Elements(h: seq<nat>): (r: set<nat>)
    ensures forall b :: b in r <==> b in h
  {
    if h == [] then {} else {h[0]} + Elements(h[1..])
  }

  lemma SetFits(c: Config, a: set<nat>)
    requires c.start + c.nlog <= c.size && forall b | b in a :: Home(c, b)
    ensures |a| <= Homes(c)
  {
    var low, high := Range(0, c.start), Range(c.start + c.nlog, c.size);
    assert |low + high| == |low| + |high|;
    SubsetSize(a, low + high);
  }

  lemma {:induction false} DistinctSize(h: seq<nat>)
    requires forall i, j | 0 <= i < j < |h| :: h[i] != h[j]
    ensures |Elements(h)| == |h|
  {
    if h != [] {
      DistinctSize(h[1..]);
      assert h[0] !in h[1..];
    }
  }

  lemma HeadFits(c: Config, s: State)
    requires Layout(c) && Inv(c, s)
    ensures |s.head| <= Homes(c) && |Elements(s.head)| == |s.head|
  {
    DistinctSize(s.head);
    SetFits(c, Elements(s.head));
  }

  // ---------------------------------------------------------------- one operation at a time

  // LOGSIZE has no room for two operations: at most one is in progress, and the
  // log holds its blocks only.
  ghost predicate Alone(s: State) {
    s.outstanding <= 1 && forall p | 0 <= p < |s.procs| && s.procs[p].In? :: |s.head| <= |s.procs[p].wrote|
  }

  lemma OnlyOne(c: Config, s: State, p: nat)
    requires Layout(c) && Inv(c, s) && s.outstanding <= 1 && p < |s.procs| && s.procs[p].In?
    ensures s.outstanding == 1 && forall q | 0 <= q < |s.procs| && s.procs[q].In? :: q == p
  {
    SumsAfterUpdate(s.procs, p, Out, c.maxop);
    var rest := s.procs[p := Out];
    QuietWhenNone(rest);
    forall q | 0 <= q < |s.procs| && q != p ensures !s.procs[q].In? { assert rest[q] == s.procs[q]; }
  }

  lemma BeginAlone(c: Config, s: State, p: nat)
    requires Layout(c) && Inv(c, s) && s.outstanding <= 1 && c.logsize < 2 * c.maxop && Enabled(c, s, Begin(p))
    ensures Alone(Next(c, s, Begin(p)))
  {
    assert s.outstanding == 1 ==> (s.outstanding + 1) * c.maxop == 2 * c.maxop;
    QuietWhenNone(s.procs);
  }

  lemma WriteAlone(c: Config, s: State, p: nat, b: nat)
    requires Layout(c) && Inv(c, s) && Alone(s) && Enabled(c, s, LogWrite(p, b))
    ensures Alone(Next(c, s, LogWrite(p, b)))
  {
    OnlyOne(c, s, p);
    var wrote := s.procs[p].wrote;
    assert b !in wrote ==> |wrote + {b}| == |wrote| + 1;
    assert b in wrote ==> wrote + {b} == wrote && b in s.head;
  }

  lemma EndAlone(c: Config, s: State, p: nat)
    requires Layout(c) && Inv(c, s) && s.outstanding <= 1 && Enabled(c, s, End(p))
    ensures Alone(Next(c, s, End(p)))
  {
    OnlyOne(c, s, p);
  }

  lemma TickAlone(c: Config, s: State)
    requires Layout(c) && |s.disk| == c.size && Quiet(s.procs) && s.outstanding <= 1 && Enabled(c, s, Tick)
    ensures Alone(TickOf(c, s))
  {
    assert Quiet(WakeAll(s.procs));
    assert TickOf(c, s).procs == s.procs || TickOf(c, s).procs == WakeAll(s.procs);
  }

  lemma AloneKept(c: Config, s: State, l: Label, s': State)
    requires Layout(c) && Inv(c, s) && Alone(s) && c.logsize < 2 * c.maxop && StepTo(c, s, l, s')
    ensures Alone(s')
  {
    match l {
      case Begin(p) => BeginAlone(c, s, p);
      case LogWrite(p, b) => WriteAlone(c, s, p, b);
      case End(p) => EndAlone(c, s, p);
      case Tick => TickAlone(c, s);
      case _ =>
    }
  }

  lemma {:induction false} RunAlone(c: Config, r: Run, n: nat)
    requires Layout(c) && IsRun(c, r) && n <= |r.labels| && c.logsize < 2 * c.maxop
    ensures Alone(r.states[n])
  {
    if n > 0 {
      RunAlone(c, r, n - 1);
      assert Inv(c, r.states[n - 1]) by { RunKeeps(c, r, n - 1); }
      assert StepAt(c, r, n - 1);
      AloneKept(c, r.states[n - 1], r.labels[n - 1], r.states[n]);
    }
  }

  // ---------------------------------------------------------------- filling the log

  // The k-th block outside the log region.
  function HomeAt(c: Config, k: nat): nat {
    if k < c.start then k else k + c.nlog
  }

  lemma Boot(c: Config, n: nat) returns (s: State)
    requires Layout(c)
    ensures Reaches(c, s) && s.pc.Idle? && !s.committing && s.outstanding == 0 && s.head == []
    ensures s.procs == seq(n, i => Out)
  {
    var zero: Block := seq(c.words, i => 0);
    var s0 := State(seq(c.size, i => zero), map[], [], 0, false, Booting, seq(n, i => Out));
    assert s0.disk[c.start] == zero;
    assert PowerOn(c, s0);
    assert IsRun(c, Run([s0], [])) && Run([s0], []).states[0] == s0;
    ReachStep(c, s0, Tick);
    var s1 := Next(c, s0, Tick);
    assert s1.head == [];
    ReachStep(c, s1, Tick);
    s := Next(c, s1, Tick);
  }

  // Two processes: 0 has begun and logged x blocks; 1 is outside or has logged y.
  // The log holds the first k home blocks.
  ghost predicate Filling(c: Config, s: State, k: nat, x: nat, y: nat)
    requires Layout(c)
  {
    && Reaches(c, s) && s.pc.Idle? && |s.procs| == 2 && |s.head| == k
    && s.procs[0].In? && s.procs[0].touched == {} && |s.procs[0].wrote| == x
    && (s.procs[1] == Out || (s.procs[1].In? && s.procs[1].touched == {}))
    && (s.procs[1].In? ==> |s.procs[1].wrote| == y)
    && forall b | b in s.head :: exists j: nat :: j < k && b == HomeAt(c, j)
  }

  lemma NextIsNew(c: Config, s: State, k: nat, x: nat, y: nat, p: nat)
    requires Layout(c) && Filling(c, s, k, x, y) && p < 2 && s.procs[p].In?
    ensures |s.disk| == c.size && HomeAt(c, k) !in s.head && HomeAt(c, k) !in s.procs[p].wrote
  {
    ReachInv(c, s);
  }

  // Process p logs one block more.
  lemma WriteOne(c: Config, s: State, k: nat, x: nat, y: nat, p: nat) returns (s': State)
    requires Layout(c) && Filling(c, s, k, x, y) && p < 2 && s.procs[p].In? && |s.procs[p].wrote| < c.maxop
    requires k < Cap(c) && k < Homes(c)
    ensures s'.outstanding == s.outstanding && s'.committing == s.committing
    ensures Filling(c, s', k + 1, if p == 0 then x + 1 else x, if p == 1 then y + 1 else y)
    ensures s'.procs[1 - p] == s.procs[1 - p] && s'.procs[p].In?
  {
    var b := HomeAt(c, k);
    NextIsNew(c, s, k, x, y, p);
    var s1 := Hold(c, s, b);
    assert |s1.procs[p].wrote + {b}| == |s.procs[p].wrote| + 1;
    assert |s1.disk| == c.size by { ReachInv(c, s1); }
    ReachStep(c, s1, LogWrite(p, b));
    s' := Next(c, s1, LogWrite(p, b));
    assert s'.head == s.head + [b];
    assert s'.procs == s.procs[p := In(s.procs[p].touched - {b}, s.procs[p].wrote + {b})];
    forall d | d in s'.head ensures exists j: nat :: j < k + 1 && d == HomeAt(c, j) {
      if d == b { assert k < k + 1 && d == HomeAt(c, k); }
    }
  }

  // Process 0 starts on an empty log.
  lemma Start(c: Config) returns (s: State)
    requires Layout(c)
    ensures Filling(c, s, 0, 0, 0) && s.procs[1].Out? && s.outstanding == 1 && !s.committing
  {
    var s0 := Boot(c, 2);
    assert |s0.disk| == c.size by { ReachInv(c, s0); }
    ReachStep(c, s0, Begin(0));
    s := Next(c, s0, Begin(0));
  }

  // Process 1 begins while there is room for two.
  lemma Join(c: Config, s: State, k: nat, x: nat) returns (s': State)
    requires Layout(c) && Filling(c, s, k, x, 0) && s.procs[1].Out? && s.outstanding == 1 && !s.committing
    requires k + 2 * c.maxop <= c.logsize
    ensures Filling(c, s', k, x, 0) && s'.procs[1].In? && s'.outstanding == 2 && !s'.committing
    ensures s'.procs[0] == s.procs[0]
  {
    assert |s.disk| == c.size by { ReachInv(c, s); }
    assert (s.outstanding + 1) * c.maxop == 2 * c.maxop;
    ReachStep(c, s, Begin(1));
    s' := Next(c, s, Begin(1));
  }

  // Process 1 ends; the log stays, for process 0 has not ended.
  lemma Leave(c: Config, s: State, k: nat, x: nat, y: nat) returns (s': State)
    requires Layout(c) && Filling(c, s, k, x, y) && s.procs[1].In? && s.outstanding == 2 && !s.committing
    ensures Filling(c, s', k, x, 0) && s'.procs[1].Out? && s'.outstanding == 1 && !s'.committing
  {
    assert |s.disk| == c.size by { ReachInv(c, s); }
    ReachStep(c, s, End(1));
    s' := Next(c, s, End(1));
    assert s'.procs == WakeAll(s.procs[1 := Out]);
  }

  // With room for two operations, process 0 can sit still while process 1 begins,
  // logs one block and ends, over and over.
  lemma {:induction false} Pile(c: Config, k: nat) returns (s: State)
    requires Layout(c) && k + 2 * c.maxop <= c.logsize + 1 && k <= Cap(c) && k <= Homes(c)
    ensures Filling(c, s, k, 0, 0) && s.procs[1].Out? && s.outstanding == 1 && !s.committing
  {
    if k == 0 {
      s := Start(c);
    } else {
      s := Pile(c, k - 1);
      s := Join(c, s, k - 1, 0);
      s := WriteOne(c, s, k - 1, 0, 0, 1);
      s := Leave(c, s, k, 0, 1);
    }
  }

  // Process 0 alone logs k blocks.
  lemma {:induction false} Solo(c: Config, k: nat) returns (s: State)
    requires Layout(c) && k <= c.maxop && k <= Cap(c) && k <= Homes(c)
    ensures Filling(c, s, k, k, 0) && s.procs[1].Out?
  {
    if k == 0 {
      s := Start(c);
    } else {
      s := Solo(c, k - 1);
      s := WriteOne(c, s, k - 1, k - 1, 0, 0);
    }
  }

  // On a log of k blocks, process 1 and then process 0 log further ones.
  lemma {:induction false} Pair(c: Config, k: nat, x: nat, y: nat) returns (s: State)
    requires Layout(c) && k + 2 * c.maxop <= c.logsize && x <= c.maxop && y <= c.maxop && (x > 0 ==> y == c.maxop)
    requires k + x + y <= Cap(c) && k + x + y <= Homes(c)
    ensures Filling(c, s, k + x + y, x, y) && s.procs[1].In?
  {
    if x > 0 {
      s := Pair(c, k, x - 1, y);
      s := WriteOne(c, s, k + x - 1 + y, x - 1, y, 0);
    } else if y > 0 {
      s := Pair(c, k, 0, y - 1);
      s := WriteOne(c, s, k + y - 1, 0, y - 1, 1);
    } else {
      s := Pile(c, k);
      s := Join(c, s, k, 0);
    }
  }

  // With room for two operations the log fills up to its cap; someone has not
  // spent its share if the cap is below LOGSIZE.
  lemma FillTwo(c: Config) returns (s: State, x: nat, y: nat)
    requires Layout(c) && 2 * c.maxop <= c.logsize && Cap(c) <= Homes(c)
    ensures Filling(c, s, Cap(c), x, y) && s.procs[1].In? && x <= c.maxop && y <= c.maxop
    ensures Cap(c) < c.logsize ==> x < c.maxop
    ensures Cap(c) > 0 ==> x < Cap(c)
  {
    var base := c.logsize - 2 * c.maxop;
    var k := if Cap(c) < base then Cap(c) else base;
    var rest := Cap(c) - k;
    y := if rest < c.maxop then rest else c.maxop;
    x := rest - y;
    s := Pair(c, k, x, y);
  }

  // ---------------------------------------------------------------- the two conditions

  // Logging again what is logged already.
  lemma RelogOne(c: Config, s: State, x: nat, y: nat)
    requires Layout(c) && Filling(c, s, Cap(c), x, y) && Homes(c) > 0
    ensures exists s', b :: Reaches(c, s') && PanicsInBudget(c, s', 0, b)
  {
    ReachInv(c, s);
    var wrote := s.procs[0].wrote;
    if wrote == {} {
      assert wrote + {HomeAt(c, 0)} == {HomeAt(c, 0)};
      var s' := Hold(c, s, HomeAt(c, 0));
      assert PanicsInBudget(c, s', 0, HomeAt(c, 0));
    } else {
      var b :| b in wrote;
      assert wrote + {b} == wrote && b in s.head;
      var s' := Hold(c, s, b);
      assert PanicsInBudget(c, s', 0, b);
    }
  }

  lemma RelogPanics(c: Config)
    requires Layout(c) && (2 * c.maxop <= c.logsize || Cap(c) <= c.maxop) && 0 < Homes(c) && Cap(c) <= Homes(c)
    ensures exists s, p, b :: Reaches(c, s) && PanicsInBudget(c, s, p, b)
  {
    var s, x, y;
    if 2 * c.maxop <= c.logsize {
      s, x, y := FillTwo(c);
    } else {
      s := Solo(c, Cap(c));
      x, y := Cap(c), 0;
    }
    RelogOne(c, s, x, y);
  }

  // No run of operations that each keep to MAXOPBLOCKS reaches a panic of
  // log_write if and only if LOGSIZE has room for more than one operation and for
  // less than two, and the log region for more than one; or there are not blocks
  // enough to fill the log.
  lemma PanicFreeExactly(c: Config)
    requires Layout(c)
    ensures (forall s, p, b | Reaches(c, s) :: !PanicsInBudget(c, s, p, b))
       <==> (c.maxop < c.logsize < 2 * c.maxop && c.maxop < c.nlog - 1) || Homes(c) < Cap(c) || Homes(c) == 0
  {
    if (c.maxop < c.logsize < 2 * c.maxop && c.maxop < c.nlog - 1) || Homes(c) < Cap(c) || Homes(c) == 0 {
      forall s, p: nat, b: nat | Reaches(c, s) ensures !PanicsInBudget(c, s, p, b) {
        ReachInv(c, s);
        HeadFits(c, s);
        if c.logsize < 2 * c.maxop {
          var r :| IsRun(c, r) && r.states[|r.labels|] == s;
          RunAlone(c, r, |r.labels|);
        }
      }
    } else {
      RelogPanics(c);
    }
  }

  // In particular, for LOGSIZE a multiple of MAXOPBLOCKS no log region is long enough
  // as soon as there are blocks enough to fill the log.
  lemma MultiplePanics(c: Config, m: nat)
    requires Layout(c) && c.logsize == m * c.maxop && 0 < Homes(c) && Cap(c) <= Homes(c)
    ensures exists s, p, b :: Reaches(c, s) && PanicsInBudget(c, s, p, b)
  {
    assert m == 0 ==> m * c.maxop == 0;
    assert m >= 2 ==> m * c.maxop == (m - 2) * c.maxop + 2 * c.maxop >= 2 * c.maxop;
    RelogPanics(c);
  }

  // When a block new to its operation can meet a panic.
  predicate NewCanPanic(c: Config)
    requires Layout(c)
  {
    c.nlog <= c.logsize &&
    if 2 * c.maxop <= c.logsize then 0 < Homes(c) && c.nlog - 1 <= Homes(c) else c.nlog <= c.maxop && c.nlog <= Homes(c)
  }

  lemma Unwritten(h: seq<nat>, wrote: set<nat>) returns (b: nat)
    requires |wrote| < |Elements(h)|
    ensures b in h && b !in wrote
  {
    var rest := Elements(h) - wrote;
    if rest == {} { SubsetSize(Elements(h), wrote); }
    b :| b in rest;
  }

  lemma NewOne(c: Config, s: State, x: nat, y: nat)
    requires Layout(c) && Filling(c, s, Cap(c), x, y) && x < c.maxop && Homes(c) > 0
    requires x < Cap(c) || Cap(c) < Homes(c)
    ensures exists s', b :: Reaches(c, s') && PanicsOnNew(c, s', 0, b)
  {
    ReachInv(c, s);
    HeadFits(c, s);
    var wrote := s.procs[0].wrote;
    var b;
    if Cap(c) < Homes(c) {
      NextIsNew(c, s, Cap(c), x, y, 0);
      b := HomeAt(c, Cap(c));
    } else {
      b := Unwritten(s.head, wrote);
    }
    assert |wrote + {b}| == x + 1;
    var s' := Hold(c, s, b);
    assert PanicsOnNew(c, s', 0, b);
  }

  lemma NewPanics(c: Config)
    requires Layout(c) && NewCanPanic(c)
    ensures exists s, p, b :: Reaches(c, s) && PanicsOnNew(c, s, p, b)
  {
    var s, x, y;
    if 2 * c.maxop <= c.logsize {
      s, x, y := FillTwo(c);
    } else {
      s := Solo(c, Cap(c));
      x, y := Cap(c), 0;
    }
    NewOne(c, s, x, y);
  }

  lemma NewNeeds(c: Config, s: State, p: nat, b: nat)
    requires Layout(c) && Reaches(c, s) && PanicsOnNew(c, s, p, b)
    ensures NewCanPanic(c)
  {
    ReachInv(c, s);
    HeadFits(c, s);
    var wrote := s.procs[p].wrote;
    assert |wrote + {b}| == |wrote| + 1;
    RoomForReserved(c, s, p, b);
    SetFits(c, wrote + {b});
    if c.logsize < 2 * c.maxop {
      var r :| IsRun(c, r) && r.states[|r.labels|] == s;
      RunAlone(c, r, |r.labels|);
    }
  }

  // The same for blocks new to their operation: they never meet a panic if and
  // only if the log region has more than LOGSIZE blocks, or more than MAXOPBLOCKS
  // where LOGSIZE has no room for two operations, or there are not blocks enough.
  // mkfs gives the region LOGSIZE.
  lemma NewPanicFreeExactly(c: Config)
    requires Layout(c)
    ensures (forall s, p, b | Reaches(c, s) :: !PanicsOnNew(c, s, p, b)) <==> !NewCanPanic(c)
  {
    if NewCanPanic(c) {
      NewPanics(c);
    } else {
      forall s, p: nat, b: nat | Reaches(c, s) ensures !PanicsOnNew(c, s, p, b) {
        if PanicsOnNew(c, s, p, b) { NewNeeds(c, s, p, b); }
      }
    }
  }
}
