// What every interleaving of pipe calls keeps.

module PipeTheorems {
  import opened Wrappers
  import opened PipeRing
  import opened PipeProtocol

  // pipealloc(): empty, both ends open, nobody inside.
  ghost predicate Init(s: State) {
    && |s.ring.data| == PIPESIZE && s.ring.nread == 0 && s.ring.nwrite == 0 && s.sent == [] && s.received == []
    && s.readopen && s.writeopen && s.holder.None? && forall p | 0 <= p < |s.procs| :: s.procs[p] == Idle
  }

  datatype Label = Label(p: nat, a: Action)

  ghost predicate IsRun(states: seq<State>, labels: seq<Label>) {
    && |states| == |labels| + 1 && Init(states[0])
    && forall k: nat {:trigger StepAt(states, labels, k)} | k < |labels| :: StepAt(states, labels, k)
  }

  ghost predicate StepAt(states: seq<State>, labels: seq<Label>, k: nat)
    requires k < |labels| < |states|
  {
    Follows(states[k], states[k + 1], labels[k])
  }

  ghost predicate Follows(s: State, s': State, l: Label) {
    l.p < |s.procs| && |s.ring.data| == PIPESIZE && Enabled(s, l.p, l.a) && s' == Next(s, l.p, l.a)
  }

  lemma StepKeeps(s: State, l: Label, s': State)
    requires Inv(s) && Follows(s, s', l)
    ensures Inv(s')
  {
    StreamKept(s, l.p, l.a);
    LockKept(s, l.p, l.a);
    EndsKept(s, l.p, l.a);
    SleepKept(s, l.p, l.a);
  }

  lemma {:induction false} RunInv(states: seq<State>, labels: seq<Label>, k: nat)
    requires IsRun(states, labels) && k < |states|
    ensures Inv(states[k])
  {
    if k > 0 {
      RunInv(states, labels, k - 1);
      assert StepAt(states, labels, k - 1);
      StepKeeps(states[k - 1], labels[k - 1], states[k]);
    }
  }

  // Bytes come out in the order they went in, none lost, repeated or changed,
  // however often the counters wrapped.
  lemma PrefixOfStream(states: seq<State>, labels: seq<Label>, k: nat)
    requires IsRun(states, labels) && k < |states|
    ensures states[k].received <= states[k].sent
    ensures |states[k].sent| - |states[k].received| <= PIPESIZE
  {
    RunInv(states, labels, k);
  }

  // With the pipe lock free a sleeping reader means empty and writable, a sleeping
  // writer means full and readable; so never both.
  lemma SleepersHaveReason(states: seq<State>, labels: seq<Label>, k: nat, p: nat)
    requires IsRun(states, labels) && k < |states| && p < |states[k].procs| && states[k].holder.None?
    ensures var s := states[k];
      && (s.procs[p].ReadAsleep? ==> s.sent == s.received && s.writeopen)
      && (s.procs[p].WriteAsleep? ==> |s.sent| == |s.received| + PIPESIZE && s.readopen)
      && forall q | 0 <= q < |s.procs| :: !(s.procs[p].ReadAsleep? && s.procs[q].WriteAsleep?)
  {
    RunInv(states, labels, k);
    var s := states[k];
    TestsAreExact(s.ring, s.sent, |s.received|);
    assert ProcInv(s, s.procs[p]);
    forall q | 0 <= q < |s.procs| ensures !(s.procs[p].ReadAsleep? && s.procs[q].WriteAsleep?) {
      assert ProcInv(s, s.procs[q]);
    }
    assert s.sent[..|s.sent|] == s.sent;
  }

  // ---------------------------------------------------------------- wakeups

  // p sleeps, and there is something to read or room to write, or the other end is closed.
  ghost predicate Due(s: State, p: nat) {
    p < |s.procs| && ((s.procs[p].ReadAsleep? && !(IsEmpty(s.ring) && s.writeopen))
                      || (s.procs[p].WriteAsleep? && !(IsFull(s.ring) && s.readopen)))
  }

  ghost predicate Woken(s: State, s': State, p: nat) {
    p < |s.procs| == |s'.procs|
    && s'.procs[p] ==
       if s.procs[p].ReadAsleep? then WantRead(s.procs[p].n)
       else if s.procs[p].WriteAsleep? then WantWrite(s.procs[p].rest) else Idle
  }

  // The steps that bring the wakeup nearer are those of the lock holder and of
  // whoever has the table lock.
  predicate Mover(s: State, q: nat) {
    q < |s.procs| && (s.holder == Some(q) || Dozing(s.procs[q]))
  }

  // Steps of the lock holder up to and with its wakeup().
  function ToWakeup(c: Phase): nat {
    match c
    case Writing(rest) => |rest| + 2
    case Copying(n) => n + 2
    case _ => 1
  }

  function Dozers(procs: seq<Phase>): nat {
    if procs == [] then 0 else (if Dozing(procs[0]) then 1 else 0) + Dozers(procs[1..])
  }

  function Distance(s: State): nat {
    (if s.holder.Some? && s.holder.value < |s.procs| then ToWakeup(s.procs[s.holder.value]) else 0) + Dozers(s.procs)
  }

  lemma {:induction false} DozersAfter(procs: seq<Phase>, p: nat, c: Phase)
    requires p < |procs|
    ensures Dozers(procs[p := c]) == Dozers(procs) - (if Dozing(procs[p]) then 1 else 0) + (if Dozing(c) then 1 else 0)
  {
    if p == 0 {
      assert procs[p := c][1..] == procs[1..];
    } else {
      assert procs[p := c][1..] == procs[1..][p - 1 := c];
      DozersAfter(procs[1..], p - 1, c);
    }
  }

  // Whoever sleeps although it could go on will be woken by the holder of the pipe
  // lock: a writer or closing writer for a reader, and the other way round.
  lemma WakerHolds(s: State, p: nat)
    requires Inv(s) && Due(s, p)
    ensures s.procs[p].ReadAsleep? ==> WillWakeReaders(s) && s.readopen
    ensures s.procs[p].WriteAsleep? ==> WillWakeWriters(s) && s.writeopen
  {
    assert ProcInv(s, s.procs[p]);
  }

  // One of the movers can always take its step.
  lemma MoverMoves(s: State, p: nat) returns (q: nat)
    requires Inv(s) && Due(s, p)
    ensures Mover(s, q) && Enabled(s, q, Step)
  {
    WakerHolds(s, p);
    q := s.holder.value;
    if !TableFree(s) { q :| q < |s.procs| && Dozing(s.procs[q]); }
  }

  lemma NotYetThere(s: State, p: nat)
    requires Inv(s) && Due(s, p)
    ensures Distance(s) > 0
  {
    WakerHolds(s, p);
  }

  // Each step of a mover wakes the sleeper or brings its wakeup nearer; no other
  // step, and no other process, can put it off.
  lemma WakeupNears(s: State, l: Label, s': State, p: nat)
    requires Inv(s) && Due(s, p) && Follows(s, s', l)
    ensures Woken(s, s', p) || (Due(s', p) && s'.procs[p] == s.procs[p]
              && Distance(s') <= Distance(s) - if Mover(s, l.p) then 1 else 0)
  {
    WakerHolds(s, p);
    if s.holder == Some(l.p) {
      HolderNears(s, l.p, s', p);
    } else {
      OtherNears(s, l, s', p);
    }
  }

  // A step without the lock leaves the ring alone and can only take the lock.
  lemma OtherNears(s: State, l: Label, s': State, p: nat)
    requires Inv(s) && Due(s, p) && Follows(s, s', l) && s.holder != Some(l.p)
    ensures Woken(s, s', p) || (Due(s', p) && s'.procs[p] == s.procs[p]
              && Distance(s') <= Distance(s) - if Mover(s, l.p) then 1 else 0)
  {
    assert !Holds(s.procs[l.p]);
    DozersAfter(s.procs, l.p, s'.procs[l.p]);
    assert s'.procs == s.procs[l.p := s'.procs[l.p]];
  }

  lemma HolderNears(s: State, q: nat, s': State, p: nat)
    requires Inv(s) && Due(s, p) && s.holder == Some(q) && q < |s.procs| && Enabled(s, q, Step)
    requires s' == Next(s, q, Step)
    requires s.procs[p].ReadAsleep? ==> WillWakeReaders(s) && s.readopen
    requires s.procs[p].WriteAsleep? ==> WillWakeWriters(s) && s.writeopen
    ensures Woken(s, s', p) || (Due(s', p) && s'.procs[p] == s.procs[p] && Distance(s') <= Distance(s) - 1)
  {
    var c := s.procs[q];
    if (c.Writing? && !(c.rest != [] && IsFull(s.ring))) || c.Copying? {
      DozersAfter(s.procs, q, s'.procs[q]);
      assert s'.procs == s.procs[q := s'.procs[q]];
      StaysDue(s, q, s', p);
    } else if c.Writing? {
      DozersAfter(s.procs, q, s'.procs[q]);
      assert s'.procs == s.procs[q := WakeReaders(c.rest)];
    }
  }

  // A byte more in the ring does not make it empty, a byte less does not fill it.
  lemma StaysDue(s: State, q: nat, s': State, p: nat)
    requires StreamInv(s) && Due(s, p) && q < |s.procs| && q != p && Enabled(s, q, Step) && s' == Next(s, q, Step)
    requires if s.procs[p].ReadAsleep?
             then s.procs[q].Writing? && s'.procs[q] != WakeReaders(s.procs[q].rest) && s.readopen
             else s.procs[q].Copying?
    ensures s'.procs[p] == s.procs[p] ==> Due(s', p)
  {
    StreamKept(s, q, Step);
    TestsAreExact(s.ring, s.sent, |s.received|);
    TestsAreExact(s'.ring, s'.sent, |s'.received|);
  }

  function Moves(s: State, l: Label): nat {
    if Mover(s, l.p) then 1 else 0
  }

  lemma RunNears(states: seq<State>, labels: seq<Label>, n: nat, p: nat)
    requires IsRun(states, labels) && n < |labels| && Due(states[n], p) && !Woken(states[n], states[n + 1], p)
    ensures Due(states[n + 1], p) && states[n + 1].procs[p] == states[n].procs[p]
    ensures Moves(states[n], labels[n]) + Distance(states[n + 1]) <= Distance(states[n])
  {
    RunInv(states, labels, n);
    assert StepAt(states, labels, n);
    WakeupNears(states[n], labels[n], states[n + 1], p);
  }

  lemma RunMoves(states: seq<State>, labels: seq<Label>, n: nat, p: nat)
    requires IsRun(states, labels) && n < |states| && Due(states[n], p)
    ensures Distance(states[n]) > 0 && exists q :: Mover(states[n], q) && Enabled(states[n], q, Step)
  {
    RunInv(states, labels, n);
    NotYetThere(states[n], p);
    var q := MoverMoves(states[n], p);
  }

  function MoverSteps(states: seq<State>, labels: seq<Label>, k: nat, n: nat): nat
    requires k <= n <= |labels| < |states|
  {
    if k == n then 0 else MoverSteps(states, labels, k, n - 1) + Moves(states[n - 1], labels[n - 1])
  }

  // No wakeup is lost: from the moment a sleeper could go on, the movers, of which
  // one is always ready, take fewer than Distance steps as long as it is not awake.
  lemma {:induction false} NoLostWakeup(states: seq<State>, labels: seq<Label>, k: nat, n: nat, p: nat)
    requires IsRun(states, labels) && k <= n <= |labels| && Due(states[k], p)
    requires forall m | k <= m < n :: !Woken(states[m], states[m + 1], p)
    ensures Due(states[n], p) && states[n].procs[p] == states[k].procs[p]
    ensures MoverSteps(states, labels, k, n) + Distance(states[n]) <= Distance(states[k]) && Distance(states[n]) > 0
    ensures exists q :: Mover(states[n], q) && Enabled(states[n], q, Step)
  {
    if k < n {
      NoLostWakeup(states, labels, k, n - 1, p);
      RunNears(states, labels, n - 1, p);
    }
    RunMoves(states, labels, n, p);
  }
}
