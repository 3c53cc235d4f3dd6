// What one call of read() or write() on the pipe does, whoever else runs meanwhile.

module PipeCalls {
  import opened Wrappers
  import opened PipeRing
  import opened PipeProtocol
  import opened PipeTheorems

  // What b has more than a.
  function Extra(a: seq<nat>, b: seq<nat>): seq<nat> {
    if |a| <= |b| then b[|a|..] else []
  }

  // The bytes that steps of p took out of the pipe in the moments j..i.
  function Taken(states: seq<State>, labels: seq<Label>, p: nat, j: nat, i: nat): seq<nat>
    requires j <= i <= |labels| < |states|
  {
    if i == j then []
    else
      var before := Taken(states, labels, p, j, i - 1);
      if labels[i - 1].p == p then before + Extra(states[i - 1].received, states[i].received) else before
  }

  // The bytes that steps of p put into it.
  function Given(states: seq<State>, labels: seq<Label>, p: nat, j: nat, i: nat): seq<nat>
    requires j <= i <= |labels| < |states|
  {
    if i == j then []
    else
      var before := Given(states, labels, p, j, i - 1);
      if labels[i - 1].p == p then before + Extra(states[i - 1].sent, states[i].sent) else before
  }

  // p is in one call from moment j on, up to moment k.
  ghost predicate InCall(states: seq<State>, labels: seq<Label>, p: nat, a: Action, j: nat, k: nat) {
    && IsRun(states, labels) && j < k < |states| && labels[j] == Label(p, a) && p < |states[j].procs|
    && states[j].procs[p].Idle?
    && forall i | j < i <= k :: p < |states[i].procs| && !states[i].procs[p].Idle?
  }

  // ---------------------------------------------------------------- read()

  // A read of n bytes that has taken `got`: it sleeps, or starts to copy, only as the
  // loop of piperead allows, and nobody else reads while it copies.
  ghost predicate ReadsOn(s: State, c: Phase, n: nat, got: seq<nat>) {
    match c
    case WantRead(m) => m == n && got == []
    case Checking(m) => m == n && got == []
    case WillDozeRead(m) => m == n && got == []
    case ReadDozing(m) => m == n && got == []
    case ReadAsleep(m) => m == n && got == []
    case Copying(m) =>
      && m + |got| == n && |got| <= |s.received| && got == s.received[|s.received| - |got|..]
      && (got == [] ==> !IsEmpty(s.ring) || !s.writeopen)
    case DoneReading =>
      && |got| <= n && |got| <= |s.received| && got == s.received[|s.received| - |got|..]
      && (|got| < n ==> IsEmpty(s.ring)) && (got == [] && n > 0 ==> !s.writeopen)
    case _ => false
  }

  // A step of another process.
  lemma OthersLeave(s: State, l: Label, s': State, p: nat, n: nat, got: seq<nat>)
    requires Inv(s) && Follows(s, s', l) && p < |s.procs| && l.p != p && ReadsOn(s, s.procs[p], n, got)
    ensures p < |s'.procs| && ReadsOn(s', s'.procs[p], n, got)
  {
    assert Holds(s.procs[l.p]) <==> s.holder == Some(l.p);
    assert Holds(s.procs[p]) <==> s.holder == Some(p);
  }

  lemma SuffixMore(all: seq<nat>, got: seq<nat>, b: nat, all': seq<nat>, got': seq<nat>)
    requires |got| <= |all| && got == all[|all| - |got|..] && all' == all + [b] && got' == got + Extra(all, all')
    ensures got' == got + [b] && |got'| <= |all'| && got' == all'[|all'| - |got'|..]
  {
  }

  // What one turn of the copy loop changes.
  lemma CopyMoves(s: State, s': State, p: nat)
    requires |s.ring.data| == PIPESIZE && p < |s.procs| && s.procs[p].Copying? && s' == Next(s, p, Step)
    ensures p < |s'.procs| && s'.writeopen == s.writeopen
    ensures var n := s.procs[p].n;
      if n == 0 || IsEmpty(s.ring) then s'.procs[p] == DoneReading && s'.received == s.received && s'.ring == s.ring
      else s'.procs[p] == Copying(n - 1) && s'.received == s.received + [Front(s.ring)]
  {
  }

  // One turn of the copy loop.
  lemma CopyStep(s: State, s': State, p: nat, n: nat, got: seq<nat>, got': seq<nat>)
    requires |s.ring.data| == PIPESIZE && p < |s.procs| && s.procs[p].Copying? && s' == Next(s, p, Step)
    requires ReadsOn(s, s.procs[p], n, got) && got' == got + Extra(s.received, s'.received)
    ensures p < |s'.procs| && ReadsOn(s', s'.procs[p], n, got')
  {
    CopyMoves(s, s', p);
    if s.procs[p].n == 0 || IsEmpty(s.ring) {
      assert got' == got;
    } else {
      SuffixMore(s.received, got, Front(s.ring), s'.received, got');
    }
  }

  lemma OwnStep(s: State, l: Label, s': State, p: nat, n: nat, got: seq<nat>)
    requires Inv(s) && Follows(s, s', l) && p < |s.procs| && l.p == p && ReadsOn(s, s.procs[p], n, got)
    ensures p < |s'.procs| && (s'.procs[p].Idle? || ReadsOn(s', s'.procs[p], n, got + Extra(s.received, s'.received)))
    ensures s'.procs[p].Idle? ==> s.procs[p].DoneReading? && s'.received == s.received && s'.writeopen == s.writeopen
  {
    assert got + [] == got;
    if s.procs[p].Copying? { CopyStep(s, s', p, n, got, got + Extra(s.received, s'.received)); }
  }

  lemma {:induction false} ReadTracks(states: seq<State>, labels: seq<Label>, p: nat, n: nat, j: nat, k: nat)
    requires InCall(states, labels, p, StartRead(n), j, k)
    ensures ReadsOn(states[k], states[k].procs[p], n, Taken(states, labels, p, j, k))
    decreases k
  {
    if k - 1 == j {
      ReadStarts(states, labels, p, n, j);
    } else {
      ReadTracks(states, labels, p, n, j, k - 1);
      ReadStep(states, labels, p, n, j, k - 1);
    }
  }

  lemma ReadStarts(states: seq<State>, labels: seq<Label>, p: nat, n: nat, j: nat)
    requires InCall(states, labels, p, StartRead(n), j, j + 1)
    ensures states[j + 1].procs[p] == WantRead(n) && Taken(states, labels, p, j, j + 1) == []
  {
    assert StepAt(states, labels, j);
    var s, s' := states[j], states[j + 1];
    assert Taken(states, labels, p, j, j + 1) == [] + Extra(s.received, s'.received);
  }

  lemma ReadStep(states: seq<State>, labels: seq<Label>, p: nat, n: nat, j: nat, k: nat)
    requires InCall(states, labels, p, StartRead(n), j, k) && k < |labels|
    requires ReadsOn(states[k], states[k].procs[p], n, Taken(states, labels, p, j, k))
    ensures p < |states[k + 1].procs|
    ensures var s, s', got := states[k], states[k + 1], Taken(states, labels, p, j, k + 1);
      if s'.procs[p].Idle?
      then s.procs[p].DoneReading? && got == Taken(states, labels, p, j, k)
        && s'.received == s.received && s'.writeopen == s.writeopen
      else ReadsOn(s', s'.procs[p], n, got)
  {
    RunInv(states, labels, k);
    var s, l, s', got := states[k], labels[k], states[k + 1], Taken(states, labels, p, j, k);
    assert StepAt(states, labels, k);
    if l.p == p { OwnStep(s, l, s', p, n, got); } else { OthersLeave(s, l, s', p, n, got); }
    assert got + [] == got;
  }

  // A read of n bytes returns at most n, the next of the stream in order; fewer only
  // when it has emptied the pipe, and none at all only when the write end is closed.
  lemma ReadReturns(states: seq<State>, labels: seq<Label>, p: nat, n: nat, j: nat, k: nat)
    requires InCall(states, labels, p, StartRead(n), j, k) && k < |labels| && p < |states[k + 1].procs|
    requires states[k + 1].procs[p].Idle?
    ensures var s, got := states[k + 1], Taken(states, labels, p, j, k + 1);
      && |got| <= n && |got| <= |s.received| && got == s.received[|s.received| - |got|..]
      && (|got| < n ==> s.received == s.sent) && (got == [] && n > 0 ==> !s.writeopen)
  {
    ReadTracks(states, labels, p, n, j, k);
    ReadStep(states, labels, p, n, j, k);
    RunInv(states, labels, k);
    var s := states[k];
    assert StepAt(states, labels, k);
    TestsAreExact(s.ring, s.sent, |s.received|);
    assert s.sent[..|s.sent|] == s.sent;
  }

  // ---------------------------------------------------------------- write()

  // A write of addr that has put in `given`.
  ghost predicate WritesOn(c: Phase, addr: seq<nat>, given: seq<nat>) {
    match c
    case WantWrite(rest) => given + rest == addr
    case Writing(rest) => given + rest == addr
    case WakeReaders(rest) => given + rest == addr
    case WillDozeWrite(rest) => given + rest == addr
    case WriteDozing(rest) => given + rest == addr
    case WriteAsleep(rest) => given + rest == addr
    case DoneWriting => given == addr
    case _ => false
  }

  lemma WriteStep(s: State, l: Label, s': State, p: nat, addr: seq<nat>, given: seq<nat>)
    requires Inv(s) && Follows(s, s', l) && p < |s.procs| && WritesOn(s.procs[p], addr, given)
    ensures p < |s'.procs|
    ensures var more := if l.p == p then given + Extra(s.sent, s'.sent) else given;
      if s'.procs[p].Idle?
      then more == given && (given == addr || (given < addr && IsFull(s.ring) && !s.readopen && !s'.readopen))
      else WritesOn(s'.procs[p], addr, more)
  {
    assert given + [] == given;
    var c := s.procs[p];
    if c.Writing? && c.rest != [] { assert given + c.rest == (given + [c.rest[0]]) + c.rest[1..]; }
  }

  lemma {:induction false} WriteTracks(states: seq<State>, labels: seq<Label>, p: nat, addr: seq<nat>, j: nat, k: nat)
    requires InCall(states, labels, p, StartWrite(addr), j, k)
    ensures WritesOn(states[k].procs[p], addr, Given(states, labels, p, j, k))
    decreases k
  {
    RunInv(states, labels, k - 1);
    var s, l, s' := states[k - 1], labels[k - 1], states[k];
    assert StepAt(states, labels, k - 1);
    if k - 1 == j {
      assert Given(states, labels, p, j, k) == [] + Extra(s.sent, s'.sent);
    } else {
      WriteTracks(states, labels, p, addr, j, k - 1);
      WriteStep(s, l, s', p, addr, Given(states, labels, p, j, k - 1));
    }
  }

  // A write that comes to its end has put all of addr into the pipe, in order; one that
  // gives up has put in a first part of it, and found the pipe full and the read end closed.
  lemma WriteReturns(states: seq<State>, labels: seq<Label>, p: nat, addr: seq<nat>, j: nat, k: nat)
    requires InCall(states, labels, p, StartWrite(addr), j, k) && k < |labels| && p < |states[k + 1].procs|
    requires states[k + 1].procs[p].Idle?
    ensures var s, given := states[k + 1], Given(states, labels, p, j, k + 1);
      given == addr || (given < addr && |s.sent| == |s.received| + PIPESIZE && !s.readopen)
  {
    WriteTracks(states, labels, p, addr, j, k);
    RunInv(states, labels, k);
    var s, l, s' := states[k], labels[k], states[k + 1];
    assert StepAt(states, labels, k);
    WriteStep(s, l, s', p, addr, Given(states, labels, p, j, k));
    TestsAreExact(s.ring, s.sent, |s.received|);
  }

  // ---------------------------------------------------------------- pipeclose()

  // An end is open until somebody closes it, and closed from then on.
  lemma {:induction false} ClosedForGood(states: seq<State>, labels: seq<Label>, k: nat)
    requires IsRun(states, labels) && k < |states|
    ensures states[k].writeopen <==> forall i | 0 <= i < k :: labels[i].a != CloseWrite
    ensures states[k].readopen <==> forall i | 0 <= i < k :: labels[i].a != CloseRead
  {
    if k > 0 {
      ClosedForGood(states, labels, k - 1);
      assert StepAt(states, labels, k - 1);
    }
  }

  // Nothing is put in after the write end is closed, nor taken out after the read end is.
  lemma {:induction false} QuietAfterClose(states: seq<State>, labels: seq<Label>, k: nat, n: nat)
    requires IsRun(states, labels) && k <= n < |states|
    ensures !states[k].writeopen ==> states[n].sent == states[k].sent
    ensures !states[k].readopen ==> states[n].received == states[k].received
    decreases n
  {
    if k < n {
      QuietAfterClose(states, labels, k, n - 1);
      ClosedForGood(states, labels, k);
      ClosedForGood(states, labels, n - 1);
      RunInv(states, labels, n - 1);
      assert StepAt(states, labels, n - 1);
    }
  }
}
