// Readers and writers of one pipe as processes: the pipe lock, the process table
// lock that sleep() and wakeup() share, and every interleaving of their steps.

module PipeProtocol {
  import opened Wrappers
  import opened PipeRing

  // Where a process is. Writers carry the bytes still to write, readers how many
  // they still want. Dozing processes hold the table lock and have given up the
  // pipe lock, but are not marked asleep yet.
  datatype Phase =
    | Idle
    | WantWrite(rest: seq<nat>) | Writing(rest: seq<nat>) | WakeReaders(rest: seq<nat>)
    | WillDozeWrite(rest: seq<nat>) | WriteDozing(rest: seq<nat>) | WriteAsleep(rest: seq<nat>) | DoneWriting
    | WantRead(n: nat) | Checking(n: nat) | WillDozeRead(n: nat) | ReadDozing(n: nat) | ReadAsleep(n: nat)
    | Copying(n: nat) | DoneReading
    | ClosingWrite | ClosingRead

  // `sent` and `received` record the bytes in the order they went in and came out.
  datatype State = State(ring: Ring, readopen: bool, writeopen: bool, holder: Option<nat>, procs: seq<Phase>,
                         sent: seq<nat>, received: seq<nat>)

  datatype Action = StartWrite(addr: seq<nat>) | StartRead(n: nat) | CloseWrite | CloseRead | Step

  predicate Writer(c: Phase) {
    || c.WantWrite? || c.Writing? || c.WakeReaders? || c.WillDozeWrite? || c.WriteDozing? || c.WriteAsleep?
    || c.DoneWriting?
  }

  predicate Reader(c: Phase) {
    c.WantRead? || c.Checking? || c.WillDozeRead? || c.ReadDozing? || c.ReadAsleep? || c.Copying? || c.DoneReading?
  }

  // The phases inside the pipe lock.
  predicate Holds(c: Phase) {
    c.Writing? || c.WakeReaders? || c.WillDozeWrite? || c.DoneWriting? || c.Checking? || c.WillDozeRead? || c.Copying?
    || c.DoneReading? || c.ClosingWrite? || c.ClosingRead?
  }

  predicate Dozing(c: Phase) {
    c.WriteDozing? || c.ReadDozing?
  }

  predicate TableFree(s: State) {
    forall p | 0 <= p < |s.procs| :: !Dozing(s.procs[p])
  }

  // ---------------------------------------------------------------- steps

  predicate Enabled(s: State, p: nat, a: Action)
    requires p < |s.procs|
  {
    match s.procs[p]
    case Idle =>
      (match a
       case StartWrite(_) => s.writeopen
       case StartRead(_) => s.readopen
       // the last reference to an end goes when no call uses that end
       case CloseWrite => s.writeopen && s.holder.None? && forall q | 0 <= q < |s.procs| :: !Writer(s.procs[q])
       case CloseRead => s.readopen && s.holder.None? && forall q | 0 <= q < |s.procs| :: !Reader(s.procs[q])
       case Step => false)
    case WantWrite(_) => a.Step? && s.holder.None?
    case WantRead(_) => a.Step? && s.holder.None?
    case WakeReaders(_) => a.Step? && TableFree(s)
    case WillDozeWrite(_) => a.Step? && TableFree(s)
    case WillDozeRead(_) => a.Step? && TableFree(s)
    case DoneWriting => a.Step? && TableFree(s)
    case DoneReading => a.Step? && TableFree(s)
    case ClosingWrite => a.Step? && TableFree(s)
    case ClosingRead => a.Step? && TableFree(s)
    case WriteAsleep(_) => false
    case ReadAsleep(_) => false
    case _ => a.Step?
  }

  // wakeup(&p->nread): sleepers go on to take the pipe lock again.
  function WokenReaders(procs: seq<Phase>): seq<Phase> {
    seq(|procs|, q requires 0 <= q < |procs| => if procs[q].ReadAsleep? then WantRead(procs[q].n) else procs[q])
  }

  function WokenWriters(procs: seq<Phase>): seq<Phase> {
    seq(|procs|, q requires 0 <= q < |procs| => if procs[q].WriteAsleep? then WantWrite(procs[q].rest) else procs[q])
  }

  function Moved(s: State, p: nat, c: Phase): State
    requires p < |s.procs|
  {
    s.(procs := s.procs[p := c], holder := if Holds(c) then Some(p) else if Holds(s.procs[p]) then None else s.holder)
  }

  function Next(s: State, p: nat, a: Action): State
    requires p < |s.procs| && Enabled(s, p, a) && |s.ring.data| == PIPESIZE
  {
    match s.procs[p]
    case Idle =>
      (match a
       case StartWrite(addr) => Moved(s, p, WantWrite(addr))
       case StartRead(n) => Moved(s, p, WantRead(n))
       case CloseWrite => Moved(s.(writeopen := false), p, ClosingWrite)
       case CloseRead => Moved(s.(readopen := false), p, ClosingRead)
       case Step => s)
    case WantWrite(rest) => Moved(s, p, Writing(rest))
    case Writing(rest) =>
      if rest == [] then Moved(s, p, DoneWriting)
      else if IsFull(s.ring) then (if s.readopen then Moved(s, p, WakeReaders(rest)) else Moved(s, p, Idle))
      else Moved(s.(ring := Put(s.ring, rest[0]), sent := s.sent + [rest[0]]), p, Writing(rest[1..]))
    case WakeReaders(rest) => Moved(s.(procs := WokenReaders(s.procs)), p, WillDozeWrite(rest))
    case WillDozeWrite(rest) => Moved(s, p, WriteDozing(rest))
    case WriteDozing(rest) => Moved(s, p, WriteAsleep(rest))
    case WriteAsleep(_) => s
    case DoneWriting => Moved(s.(procs := WokenReaders(s.procs)), p, Idle)
    case WantRead(n) => Moved(s, p, Checking(n))
    case Checking(n) => Moved(s, p, if IsEmpty(s.ring) && s.writeopen then WillDozeRead(n) else Copying(n))
    case WillDozeRead(n) => Moved(s, p, ReadDozing(n))
    case ReadDozing(n) => Moved(s, p, ReadAsleep(n))
    case ReadAsleep(_) => s
    case Copying(n) =>
      if n == 0 || IsEmpty(s.ring) then Moved(s, p, DoneReading)
      else Moved(s.(ring := Get(s.ring), received := s.received + [Front(s.ring)]), p, Copying(n - 1))
    case DoneReading => Moved(s.(procs := WokenWriters(s.procs)), p, Idle)
    case ClosingWrite => Moved(s.(procs := WokenReaders(s.procs)), p, Idle)
    case ClosingRead => Moved(s.(procs := WokenWriters(s.procs)), p, Idle)
  }

  // ---------------------------------------------------------------- invariant

  ghost predicate StreamInv(s: State) {
    Carries(s.ring, s.sent, |s.received|) && s.received == s.sent[..|s.received|]
  }

  ghost predicate LockInv(s: State) {
    forall p | 0 <= p < |s.procs| :: Holds(s.procs[p]) <==> s.holder == Some(p)
  }

  // No call uses an end that is closed.
  ghost predicate EndsInv(s: State) {
    forall p | 0 <= p < |s.procs| :: (Writer(s.procs[p]) ==> s.writeopen) && (Reader(s.procs[p]) ==> s.readopen)
  }

  // The lock holder will wake the readers (writers) before it lets go.
  predicate WillWakeReaders(s: State) {
    s.holder.Some? && s.holder.value < |s.procs| &&
    var c := s.procs[s.holder.value]; c.Writing? || c.WakeReaders? || c.DoneWriting? || c.ClosingWrite?
  }

  predicate WillWakeWriters(s: State) {
    s.holder.Some? && s.holder.value < |s.procs| &&
    var c := s.procs[s.holder.value]; c.Copying? || c.DoneReading? || c.ClosingRead?
  }

  // A sleeper, or a process about to be one, has reason to sleep, or will be woken.
  ghost predicate ProcInv(s: State, c: Phase) {
    && (c.ReadDozing? || c.ReadAsleep? ==> (IsEmpty(s.ring) && s.writeopen) || WillWakeReaders(s))
    && (c.WriteDozing? || c.WriteAsleep? ==> (IsFull(s.ring) && s.readopen) || WillWakeWriters(s))
    && (c.WakeReaders? || c.WillDozeWrite? ==> IsFull(s.ring) && s.readopen)
    && (c.WillDozeRead? ==> IsEmpty(s.ring) && s.writeopen)
  }

  ghost predicate SleepInv(s: State) {
    forall p | 0 <= p < |s.procs| :: ProcInv(s, s.procs[p])
  }

  ghost predicate Inv(s: State) {
    StreamInv(s) && LockInv(s) && EndsInv(s) && SleepInv(s)
  }

  lemma StreamKept(s: State, p: nat, a: Action)
    requires StreamInv(s) && p < |s.procs| && Enabled(s, p, a)
    ensures StreamInv(Next(s, p, a))
  {
    var c := s.procs[p];
    if c.Writing? && c.rest != [] && !IsFull(s.ring) {
      PutKeeps(s.ring, s.sent, |s.received|, c.rest[0]);
    }
    if c.Copying? && c.n > 0 && !IsEmpty(s.ring) {
      GetKeeps(s.ring, s.sent, |s.received|);
    }
  }

  lemma LockKept(s: State, p: nat, a: Action)
    requires StreamInv(s) && LockInv(s) && p < |s.procs| && Enabled(s, p, a)
    ensures LockInv(Next(s, p, a))
  {
    var s' := Next(s, p, a);
    forall q | 0 <= q < |s'.procs| ensures Holds(s'.procs[q]) <==> s'.holder == Some(q) {
      if q != p { assert Holds(s'.procs[q]) == Holds(s.procs[q]); }
    }
  }

  lemma EndsKept(s: State, p: nat, a: Action)
    requires StreamInv(s) && EndsInv(s) && p < |s.procs| && Enabled(s, p, a)
    ensures EndsInv(Next(s, p, a))
  {
  }

  lemma SleepKept(s: State, p: nat, a: Action)
    requires Inv(s) && p < |s.procs| && Enabled(s, p, a)
    ensures SleepInv(Next(s, p, a))
  {
  }
}
