// The redo log over the write-pinning buffer cache, as a state machine.
//
// A step is one critical section of a file-system process, one eviction by
// the buffer cache, one disk write of the committer, or a power failure.
// Between any two steps every other process may run.

module CrashLog {

  type Block = seq<int>

  // size: blocks on the disk; start, nlog: the log region of the super block;
  // words: 32-bit words in a block.  logsize and maxop are LOGSIZE and MAXOPBLOCKS.
  datatype Config = Config(size: nat, start: nat, nlog: nat, logsize: nat, maxop: nat, words: nat)

  // A buffer whose contents are valid; refs counts the processes using it.
  datatype Buf = Buf(data: Block, dirty: bool, refs: nat)

  // A process is outside any operation, asleep on &log, or inside an operation
  // that has modified `touched` without logging it yet and has logged `wrote`.
  datatype Proc = Out | Asleep | In(touched: set<nat>, wrote: set<nat>)

  // What the committer (or, with boot, the recovering kernel) does next.
  datatype Pc =
    | Idle
    | Logging(tail: nat)
    | Heading
    | Installing(tail: nat, boot: bool)
    | Finishing
    | Booting

  datatype State = State(
    disk: seq<Block>,
    cache: map<nat, Buf>,
    head: seq<nat>,
    outstanding: int,
    committing: bool,
    pc: Pc,
    procs: seq<Proc>)

  datatype Label =
    | Begin(p: nat)
    | Sleep(p: nat)
    | Read(b: nat)
    | Release(b: nat)
    | Evict(b: nat)
    | Modify(p: nat, b: nat, data: Block)
    | LogWrite(p: nat, b: nat)
    | End(p: nat)
    | Tick
    | Crash

  ghost predicate Layout(c: Config) {
    1 <= c.maxop <= c.logsize && 1 <= c.nlog && c.start + c.nlog <= c.size && c.logsize + 1 < c.words
  }

  // A block outside the log region: one the file system may log.
  predicate Home(c: Config, b: int) {
    0 <= b < c.size && !(c.start <= b < c.start + c.nlog)
  }

  // ---------------------------------------------------------------- the header

  // write_head overwrites the count and the first |head| entries only.
  function EncodeHead(was: Block, head: seq<nat>): Block
    requires |head| + 1 <= |was|
  {
    [|head|] + head + was[|head| + 1..]
  }

  ghost predicate ValidHeader(c: Config, b: Block) {
    && 0 < |b| == c.words
    && 0 <= b[0] <= c.logsize && b[0] < c.nlog && b[0] + 1 <= |b|
    && (forall i | 1 <= i <= b[0] :: Home(c, b[i]))
    && (forall i, j | 1 <= i < j <= b[0] :: b[i] != b[j])
  }

  function DecodeHead(c: Config, b: Block): (h: seq<nat>)
    requires Layout(c) && ValidHeader(c, b)
  {
    seq(b[0], i requires 0 <= i < b[0] => b[i + 1] as nat)
  }

  // Reading back a written header gives the numbers written, whatever was there before.
  lemma HeadRoundTrip(c: Config, was: Block, head: seq<nat>)
    requires Layout(c) && |was| == c.words && GoodHead(c, head)
    ensures ValidHeader(c, EncodeHead(was, head))
    ensures DecodeHead(c, EncodeHead(was, head)) == head
    ensures EncodeHead(was, head)[0] == |head| && forall i | 0 <= i < |head| :: EncodeHead(was, head)[i + 1] == head[i]
  {
    var b := EncodeHead(was, head);
    assert forall i | 1 <= i <= |head| :: b[i] == head[i - 1];
  }

  // ---------------------------------------------------------------- the cache

  // What bread(b) returns: the cached copy if there is one, else the disk block.
  function Logical(s: State, b: nat): Block
    requires b < |s.disk|
  {
    if b in s.cache then s.cache[b].data else s.disk[b]
  }

  function Refs(s: State, b: nat): nat {
    if b in s.cache then s.cache[b].refs else 0
  }

  // bread followed by brelse leaves the block cached.
  function Load(s: State, b: nat): State
    requires b < |s.disk|
  {
    if b in s.cache then s else s.(cache := s.cache[b := Buf(s.disk[b], false, 0)])
  }

  // bread, overwrite the data, bwrite, brelse: iderw clears B_DIRTY.
  function Put(s: State, b: nat, v: Block): State
    requires b < |s.disk|
  {
    s.(disk := s.disk[b := v], cache := s.cache[b := Buf(v, false, Refs(s, b))])
  }

  // ---------------------------------------------------------------- processes

  function Count(ps: seq<Proc>): nat {
    if ps == [] then 0 else (if ps[0].In? then 1 else 0) + Count(ps[1..])
  }

  // Log space reserved by the operations in progress and not used yet.
  ghost function Unspent(ps: seq<Proc>, maxop: nat): int {
    if ps == [] then 0
    else (if ps[0].In? then maxop - |ps[0].wrote| else 0) + Unspent(ps[1..], maxop)
  }

  function WakeAll(ps: seq<Proc>): (r: seq<Proc>) {
    seq(|ps|, i requires 0 <= i < |ps| => if ps[i].Asleep? then Out else ps[i])
  }

  ghost predicate Touched(ps: seq<Proc>, b: nat) {
    exists p :: 0 <= p < |ps| && ps[p].In? && b in ps[p].touched
  }

  predicate Recovering(s: State) {
    s.pc.Booting? || (s.pc.Installing? && s.pc.boot)
  }

  // ---------------------------------------------------------------- steps

  ghost predicate Enabled(c: Config, s: State, l: Label)
    requires Layout(c) && |s.disk| == c.size
  {
    match l
    case Begin(p) =>
      && p < |s.procs| && s.procs[p].Out? && !Recovering(s)
      && !s.committing && |s.head| + (s.outstanding + 1) * c.maxop <= c.logsize
    case Sleep(p) =>
      && p < |s.procs| && s.procs[p].Out? && !Recovering(s)
      && (s.committing || |s.head| + (s.outstanding + 1) * c.maxop > c.logsize)
    case Read(b) => b < c.size && !Recovering(s)
    case Release(b) => b in s.cache && s.cache[b].refs > 0 && !Touched(s.procs, b)
    // bget recycles a buffer only when its refcnt is 0 and B_DIRTY is clear.
    case Evict(b) => b in s.cache && s.cache[b].refs == 0 && !s.cache[b].dirty
    case Modify(p, b, data) =>
      && p < |s.procs| && s.procs[p].In? && Home(c, b) && |data| == c.words
      && b in s.cache && s.cache[b].refs > 0
    // The two panics of log_write, and the file system's promise of at most
    // maxop distinct blocks per operation.
    case LogWrite(p, b) =>
      && p < |s.procs| && s.procs[p].In? && Home(c, b)
      && b in s.cache && s.cache[b].refs > 0
      && |s.head| < c.logsize && |s.head| < c.nlog - 1
      && |s.procs[p].wrote + {b}| <= c.maxop
    case End(p) => p < |s.procs| && s.procs[p].In? && s.procs[p].touched == {}
    case Tick =>
      (match s.pc
       case Idle => false
       case Logging(t) => t < |s.head| && |s.head| < c.nlog && s.head[t] < c.size
       case Heading => |s.head| <= c.logsize && |Logical(s, c.start)| == c.words
       case Installing(t, boot) =>
         && t <= |s.head| < c.nlog && |Logical(s, c.start)| == c.words
         && (t < |s.head| ==> s.head[t] < c.size)
       case Finishing => true
       case Booting => ValidHeader(c, s.disk[c.start]))
    case Crash => true
  }

  function EndOp(s: State, p: nat): State
    requires p < |s.procs|
  {
    var procs := s.procs[p := Out];
    if s.outstanding - 1 == 0 then
      s.(outstanding := 0, committing := true, procs := procs,
         pc := if |s.head| > 0 then Logging(0) else Finishing)
    else
      s.(outstanding := s.outstanding - 1, procs := WakeAll(procs))
  }

  // write_log, one block: copy the cached block into its log slot.
  function LogOne(c: Config, s: State, t: nat): State
    requires Layout(c) && |s.disk| == c.size && t < |s.head| < c.nlog && s.head[t] < c.size
  {
    var s1 := Load(s, s.head[t]);
    Put(s1, c.start + 1 + t, Logical(s1, s.head[t])).(pc := if t + 1 == |s.head| then Heading else Logging(t + 1))
  }

  // install_trans, one block: copy the log slot to its home.
  function InstallOne(c: Config, s: State, t: nat): State
    requires Layout(c) && |s.disk| == c.size && t < |s.head| < c.nlog && s.head[t] < c.size
    requires s.pc.Installing?
  {
    var s1 := Load(s, c.start + 1 + t);
    Put(s1, s.head[t], Logical(s1, c.start + 1 + t)).(pc := Installing(t + 1, s.pc.boot))
  }

  function WriteHead(c: Config, s: State): State
    requires Layout(c) && |s.disk| == c.size && |s.head| <= c.logsize && |Logical(s, c.start)| == c.words
  {
    Put(s, c.start, EncodeHead(Logical(s, c.start), s.head))
  }

  // The end of end_op: whoever slept in begin_op may try again.
  function Finished(s: State): State {
    s.(committing := false, procs := WakeAll(s.procs), pc := Idle)
  }

  function TickOf(c: Config, s: State): State
    requires Layout(c) && |s.disk| == c.size && Enabled(c, s, Tick)
  {
    match s.pc
    case Idle => s
    case Logging(t) => LogOne(c, s, t)
    case Heading => WriteHead(c, s).(pc := Installing(0, false))
    case Installing(t, boot) =>
      if t < |s.head| then InstallOne(c, s, t)
      else WriteHead(c, s.(head := [])).(pc := if boot then Idle else Finishing)
    case Finishing => Finished(s)
    case Booting => Load(s, c.start).(head := DecodeHead(c, s.disk[c.start]), pc := Installing(0, true))
  }

  function Reset(s: State): State {
    State(s.disk, map[], [], 0, false, Booting, seq(|s.procs|, i => Out))
  }

  ghost function Next(c: Config, s: State, l: Label): State
    requires Layout(c) && |s.disk| == c.size && Enabled(c, s, l)
  {
    match l
    case Begin(p) => s.(outstanding := s.outstanding + 1, procs := s.procs[p := In({}, {})])
    case Sleep(p) => s.(procs := s.procs[p := Asleep])
    case Read(b) =>
      var s1 := Load(s, b);
      s1.(cache := s1.cache[b := s1.cache[b].(refs := s1.cache[b].refs + 1)])
    case Release(b) => s.(cache := s.cache[b := s.cache[b].(refs := s.cache[b].refs - 1)])
    case Evict(b) => s.(cache := s.cache - {b})
    case Modify(p, b, data) =>
      s.(cache := s.cache[b := s.cache[b].(data := data)],
         procs := s.procs[p := In(s.procs[p].touched + {b}, s.procs[p].wrote)])
    case LogWrite(p, b) =>
      s.(head := if b in s.head then s.head else s.head + [b],
         cache := s.cache[b := s.cache[b].(dirty := true)],
         procs := s.procs[p := In(s.procs[p].touched - {b}, s.procs[p].wrote + {b})])
    case End(p) => EndOp(s, p)
    case Tick => TickOf(c, s)
    case Crash => Reset(s)
  }

  // ---------------------------------------------------------------- the invariant

  ghost predicate GoodHead(c: Config, head: seq<nat>) {
    && |head| <= c.logsize && |head| < c.nlog
    && (forall i | 0 <= i < |head| :: Home(c, head[i]))
    && (forall i, j | 0 <= i < j < |head| :: head[i] != head[j])
  }

  ghost predicate Shape(c: Config, s: State) {
    && |s.disk| == c.size
    && (forall b | 0 <= b < c.size :: |s.disk[b]| == c.words)
    && (forall b {:trigger s.cache[b]} | b in s.cache :: b < c.size && |s.cache[b].data| == c.words)
    && GoodHead(c, s.head)
  }

  // A buffer differs from its disk block only while an operation is modifying it
  // or while it is logged and not yet installed.
  ghost predicate Coherent(c: Config, s: State)
    requires |s.disk| == c.size
  {
    && (forall b {:trigger s.cache[b]} | b in s.cache && b < c.size && !s.cache[b].dirty && !Touched(s.procs, b) ::
          s.cache[b].data == s.disk[b])
    && (forall b {:trigger s.cache[b]} | b in s.cache && s.cache[b].dirty :: b in s.head)
    && (forall b: nat {:trigger Touched(s.procs, b)} | Touched(s.procs, b) ::
          Home(c, b) && b in s.cache && s.cache[b].refs > 0)
  }

  ghost predicate Pinned(s: State, from: nat) {
    forall i | from <= i < |s.head| :: s.head[i] in s.cache && s.cache[s.head[i]].dirty
  }

  ghost predicate Quiet(ps: seq<Proc>) {
    forall p | 0 <= p < |ps| :: !ps[p].In?
  }

  ghost predicate HeaderEmpty(c: Config, s: State)
    requires Layout(c) && Shape(c, s)
  {
    s.disk[c.start][0] == 0
  }

  // Slots 0..t of the log hold what the cache holds for the logged blocks.
  ghost predicate Copied(c: Config, s: State, t: nat)
    requires Layout(c) && Shape(c, s) && t <= |s.head|
  {
    forall i | 0 <= i < t :: s.disk[c.start + 1 + i] == Logical(s, s.head[i])
  }

  // The first t logged blocks have reached their homes.
  ghost predicate Installed(c: Config, disk: seq<Block>, head: seq<nat>, t: nat)
    requires Layout(c) && |disk| == c.size && GoodHead(c, head) && t <= |head|
  {
    forall i | 0 <= i < t :: disk[head[i]] == disk[c.start + 1 + i]
  }

  ghost predicate InstallPhase(c: Config, s: State, t: nat, boot: bool)
    requires Layout(c) && Shape(c, s) && ValidHeader(c, s.disk[c.start])
  {
    && t <= |s.head|
    && DecodeHead(c, s.disk[c.start]) == s.head
    && (!boot ==> Pinned(s, t) && Copied(c, s, |s.head|))
    && (boot ==> forall b | b in s.cache :: !s.cache[b].dirty)
    && Installed(c, s.disk, s.head, t)
    && (forall i | 0 <= i < t && s.head[i] in s.cache :: !s.cache[s.head[i]].dirty)
  }

  ghost predicate CommitPhase(c: Config, s: State)
    requires Layout(c) && Shape(c, s)
  {
    && (s.committing <==> s.pc.Logging? || s.pc.Heading? || (s.pc.Installing? && !s.pc.boot) || s.pc.Finishing?)
    && (!s.pc.Idle? ==> Quiet(s.procs))
    && ValidHeader(c, s.disk[c.start])
    && match s.pc
       case Idle => HeaderEmpty(c, s) && Pinned(s, 0) && (s.head != [] ==> s.outstanding > 0)
       case Logging(t) => HeaderEmpty(c, s) && Pinned(s, 0) && t < |s.head| && Copied(c, s, t)
       case Heading => HeaderEmpty(c, s) && Pinned(s, 0) && Copied(c, s, |s.head|)
       case Installing(t, boot) => InstallPhase(c, s, t, boot)
       case Finishing => HeaderEmpty(c, s) && s.head == []
       case Booting => s.cache == map[] && s.head == []
  }

  // The reservation made by begin_op covers everything logged and still to log.
  ghost predicate Reserved(c: Config, s: State) {
    && s.outstanding == Count(s.procs)
    && |s.head| + Unspent(s.procs, c.maxop) <= c.logsize
    && (forall p | 0 <= p < |s.procs| && s.procs[p].In? ::
          |s.procs[p].wrote| <= c.maxop && forall b | b in s.procs[p].wrote :: b in s.head)
  }

  // Whoever sleeps in begin_op has no room, and somebody left to wake it.
  ghost predicate SleepersCovered(c: Config, s: State) {
    (exists p :: 0 <= p < |s.procs| && s.procs[p].Asleep?) ==>
      s.committing || (s.outstanding > 0 && |s.head| + (s.outstanding + 1) * c.maxop > c.logsize)
  }

  ghost predicate Inv(c: Config, s: State)
    requires Layout(c)
  {
    Shape(c, s) && Coherent(c, s) && CommitPhase(c, s) && Reserved(c, s) && SleepersCovered(c, s)
  }
}
