// The threads of pzip: one producer, the consumers, the bounded ring and the
// two condition variables.  A step is one critical section of the mutex, or the
// encoding of one chunk, which touches only the chunk's own output slot.

module PzipProtocol {
  import opened PzipEncode

  datatype Producer =
    | PReady    // has the next chunk in hand and wants the mutex
    | PWait     // in pthread_cond_wait on `empty`
    | PFinal    // all chunks put, about to set isComplete
    | PDone

  datatype Consumer =
    | CCheck    // about to recompute `flag`
    | CTop      // flag was set, wants the mutex
    | CWait     // in pthread_cond_wait on `fill`
    | CWork(chunk: nat)
    | CExit

  datatype State = State(
    ring: seq<nat>, fillPtr: nat, usePtr: nat, numFull: nat, isComplete: bool,
    next: nat,                 // globalPage
    prod: Producer, cons: seq<Consumer>,
    output: seq<seq<Rec>>,
    writes: seq<nat>)          // how often each output slot was written

  datatype Label =
    | Produce(woken: int)      // woken: the consumer that the signal reaches, or -1
    | Finish
    | Check(i: nat)
    | Top(i: nat)
    | Work(i: nat)
    | SpuriousP
    | SpuriousC(i: nat)

  datatype Job = Job(chunks: seq<seq<byte>>, qLen: nat)

  function Start(j: Job, n: nat): State
    requires j.qLen > 0
  {
    State(seq(j.qLen, i => 0), 0, 0, 0, false, 0,
          if j.chunks == [] then PFinal else PReady, seq(n, i => CCheck),
          seq(|j.chunks|, i => []), seq(|j.chunks|, i => 0))
  }

  predicate Flag(s: State) {
    s.numFull != 0 || !s.isComplete
  }

  // ---------------------------------------------------------------- steps

  ghost predicate Sizes(j: Job, s: State) {
    && j.qLen > 0 && |s.ring| == j.qLen && s.usePtr < j.qLen && s.fillPtr < j.qLen
    && |s.output| == |s.writes| == |j.chunks|
    && (forall i | 0 <= i < |s.cons| && s.cons[i].CWork? :: s.cons[i].chunk < |j.chunks|)
  }

  ghost predicate Enabled(j: Job, s: State, l: Label)
    requires Sizes(j, s)
  {
    match l
    case Produce(w) =>
      && s.prod.PReady? && s.next < |j.chunks|
      && (if s.numFull == j.qLen || NoneWaits(s.cons) then w == -1
          else 0 <= w < |s.cons| && s.cons[w].CWait?)
    case Finish => s.prod.PFinal?
    case Check(i) => i < |s.cons| && s.cons[i].CCheck?
    case Top(i) => i < |s.cons| && s.cons[i].CTop?
    case Work(i) => i < |s.cons| && s.cons[i].CWork?
    case SpuriousP => s.prod.PWait?
    case SpuriousC(i) => i < |s.cons| && s.cons[i].CWait?
  }

  ghost predicate NoneWaits(cons: seq<Consumer>) {
    forall i | 0 <= i < |cons| :: !cons[i].CWait?
  }

  // put()
  function Put(j: Job, s: State, item: nat): State
    requires j.qLen > 0 && |s.ring| == j.qLen && s.fillPtr < j.qLen
  {
    s.(ring := s.ring[s.fillPtr := item], fillPtr := (s.fillPtr + 1) % j.qLen, numFull := s.numFull + 1)
  }

  // get()
  function Get(j: Job, s: State): State
    requires j.qLen > 0 && s.numFull > 0
  {
    s.(usePtr := (s.usePtr + 1) % j.qLen, numFull := s.numFull - 1)
  }

  function ProduceOf(j: Job, s: State, w: int): State
    requires j.qLen > 0 && |s.ring| == j.qLen && s.fillPtr < j.qLen && w < |s.cons|
  {
    if s.numFull == j.qLen then s.(prod := PWait)
    else
      Put(j, s, s.next).(next := s.next + 1,
        prod := if s.next + 1 < |j.chunks| then PReady else PFinal,
        cons := if w >= 0 then s.cons[w := CTop] else s.cons)
  }

  function Broadcast(cons: seq<Consumer>): seq<Consumer> {
    seq(|cons|, i requires 0 <= i < |cons| => if cons[i].CWait? then CTop else cons[i])
  }

  function TopOf(j: Job, s: State, i: nat): State
    requires j.qLen > 0 && |s.ring| == j.qLen && s.usePtr < j.qLen && i < |s.cons|
  {
    if s.numFull == 0 && !s.isComplete then s.(cons := s.cons[i := CWait])
    else if s.numFull != 0 then
      Get(j, s).(cons := s.cons[i := CWork(s.ring[s.usePtr])], prod := if s.prod.PWait? then PReady else s.prod)
    else s.(cons := s.cons[i := CCheck])
  }

  function WorkOf(j: Job, s: State, i: nat): State
    requires i < |s.cons| && s.cons[i].CWork? && s.cons[i].chunk < |j.chunks| == |s.output| == |s.writes|
  {
    var k := s.cons[i].chunk;
    s.(output := s.output[k := ChunkRuns(j.chunks[k])], writes := s.writes[k := s.writes[k] + 1],
       cons := s.cons[i := CCheck])
  }

  ghost function Next(j: Job, s: State, l: Label): State
    requires Sizes(j, s) && Enabled(j, s, l)
  {
    match l
    case Produce(w) => ProduceOf(j, s, w)
    case Finish => s.(isComplete := true, prod := PDone, cons := Broadcast(s.cons))
    case Check(i) => s.(cons := s.cons[i := if Flag(s) then CTop else CExit])
    case Top(i) => TopOf(j, s, i)
    case Work(i) => WorkOf(j, s, i)
    case SpuriousP => s.(prod := PReady)
    case SpuriousC(i) => s.(cons := s.cons[i := CTop])
  }

  // ---------------------------------------------------------------- the invariant

  predicate Active(c: Consumer) {
    c.CCheck? || c.CTop? || c.CWork?
  }

  ghost predicate SomeActive(cons: seq<Consumer>) {
    exists i :: 0 <= i < |cons| && Active(cons[i])
  }

  function RingAt(j: Job, u: nat, k: nat): nat
    requires j.qLen > 0
  {
    (u + k) % j.qLen
  }

  // The ring holds the chunks put and not yet taken, oldest first.
  ghost predicate RingInv(j: Job, s: State) {
    && j.qLen > 0 && |s.ring| == j.qLen && s.usePtr < j.qLen
    && s.fillPtr == (s.usePtr + s.numFull) % j.qLen
    && s.numFull <= j.qLen && s.numFull <= s.next <= |j.chunks|
    && (forall k: nat | k < s.numFull :: s.ring[RingAt(j, s.usePtr, k)] == s.next - s.numFull + k)
  }

  ghost predicate PhaseInv(j: Job, s: State) {
    && (s.isComplete <==> s.prod.PDone?)
    && (s.prod.PReady? || s.prod.PWait? ==> s.next < |j.chunks|)
    && (s.prod.PFinal? || s.prod.PDone? ==> s.next == |j.chunks|)
    && (s.prod.PWait? ==> s.numFull == j.qLen)
    && (forall i | 0 <= i < |s.cons| && s.cons[i].CWait? :: !s.isComplete)
    && (forall i | 0 <= i < |s.cons| && s.cons[i].CExit? :: s.isComplete && s.numFull == 0)
    && |s.cons| > 0 && (s.numFull > 0 ==> SomeActive(s.cons))
  }

  // Every chunk taken is being encoded by exactly one consumer or was written exactly once.
  ghost predicate SlotInv(j: Job, s: State) {
    && |s.output| == |s.writes| == |j.chunks| && s.numFull <= s.next
    && (forall i | 0 <= i < |s.cons| && s.cons[i].CWork? ::
          s.cons[i].chunk < s.next - s.numFull && s.cons[i].chunk < |j.chunks| && s.writes[s.cons[i].chunk] == 0)
    && (forall i, k | 0 <= i < k < |s.cons| && s.cons[i].CWork? && s.cons[k].CWork? ::
          s.cons[i].chunk != s.cons[k].chunk)
    && (forall k | 0 <= k < |j.chunks| ::
          if k >= s.next - s.numFull then s.writes[k] == 0
          else if s.writes[k] == 0 then Working(s.cons, k)
          else s.writes[k] == 1 && s.output[k] == ChunkRuns(j.chunks[k]))
  }

  ghost predicate Working(cons: seq<Consumer>, k: nat) {
    exists i :: 0 <= i < |cons| && cons[i] == CWork(k)
  }

  ghost predicate Inv(j: Job, s: State) {
    RingInv(j, s) && PhaseInv(j, s) && SlotInv(j, s)
  }

  lemma StartInv(j: Job, n: nat)
    requires j.qLen > 0 && n > 0
    ensures Inv(j, Start(j, n))
  {
  }

  // ---------------------------------------------------------------- the ring

  lemma RingIndex(j: Job, u: nat, k: nat)
    requires u < j.qLen && k <= j.qLen
    ensures RingAt(j, u, k) == if u + k < j.qLen then u + k else u + k - j.qLen
  {
  }

  lemma PutKeepsRing(j: Job, s: State, s': State)
    requires RingInv(j, s) && s.numFull < j.qLen && s.next < |j.chunks|
    requires s'.ring == s.ring[s.fillPtr := s.next] && s'.fillPtr == (s.fillPtr + 1) % j.qLen
    requires s'.numFull == s.numFull + 1 && s'.next == s.next + 1 && s'.usePtr == s.usePtr
    ensures RingInv(j, s')
  {
    RingIndex(j, s.usePtr, s.numFull);
    RingIndex(j, s.usePtr, s.numFull + 1);
    RingIndex(j, s.fillPtr, 1);
    forall k: nat | k < s'.numFull ensures s'.ring[RingAt(j, s'.usePtr, k)] == s'.next - s'.numFull + k {
      RingIndex(j, s.usePtr, k);
    }
  }

  lemma GetKeepsRing(j: Job, s: State, s': State)
    requires RingInv(j, s) && s.numFull > 0
    requires s'.ring == s.ring && s'.usePtr == (s.usePtr + 1) % j.qLen && s'.fillPtr == s.fillPtr
    requires s'.numFull == s.numFull - 1 && s'.next == s.next
    ensures RingInv(j, s') && s.ring[s.usePtr] == s.next - s.numFull
  {
    RingIndex(j, s.usePtr, 0);
    RingIndex(j, s.usePtr, 1);
    RingIndex(j, s.usePtr, s.numFull);
    RingIndex(j, s'.usePtr, s'.numFull);
    forall k: nat | k < s'.numFull ensures s'.ring[RingAt(j, s'.usePtr, k)] == s'.next - s'.numFull + k {
      RingIndex(j, s'.usePtr, k);
      RingIndex(j, s.usePtr, k + 1);
    }
  }

  // ---------------------------------------------------------------- steps keep the invariant

  lemma WorkingAfter(cons: seq<Consumer>, i: nat, c: Consumer, k: nat)
    requires i < |cons| && Working(cons, k) && cons[i] != CWork(k)
    ensures Working(cons[i := c], k)
  {
    var q :| 0 <= q < |cons| && cons[q] == CWork(k);
    assert cons[i := c][q] == CWork(k);
  }

  // Moving a consumer between states in which it holds no chunk.
  lemma IdleMoveKeepsSlots(j: Job, s: State, i: nat, c: Consumer)
    requires SlotInv(j, s) && i < |s.cons| && !s.cons[i].CWork? && !c.CWork?
    ensures SlotInv(j, s.(cons := s.cons[i := c]))
  {
    forall k: nat | Working(s.cons, k) ensures Working(s.cons[i := c], k) {
      WorkingAfter(s.cons, i, c, k);
    }
  }

  lemma ActiveAfter(cons: seq<Consumer>, i: nat, c: Consumer)
    requires i < |cons| && Active(c)
    ensures SomeActive(cons[i := c])
  {
    assert Active(cons[i := c][i]);
  }

  lemma ProduceKeeps(j: Job, s: State, w: int)
    requires Inv(j, s) && Enabled(j, s, Produce(w))
    ensures Inv(j, ProduceOf(j, s, w))
  {
    var s' := ProduceOf(j, s, w);
    if s.numFull < j.qLen {
      PutKeepsRing(j, s, s');
      if w >= 0 {
        ActiveAfter(s.cons, w, CTop);
        IdleMoveKeepsSlots(j, s, w, CTop);
      } else {
        // Nobody waits and nobody has left, so everybody is active.
        assert Active(s.cons[0]);
      }
      SlotsAfterPut(j, s.(cons := s'.cons), s');
    }
  }

  lemma SlotsAfterPut(j: Job, s: State, s': State)
    requires SlotInv(j, s) && s'.cons == s.cons && s'.output == s.output && s'.writes == s.writes
    requires s'.next == s.next + 1 && s'.numFull == s.numFull + 1
    ensures SlotInv(j, s')
  {
  }

  lemma FinishKeeps(j: Job, s: State)
    requires Inv(j, s) && s.prod.PFinal?
    ensures Inv(j, s.(isComplete := true, prod := PDone, cons := Broadcast(s.cons)))
  {
    var cons := Broadcast(s.cons);
    if s.numFull > 0 {
      var i :| 0 <= i < |s.cons| && Active(s.cons[i]);
      assert Active(cons[i]);
    }
    forall k: nat | Working(s.cons, k) ensures Working(cons, k) {
      var i :| 0 <= i < |s.cons| && s.cons[i] == CWork(k);
      assert cons[i] == CWork(k);
    }
  }

  lemma CheckKeeps(j: Job, s: State, i: nat)
    requires Inv(j, s) && i < |s.cons| && s.cons[i].CCheck?
    ensures Inv(j, s.(cons := s.cons[i := if Flag(s) then CTop else CExit]))
  {
    IdleMoveKeepsSlots(j, s, i, if Flag(s) then CTop else CExit);
    if Flag(s) { ActiveAfter(s.cons, i, CTop); }
  }

  lemma TopKeeps(j: Job, s: State, i: nat)
    requires Inv(j, s) && i < |s.cons| && s.cons[i].CTop?
    ensures Inv(j, TopOf(j, s, i))
  {
    var s' := TopOf(j, s, i);
    if s.numFull == 0 {
      IdleMoveKeepsSlots(j, s, i, s'.cons[i]);
    } else {
      GetKeepsRing(j, s, s');
      ActiveAfter(s.cons, i, s'.cons[i]);
      SlotsAfterGet(j, s, s', i);
    }
  }

  lemma SlotsAfterGet(j: Job, s: State, s': State, i: nat)
    requires SlotInv(j, s) && i < |s.cons| && s.cons[i].CTop? && 0 < s.numFull <= s.next <= |j.chunks|
    requires s'.cons == s.cons[i := CWork(s.next - s.numFull)] && s'.output == s.output && s'.writes == s.writes
    requires s'.next == s.next && s'.numFull == s.numFull - 1
    ensures SlotInv(j, s')
  {
    var c := CWork(s.next - s.numFull);
    assert s'.cons[i] == c;
    forall k: nat | Working(s.cons, k) ensures Working(s'.cons, k) {
      WorkingAfter(s.cons, i, c, k);
    }
  }

  lemma WorkKeeps(j: Job, s: State, i: nat)
    requires Inv(j, s) && i < |s.cons| && s.cons[i].CWork?
    ensures Inv(j, WorkOf(j, s, i))
  {
    var s' := WorkOf(j, s, i);
    ActiveAfter(s.cons, i, CCheck);
    forall k: nat | Working(s.cons, k) && k != s.cons[i].chunk ensures Working(s'.cons, k) {
      WorkingAfter(s.cons, i, CCheck, k);
    }
  }

  lemma SpuriousKeeps(j: Job, s: State, i: nat)
    requires Inv(j, s) && i < |s.cons| && s.cons[i].CWait?
    ensures Inv(j, s.(cons := s.cons[i := CTop]))
  {
    IdleMoveKeepsSlots(j, s, i, CTop);
    ActiveAfter(s.cons, i, CTop);
  }

  lemma StepKeeps(j: Job, s: State, l: Label)
    requires Inv(j, s) && Enabled(j, s, l)
    ensures Inv(j, Next(j, s, l))
  {
    match l {
      case Produce(w) => ProduceKeeps(j, s, w);
      case Finish => FinishKeeps(j, s);
      case Check(i) => CheckKeeps(j, s, i);
      case Top(i) => TopKeeps(j, s, i);
      case Work(i) => WorkKeeps(j, s, i);
      case SpuriousP =>
      case SpuriousC(i) => SpuriousKeeps(j, s, i);
    }
  }
}
