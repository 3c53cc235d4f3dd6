// Every schedule of the compressor ends, and ends with the one-pass answer.

module PzipTheorems {
  import opened PzipEncode
  import opened PzipChunks
  import opened PzipProtocol

  // ---------------------------------------------------------------- runs

  ghost predicate StepTo(j: Job, s: State, l: Label, s': State) {
    Sizes(j, s) && Enabled(j, s, l) && s' == Next(j, s, l)
  }

  // A schedule from the start of main with n consumers.
  ghost predicate IsRun(j: Job, n: nat, states: seq<State>, labels: seq<Label>) {
    && j.qLen > 0 && |states| == |labels| + 1 && states[0] == Start(j, n)
    && forall i | 0 <= i < |labels| :: StepTo(j, states[i], labels[i], states[i + 1])
  }

  lemma {:induction false} RunInv(j: Job, n: nat, states: seq<State>, labels: seq<Label>, i: nat)
    requires IsRun(j, n, states, labels) && n > 0 && i < |states|
    ensures Inv(j, states[i]) && |states[i].cons| == n
  {
    if i == 0 {
      StartInv(j, n);
    } else {
      RunInv(j, n, states, labels, i - 1);
      assert StepTo(j, states[i - 1], labels[i - 1], states[i]);
      StepKeeps(j, states[i - 1], labels[i - 1]);
    }
  }

  // pthread_join has returned for every thread.
  ghost predicate Joined(s: State) {
    s.prod.PDone? && forall i | 0 <= i < |s.cons| :: s.cons[i].CExit?
  }

  lemma JoinedSlots(j: Job, s: State)
    requires Inv(j, s) && Joined(s)
    ensures forall k | 0 <= k < |j.chunks| :: s.writes[k] == 1 && s.output[k] == ChunkRuns(j.chunks[k])
  {
    assert s.cons[0].CExit?;
    forall k | 0 <= k < |j.chunks| ensures s.writes[k] == 1 && s.output[k] == ChunkRuns(j.chunks[k]) {
      assert !Working(s.cons, k);
    }
  }

  // Whatever the schedule, the number of consumers, the ring size and the chunk
  // size, as long as an int holds the file sizes and the chunk numbers: after the
  // joins every slot was written exactly once, and merging the
  // slots gives the maximal-run encoding of the whole input without its NULs.
  lemma ParallelEqualsSequential(files: seq<File>, chunkSz: nat, qLen: nat, n: nat,
                                 states: seq<State>, labels: seq<Label>, i: nat)
    requires 0 < chunkSz < INT_MAX1 && n > 0 && i < |states| && Countable(files, chunkSz)
    requires IsRun(Job(Produced(files, chunkSz), qLen), n, states, labels) && Joined(states[i])
    requires Strip(Input(files)) != []
    ensures |states[i].writes| == |AllChunks(files, chunkSz)|
    ensures forall k | 0 <= k < |states[i].writes| :: states[i].writes[k] == 1
    ensures var rs := Flatten(states[i].output);
      && rs != [] && Runs(rs) && Decode(rs) == Strip(Input(files))
      && JoinAfter(rs[0], rs[1..]) == MaxRuns(Strip(Input(files)))
  {
    ProducedExactly(files, chunkSz);
    var j := Job(Produced(files, chunkSz), qLen);
    RunInv(j, n, states, labels, i);
    JoinedSlots(j, states[i]);
    AllChunksCover(files, chunkSz);
    ChunksDecode(j.chunks, states[i].output);
    JoinIsMaxRuns(Flatten(states[i].output));
  }

  // The file that is written decodes to the input without its NULs, as long as an
  // int holds the length of every run.
  lemma OutputDecodes(files: seq<File>)
    requires Fit(MaxRuns(Strip(Input(files))))
    ensures Decode(Parse(FileBytes(MaxRuns(Strip(Input(files)))))) == Strip(Input(files))
    ensures Maximal(Parse(FileBytes(MaxRuns(Strip(Input(files))))))
  {
    var t := Strip(Input(files));
    MaxRunsDecode(t);
    MaxRunsMaximal(t);
    ParseInverts(MaxRuns(t));
  }

  // It does for any input below 2^31 bytes.
  lemma ShortInputsFit(t: seq<byte>)
    requires |t| < 0x8000_0000
    ensures Fit(MaxRuns(t))
  {
    MaxRunsDecode(t);
    forall i | 0 <= i < |MaxRuns(t)|
      ensures MaxRuns(t)[i].count < 0x8000_0000
    {
      CountBound(MaxRuns(t), MaxRuns(t)[i]);
    }
  }

  lemma {:induction false} CountBound(rs: seq<Rec>, r: Rec)
    requires r in rs
    ensures r.count <= |Decode(rs)|
  {
    if r != rs[0] { CountBound(rs[1..], r); }
  }

  // ---------------------------------------------------------------- liveness

  predicate Spurious(l: Label) {
    l.SpuriousP? || l.SpuriousC?
  }

  // Somebody can always move, without a spurious wakeup, until all have joined.
  lemma NoDeadlock(j: Job, s: State)
    requires Inv(j, s) && !Joined(s)
    ensures exists l :: !Spurious(l) && Enabled(j, s, l)
  {
    if s.prod.PFinal? {
      assert Enabled(j, s, Finish);
    } else if s.prod.PReady? {
      if s.numFull == j.qLen || NoneWaits(s.cons) {
        assert Enabled(j, s, Produce(-1));
      } else {
        var w :| 0 <= w < |s.cons| && s.cons[w].CWait?;
        assert Enabled(j, s, Produce(w));
      }
    } else {
      // A waiting producer means a full ring, hence an active consumer; a
      // finished one means that nobody waits.
      var i :| 0 <= i < |s.cons| && Active(s.cons[i]);
      ActiveMoves(j, s, i);
    }
  }

  lemma ActiveMoves(j: Job, s: State, i: nat)
    requires Inv(j, s) && i < |s.cons| && Active(s.cons[i])
    ensures exists l :: !Spurious(l) && Enabled(j, s, l)
  {
    match s.cons[i] {
      case CCheck => assert Enabled(j, s, Check(i));
      case CTop => assert Enabled(j, s, Top(i));
      case CWork(k) => assert Enabled(j, s, Work(i));
    }
  }

  // How far a consumer is from the end if nothing else happens.
  function Rank(s: State, c: Consumer): nat {
    match c
    case CExit => 0
    case CWait => 1
    case CTop => 2
    case CCheck => if Flag(s) then 3 else 1
    case CWork(_) => 4
  }

  function Ranks(s: State, cons: seq<Consumer>): nat {
    if cons == [] then 0 else Rank(s, cons[0]) + Ranks(s, cons[1..])
  }

  // Chunks and the final broadcast still to come from the producer; chunks not
  // yet taken; distance of all threads.  Compared lexicographically.
  ghost function ToPut(j: Job, s: State): int {
    |j.chunks| - s.next + (if s.isComplete then 0 else 1)
  }

  ghost function ToTake(j: Job, s: State): int {
    |j.chunks| - (s.next - s.numFull)
  }

  ghost function Distance(s: State): nat {
    Ranks(s, s.cons) + (if s.prod.PWait? then 0 else 1)
  }

  ghost function Measure(j: Job, s: State): int {
    (ToPut(j, s) * (|j.chunks| + 1) + ToTake(j, s)) * (4 * |s.cons| + 2) + Distance(s)
  }

  lemma {:induction false} RanksUpdate(s: State, cons: seq<Consumer>, i: nat, c: Consumer)
    requires i < |cons|
    ensures Ranks(s, cons[i := c]) == Ranks(s, cons) - Rank(s, cons[i]) + Rank(s, c)
  {
    if i == 0 {
      assert cons[i := c][1..] == cons[1..];
    } else {
      assert cons[i := c][1..] == cons[1..][i - 1 := c];
      RanksUpdate(s, cons[1..], i - 1, c);
    }
  }

  lemma {:induction false} RanksBound(s: State, cons: seq<Consumer>)
    ensures Ranks(s, cons) <= 4 * |cons|
  {
    if cons != [] { RanksBound(s, cons[1..]); }
  }

  lemma {:induction false} RanksSame(s: State, s': State, cons: seq<Consumer>)
    requires Flag(s) == Flag(s')
    ensures Ranks(s, cons) == Ranks(s', cons)
  {
    if cons != [] { RanksSame(s, s', cons[1..]); }
  }

  // Every step that is not a spurious wakeup goes down lexicographically.
  lemma StepDescends(j: Job, s: State, l: Label)
    requires Inv(j, s) && Enabled(j, s, l) && !Spurious(l)
    ensures var s' := Next(j, s, l);
      || ToPut(j, s') < ToPut(j, s)
      || (ToPut(j, s') == ToPut(j, s) && ToTake(j, s') < ToTake(j, s))
      || (ToPut(j, s') == ToPut(j, s) && ToTake(j, s') == ToTake(j, s) && Distance(s') < Distance(s))
  {
    var s' := Next(j, s, l);
    match l {
      case Produce(w) =>
        if s.numFull == j.qLen { RanksSame(s, s', s.cons); }
      case Finish =>
      case Check(i) =>
        RanksSame(s, s', s'.cons);
        RanksUpdate(s, s.cons, i, s'.cons[i]);
      case Top(i) =>
        if s.numFull == 0 {
          RanksSame(s, s', s'.cons);
          RanksUpdate(s, s.cons, i, s'.cons[i]);
        }
      case Work(i) =>
        RanksSame(s, s', s'.cons);
        RanksUpdate(s, s.cons, i, CCheck);
    }
  }

  lemma LexToNat(a: int, b: int, d: int, a': int, b': int, d': int, B: int, D: int)
    requires 0 <= a' && 0 <= b <= B && 0 <= b' <= B && 0 <= d < D && 0 <= d' < D
    requires a' < a || (a' == a && b' < b) || (a' == a && b' == b && d' < d)
    ensures (a' * (B + 1) + b') * D + d' < (a * (B + 1) + b) * D + d
  {
    var m, m' := a * (B + 1) + b, a' * (B + 1) + b';
    if a' < a {
      assert (a' + 1) * (B + 1) <= a * (B + 1);
      assert m' + 1 <= m;
    }
    if m' + 1 <= m { assert (m' + 1) * D <= m * D; }
  }

  lemma MeasureParts(j: Job, s: State)
    requires Inv(j, s)
    ensures ToPut(j, s) >= 0 && 0 <= ToTake(j, s) <= |j.chunks| && Distance(s) < 4 * |s.cons| + 2
  {
    RanksBound(s, s.cons);
  }

  lemma NonNegative(a: int, b: int, d: int, B: int, D: int)
    requires 0 <= a && 0 <= b && 0 <= d && 0 <= B && 0 <= D
    ensures (a * (B + 1) + b) * D + d >= 0
  {
    assert a * (B + 1) >= 0;
    assert (a * (B + 1) + b) * D >= 0;
  }

  lemma ConsumersStay(j: Job, s: State, l: Label)
    requires Sizes(j, s) && Enabled(j, s, l)
    ensures |Next(j, s, l).cons| == |s.cons|
  {
  }

  lemma MeasureDescends(j: Job, s: State, l: Label)
    requires Inv(j, s) && Enabled(j, s, l) && !Spurious(l)
    ensures 0 <= Measure(j, Next(j, s, l)) < Measure(j, s)
  {
    var s' := Next(j, s, l);
    var a, b, d := ToPut(j, s), ToTake(j, s), Distance(s);
    var a', b', d' := ToPut(j, s'), ToTake(j, s'), Distance(s');
    var D := 4 * |s.cons| + 2;
    ConsumersStay(j, s, l);
    assert Measure(j, s) == (a * (|j.chunks| + 1) + b) * D + d;
    assert Measure(j, s') == (a' * (|j.chunks| + 1) + b') * D + d';
    StepDescends(j, s, l);
    MeasureParts(j, s);
    assert a' >= 0 && 0 <= b' <= |j.chunks| && d' < D by {
      StepKeeps(j, s, l);
      MeasureParts(j, s');
    }
    LexToNat(a, b, d, a', b', d', |j.chunks|, D);
    NonNegative(a', b', d', |j.chunks|, D);
  }

  // So no schedule without spurious wakeups is longer than the first measure.
  lemma {:induction false} RunsAreBounded(j: Job, n: nat, states: seq<State>, labels: seq<Label>, i: nat)
    requires IsRun(j, n, states, labels) && n > 0 && i < |states|
    requires forall k | 0 <= k < |labels| :: !Spurious(labels[k])
    ensures Inv(j, states[i]) && Measure(j, states[i]) + i <= Measure(j, states[0])
    ensures i > 0 ==> Measure(j, states[i]) >= 0
  {
    RunInv(j, n, states, labels, i);
    if i > 0 {
      RunsAreBounded(j, n, states, labels, i - 1);
      assert StepTo(j, states[i - 1], labels[i - 1], states[i]);
      MeasureDescends(j, states[i - 1], labels[i - 1]);
    }
  }
}
