// proc.c's scheduler(): passes over the process table, each runnable process
// getting as many slices in a row as it has tickets.

module Scheduler {
  import P = ProcFamily

  type Status = P.Status

  // ---------------------------------------------------------------- traces of slices

  function Count(x: seq<nat>, p: nat): nat {
    if x == [] then 0 else Count(x[..|x| - 1], p) + if x[|x| - 1] == p then 1 else 0
  }

  // Slices of one pass: in table order, and nobody beyond its tickets.
  ghost predicate IsPass(x: seq<nat>, tickets: seq<nat>) {
    && (forall i | 0 <= i < |x| :: x[i] < |tickets|)
    && (forall i, j | 0 <= i < j < |x| :: x[i] <= x[j])
    && (forall p | 0 <= p < |tickets| :: Count(x, p) <= tickets[p])
  }

  lemma {:induction false} CountConcat(x: seq<nat>, y: seq<nat>, p: nat)
    ensures Count(x + y, p) == Count(x, p) + Count(y, p)
  {
    if y == [] {
      assert x + y == x;
    } else {
      assert (x + y)[..|x + y| - 1] == x + y[..|y| - 1];
      CountConcat(x, y[..|y| - 1], p);
    }
  }

  lemma {:induction false} CountPart(x: seq<nat>, a: nat, b: nat, p: nat)
    requires a <= b <= |x|
    ensures Count(x[a..b], p) <= Count(x, p)
  {
    assert x == x[..a] + (x[a..b] + x[b..]);
    CountConcat(x[..a], x[a..b] + x[b..], p);
    CountConcat(x[a..b], x[b..], p);
  }

  lemma {:induction false} CountAbsent(x: seq<nat>, p: nat)
    requires forall i | 0 <= i < |x| :: x[i] != p
    ensures Count(x, p) == 0
  {
    if x != [] { CountAbsent(x[..|x| - 1], p); }
  }

  // ---------------------------------------------------------------- whole schedules

  function Flat(passes: seq<seq<nat>>): seq<nat> {
    if passes == [] then [] else Flat(passes[..|passes| - 1]) + passes[|passes| - 1]
  }

  // p had its tickets' worth of slices in every pass: it was runnable throughout.
  ghost predicate Steady(passes: seq<seq<nat>>, tickets: seq<nat>, p: nat) {
    p < |tickets| && forall k | 0 <= k < |passes| :: Count(passes[k], p) == tickets[p]
  }

  // k passes give a steady process exactly k * tickets slices.
  lemma {:induction false} ExactShare(passes: seq<seq<nat>>, tickets: seq<nat>, p: nat)
    requires Steady(passes, tickets, p)
    ensures Count(Flat(passes), p) == |passes| * tickets[p]
  {
    if passes != [] {
      var init := passes[..|passes| - 1];
      ExactShare(init, tickets, p);
      CountConcat(Flat(init), passes[|passes| - 1], p);
    }
  }

  // The full passes cancel out.
  lemma Between(k: nat, a: nat, b: nat, ta: nat, tb: nat)
    requires a <= ta && b <= tb
    ensures -(ta * tb) <= (k * ta + a) * tb - (k * tb + b) * ta <= ta * tb
  {
    calc {
      (k * ta + a) * tb - (k * tb + b) * ta;
      k * ta * tb + a * tb - k * tb * ta - b * ta;
      { assert k * ta * tb == k * tb * ta; }
      a * tb - b * ta;
    }
    assert a * tb <= ta * tb && b * ta <= tb * ta;
  }

  lemma PartialShare(passes: seq<seq<nat>>, current: seq<nat>, tickets: seq<nat>, p: nat, q: nat)
    requires Steady(passes, tickets, p) && Steady(passes, tickets, q)
    requires Count(current, p) <= tickets[p] && Count(current, q) <= tickets[q]
    ensures InProportion(Flat(passes) + current, tickets, p, q)
  {
    CountConcat(Flat(passes), current, p);
    CountConcat(Flat(passes), current, q);
    ExactShare(passes, tickets, p);
    ExactShare(passes, tickets, q);
    Between(|passes|, Count(current, p), Count(current, q), tickets[p], tickets[q]);
  }

  predicate InProportion(x: seq<nat>, tickets: seq<nat>, p: nat, q: nat)
    requires p < |tickets| && q < |tickets|
  {
    -(tickets[p] * tickets[q]) <= Count(x, p) * tickets[q] - Count(x, q) * tickets[p] <= tickets[p] * tickets[q]
  }

  // At every moment two steady processes have had slices in proportion to their
  // tickets, to within one pass, whatever the other processes do.
  lemma {:induction false} ProportionalShare(passes: seq<seq<nat>>, tickets: seq<nat>, p: nat, q: nat, t: nat)
    requires Steady(passes, tickets, p) && Steady(passes, tickets, q) && t <= |Flat(passes)|
    ensures InProportion(Flat(passes)[..t], tickets, p, q)
    decreases |passes|
  {
    if passes == [] {
      assert Flat(passes)[..t] == [];
    } else {
      var init, last := passes[..|passes| - 1], passes[|passes| - 1];
      if t <= |Flat(init)| {
        assert Flat(passes)[..t] == Flat(init)[..t];
        ProportionalShare(init, tickets, p, q, t);
      } else {
        var c := t - |Flat(init)|;
        assert Flat(passes)[..t] == Flat(init) + last[0..c];
        CountPart(last, 0, c, p);
        CountPart(last, 0, c, q);
        PartialShare(init, last[0..c], tickets, p, q);
      }
    }
  }

  // ---------------------------------------------------------------- how long a runnable process waits

  function Sum(tickets: seq<nat>, lo: nat, hi: nat): nat
    requires lo <= hi <= |tickets|
  {
    if lo == hi then 0 else Sum(tickets, lo, hi - 1) + tickets[hi - 1]
  }

  // A stretch of a pass that only mentions slots lo..hi is no longer than their tickets.
  lemma {:induction false} StretchBound(x: seq<nat>, tickets: seq<nat>, lo: nat, hi: nat)
    requires IsPass(x, tickets) && lo <= hi <= |tickets| && forall i | 0 <= i < |x| :: lo <= x[i] < hi
    ensures |x| <= Sum(tickets, lo, hi)
    decreases hi
  {
    if lo < hi {
      var c := Tail(x, hi - 1);
      var y := x[..|x| - c];
      forall p | 0 <= p < |tickets| ensures Count(y, p) <= tickets[p] { CountPart(x, 0, |x| - c, p); }
      StretchBound(y, tickets, lo, hi - 1);
    }
  }

  // The slices of the last slot are at the end.
  lemma {:induction false} Tail(x: seq<nat>, p: nat) returns (c: nat)
    requires (forall i | 0 <= i < |x| :: x[i] <= p) && (forall i, j | 0 <= i < j < |x| :: x[i] <= x[j])
    ensures c == Count(x, p) <= |x| && forall i | 0 <= i < |x| - c :: x[i] < p
  {
    if x == [] {
      c := 0;
    } else if x[|x| - 1] == p {
      c := Tail(x[..|x| - 1], p);
      c := c + 1;
    } else {
      CountAbsent(x, p);
      c := 0;
    }
  }

  lemma PassPart(x: seq<nat>, tickets: seq<nat>, a: nat, b: nat)
    requires IsPass(x, tickets) && a <= b <= |x|
    ensures IsPass(x[a..b], tickets)
  {
    forall p | 0 <= p < |tickets| ensures Count(x[a..b], p) <= tickets[p] { CountPart(x, a, b, p); }
  }

  lemma SamePass(x: seq<nat>, y: seq<nat>, p: nat, i: nat, j: nat)
    requires (forall a, b | 0 <= a < b < |x| :: x[a] <= x[b]) && i < j < |x| && x[i] == p == x[j]
    ensures i + 1 < j ==> (x + y)[i + 1] == p
  {
    assert x[i] <= x[i + 1] && (i + 1 < j ==> x[i + 1] <= x[j]);
  }

  // From a slice of p in one pass to its next one, in the same or the next pass, at
  // most the others' tickets go by.
  lemma WaitBound(x: seq<nat>, y: seq<nat>, tickets: seq<nat>, p: nat, i: nat, j: nat)
    requires IsPass(x, tickets) && IsPass(y, tickets) && p < |tickets|
    requires i < |x| && x[i] == p && i < j < |x| + |y| && (x + y)[j] == p
    requires forall k | i < k < j :: (x + y)[k] != p
    ensures j - i - 1 <= Sum(tickets, 0, p) + Sum(tickets, p + 1, |tickets|)
  {
    if j < |x| {
      SamePass(x, y, p, i, j);
    } else {
      var after, before := x[i + 1..], y[..j - |x|];
      assert forall k | 0 <= k < |after| :: after[k] == (x + y)[i + 1 + k];
      assert forall k | 0 <= k < |before| :: before[k] == (x + y)[|x| + k];
      assert y[j - |x|] == p;
      PassPart(x, tickets, i + 1, |x|);
      assert x[i + 1..|x|] == after;
      PassPart(y, tickets, 0, j - |x|);
      assert y[0..j - |x|] == before;
      StretchBound(after, tickets, p + 1, |tickets|);
      StretchBound(before, tickets, 0, p);
    }
  }

  // Where p is in a pass, everything before is lower or p and everything behind higher or p.
  lemma {:induction false} Occurs(x: seq<nat>, p: nat) returns (i: nat)
    requires Count(x, p) > 0
    ensures i < |x| && x[i] == p
  {
    i := |x| - 1;
    if x[i] != p { i := Occurs(x[..i], p); }
  }

  // A stretch of one pass without p, which has slices in that pass.
  lemma GapInPass(x: seq<nat>, tickets: seq<nat>, p: nat, a: nat, b: nat)
    requires IsPass(x, tickets) && p < |tickets| && Count(x, p) > 0 && a <= b <= |x|
    requires forall i | a <= i < b :: x[i] != p
    ensures b - a <= Sum(tickets, 0, p) || (b - a <= Sum(tickets, p + 1, |tickets|) && a > 0)
    ensures b == |x| ==> b - a <= Sum(tickets, p + 1, |tickets|)
  {
    var i := Occurs(x, p);
    PassPart(x, tickets, a, b);
    if i < a {
      assert forall j | a <= j < b :: x[i] <= x[j];
      StretchBound(x[a..b], tickets, p + 1, |tickets|);
    } else {
      assert forall j | a <= j < b :: x[j] <= x[i];
      StretchBound(x[a..b], tickets, 0, p);
    }
  }

  ghost predicate ArePasses(passes: seq<seq<nat>>, tickets: seq<nat>) {
    forall k | 0 <= k < |passes| :: IsPass(passes[k], tickets)
  }

  function Others(tickets: seq<nat>, p: nat): nat
    requires p < |tickets|
  {
    Sum(tickets, 0, p) + Sum(tickets, p + 1, |tickets|)
  }

  // From any moment of a schedule on, a process that stays runnable is served after
  // at most the others' tickets.
  lemma {:induction false} GapBound(passes: seq<seq<nat>>, tickets: seq<nat>, p: nat, a: nat, b: nat)
    requires ArePasses(passes, tickets) && Steady(passes, tickets, p) && tickets[p] > 0
    requires a <= b <= |Flat(passes)| && forall i | a <= i < b :: Flat(passes)[i] != p
    ensures b - a <= Others(tickets, p)
    ensures b == |Flat(passes)| ==> b - a <= Sum(tickets, p + 1, |tickets|)
    decreases |passes|
  {
    if passes != [] {
      var init, last := passes[..|passes| - 1], passes[|passes| - 1];
      var n := |Flat(init)|;
      var _ := Occurs(last, p);
      var x := Flat(passes);
      assert x == Flat(init) + last;
      assert forall i | a <= i < b :: if i < n then Flat(init)[i] == x[i] else last[i - n] == x[i];
      if b <= n {
        GapBound(init, tickets, p, a, b);
      } else {
        if a < n { GapBound(init, tickets, p, a, n); }
        var lo := if a < n then 0 else a - n;
        forall i | lo <= i < b - n ensures last[i] != p { assert x[i + n] != p; }
        GapInPass(last, tickets, p, lo, b - n);
      }
    }
  }

  // ---------------------------------------------------------------- the loop

  // What everybody's status is at the n-th moment of a kind: after a slice, when the
  // process switches back, or before a pass, when ptable.lock is taken again.
  type Env = nat -> seq<Status>

  ghost predicate Covers(env: Env, n: nat) {
    forall t :: |env(t)| == n
  }

  predicate Ready(s: seq<Status>, p: nat) {
    p < |s| && s[p] == P.Runnable
  }

  // What the scheduler sees behind c slices of a pass, begun with status0 after n others.
  function Seen(env: Env, status0: seq<Status>, n: nat, c: nat): seq<Status> {
    if c == 0 then status0 else env(n + c - 1)
  }

  // Behind c slices of the pass x, p has had its turn.
  predicate TurnOver(x: seq<nat>, p: nat, c: nat) {
    c <= |x| && (forall i | 0 <= i < c :: x[i] <= p) && forall i | c <= i < |x| :: x[i] > p
  }

  // Each slice of x goes to a process that is runnable at that moment, and who has
  // fewer slices than tickets is not runnable when its turn is over.
  ghost predicate IsTurn(x: seq<nat>, tickets: seq<nat>, env: Env, status0: seq<Status>, n: nat) {
    && IsPass(x, tickets)
    && (forall i | 0 <= i < |x| :: Ready(Seen(env, status0, n, i), x[i]))
    && forall p: nat, c: nat {:trigger TurnOver(x, p, c)} | p < |tickets| && TurnOver(x, p, c) ::
      Count(x, p) < tickets[p] ==> !Ready(Seen(env, status0, n, c), p)
  }

  ghost predicate StaysRunnable(env: Env, p: nat) {
    forall n :: p < |env(n)| && env(n)[p] == P.Runnable
  }

  // p is runnable whenever the scheduler looks at it.
  ghost predicate Served(slice: Env, pass: Env, p: nat) {
    StaysRunnable(slice, p) && StaysRunnable(pass, p)
  }

  // p and q have had slices of x in proportion to their tickets at every moment.
  ghost predicate Fair(x: seq<nat>, tickets: seq<nat>, p: nat, q: nat) {
    p < |tickets| && q < |tickets| && forall t {:trigger x[..t]} | 0 <= t <= |x| :: InProportion(x[..t], tickets, p, q)
  }

  // Any stretch of x without p is no longer than the others' tickets.
  ghost predicate Prompt(x: seq<nat>, tickets: seq<nat>, p: nat) {
    p < |tickets| && (tickets[p] > 0 ==>
      forall a, b {:trigger x[a..b]} | 0 <= a <= b <= |x| && p !in x[a..b] :: b - a <= Others(tickets, p))
  }

  lemma SteadyIsFair(passes: seq<seq<nat>>, tickets: seq<nat>, p: nat, q: nat)
    requires Steady(passes, tickets, p) && Steady(passes, tickets, q)
    ensures Fair(Flat(passes), tickets, p, q)
  {
    forall t | 0 <= t <= |Flat(passes)| ensures InProportion(Flat(passes)[..t], tickets, p, q) {
      ProportionalShare(passes, tickets, p, q, t);
    }
  }

  lemma SteadyIsPrompt(passes: seq<seq<nat>>, tickets: seq<nat>, p: nat)
    requires ArePasses(passes, tickets) && Steady(passes, tickets, p)
    ensures Prompt(Flat(passes), tickets, p)
  {
    var x := Flat(passes);
    if tickets[p] > 0 {
      forall a, b | 0 <= a <= b <= |x| && p !in x[a..b] ensures b - a <= Others(tickets, p) {
        forall i | a <= i < b ensures x[i] != p { assert x[i] == x[a..b][i - a]; }
        GapBound(passes, tickets, p, a, b);
      }
    }
  }

  // What the table counts after the schedule.
  lemma Counted(passes: seq<seq<nat>>, tickets: seq<nat>, p: nat, start: seq<nat>)
    requires Steady(passes, tickets, p)
    ensures Count(start + Flat(passes), p) == Count(start, p) + |passes| * tickets[p]
  {
    ExactShare(passes, tickets, p);
    CountConcat(start, Flat(passes), p);
  }

  // The i-th pass starts behind the slices of those before it.
  ghost predicate TurnAt(passes: seq<seq<nat>>, tickets: seq<nat>, slice: Env, pass: Env, n: nat, i: nat)
    requires i < |passes|
  {
    IsTurn(passes[i], tickets, slice, pass(i), n + |Flat(passes[..i])|)
  }

  ghost predicate AreTurns(passes: seq<seq<nat>>, tickets: seq<nat>, slice: Env, pass: Env, n: nat) {
    forall i {:trigger TurnAt(passes, tickets, slice, pass, n, i)} | 0 <= i < |passes| ::
      TurnAt(passes, tickets, slice, pass, n, i)
  }

  lemma KeepsTurn(passes: seq<seq<nat>>, more: seq<seq<nat>>, tickets: seq<nat>, slice: Env, pass: Env, n: nat, i: nat)
    requires i < |passes| <= |more| && more[..|passes|] == passes
    ensures TurnAt(more, tickets, slice, pass, n, i) == TurnAt(passes, tickets, slice, pass, n, i)
  {
    assert more[..i] == passes[..i] && more[i] == passes[i];
  }

  lemma TurnsMore(passes: seq<seq<nat>>, more: seq<seq<nat>>, tickets: seq<nat>, slice: Env, pass: Env, n: nat)
    requires AreTurns(passes, tickets, slice, pass, n) && |more| == |passes| + 1 && more[..|passes|] == passes
    requires IsTurn(more[|passes|], tickets, slice, pass(|passes|), n + |Flat(passes)|)
    ensures AreTurns(more, tickets, slice, pass, n)
  {
    assert TurnAt(more, tickets, slice, pass, n, |passes|);
    forall i | 0 <= i < |more| ensures TurnAt(more, tickets, slice, pass, n, i) {
      if i < |passes| { KeepsTurn(passes, more, tickets, slice, pass, n, i); }
    }
  }

  // A pass that has come to slot `upto`.
  ghost predicate PartTurn(x: seq<nat>, tickets: seq<nat>, env: Env, status0: seq<Status>, n: nat, upto: nat) {
    && IsPass(x, tickets)
    && (forall i | 0 <= i < |x| :: Ready(Seen(env, status0, n, i), x[i]))
    && forall p: nat, c: nat {:trigger TurnOver(x, p, c)} | p < upto && p < |tickets| && TurnOver(x, p, c) ::
      Count(x, p) < tickets[p] ==> !Ready(Seen(env, status0, n, c), p)
  }

  lemma TurnSkips(x: seq<nat>, tickets: seq<nat>, env: Env, status0: seq<Status>, n: nat, p: nat)
    requires PartTurn(x, tickets, env, status0, n, p) && (forall i | 0 <= i < |x| :: x[i] < p)
    requires !Ready(Seen(env, status0, n, |x|), p)
    ensures PartTurn(x, tickets, env, status0, n, p + 1)
  {
  }

  // Slot p had its slices y, the first of them when it was runnable.
  lemma TurnAdds(x: seq<nat>, y: seq<nat>, tickets: seq<nat>, env: Env, status0: seq<Status>, n: nat, p: nat)
    requires PartTurn(x, tickets, env, status0, n, p) && (forall i | 0 <= i < |x| :: x[i] < p) && p < |tickets|
    requires |y| <= tickets[p] && (forall i | 0 <= i < |y| :: y[i] == p) && Ready(Seen(env, status0, n, |x|), p)
    requires forall m | n + |x| <= m < n + |x| + |y| - 1 :: Ready(env(m), p)
    requires |y| < tickets[p] ==> !Ready(Seen(env, status0, n, |x| + |y|), p)
    ensures PartTurn(x + y, tickets, env, status0, n, p + 1)
    ensures forall q: nat :: Count(x + y, q) == if q == p then |y| else Count(x, q)
  {
    var z := x + y;
    SlotAdds(x, y, tickets, p);
    forall i | 0 <= i < |z| ensures Ready(Seen(env, status0, n, i), z[i]) {
      if i >= |x| { assert z[i] == y[i - |x|]; }
    }
    forall q: nat, c: nat | q < p + 1 && q < |tickets| && TurnOver(z, q, c)
      ensures Count(z, q) < tickets[q] ==> !Ready(Seen(env, status0, n, c), q)
    {
      if q < p { StillOver(x, y, p, q, c); }
    }
  }

  lemma StillOver(x: seq<nat>, y: seq<nat>, p: nat, q: nat, c: nat)
    requires q < p && (forall i | 0 <= i < |y| :: y[i] == p) && TurnOver(x + y, q, c)
    ensures TurnOver(x, q, c)
  {
    assert c <= |x| by { assert y != [] ==> (x + y)[|x|] == y[0]; }
    assert forall i | 0 <= i < |x| :: (x + y)[i] == x[i];
  }

  lemma {:induction false} FindTurn(x: seq<nat>, p: nat) returns (c: nat)
    requires forall i, j | 0 <= i < j < |x| :: x[i] <= x[j]
    ensures TurnOver(x, p, c)
  {
    c := |x|;
    if c > 0 && x[c - 1] > p { c := FindTurn(x[..c - 1], p); }
  }

  // Who stays runnable has all its tickets.
  lemma RunnableHaveAll(x: seq<nat>, tickets: seq<nat>, env: Env, status0: seq<Status>, n: nat)
    requires IsTurn(x, tickets, env, status0, n)
    ensures forall p | 0 <= p < |tickets| && StaysRunnable(env, p) && Ready(status0, p) ::
      Count(x, p) == tickets[p] && Ready(Seen(env, status0, n, |x|), p)
  {
    forall p | 0 <= p < |tickets| && StaysRunnable(env, p) && Ready(status0, p)
      ensures Count(x, p) == tickets[p] && Ready(Seen(env, status0, n, |x|), p)
    {
      var c := FindTurn(x, p);
      assert Ready(Seen(env, status0, n, c), p);
    }
  }

  class Cpu {
    const tickets: seq<nat>
    const ticksAcc: array<nat>
    var status: seq<Status>
    var slices: nat
    ghost var trace: seq<nat>

    ghost predicate Valid()
      reads this, ticksAcc
    {
      && |status| == |tickets| == ticksAcc.Length && slices == |trace|
      && forall p | 0 <= p < |tickets| :: ticksAcc[p] == Count(trace, p)
    }

    constructor (tickets0: seq<nat>, status0: seq<Status>)
      requires |tickets0| == |status0|
      ensures Valid() && fresh(ticksAcc) && trace == [] && tickets == tickets0 && status == status0
    {
      tickets, status, slices, trace := tickets0, status0, 0, [];
      ticksAcc := new nat[|tickets0|](_ => 0);
    }

    // k turns of the endless loop, and what they give to the processes that are
    // runnable throughout: exactly k times their tickets, slices in proportion to
    // tickets at every moment, and the next slice never further away than the
    // others' tickets, from any moment on.  Between two passes ptable.lock is free and
    // interrupts are on, so anybody's status may change there too.
    method Turns(slice: Env, pass: Env, k: nat) returns (ghost passes: seq<seq<nat>>)
      requires Valid() && Covers(slice, |tickets|) && Covers(pass, |tickets|)
      modifies this, ticksAcc
      ensures Valid() && |passes| == k && ArePasses(passes, tickets) && trace == old(trace) + Flat(passes)
      ensures AreTurns(passes, tickets, slice, pass, old(slices))
      ensures forall p: nat | Served(slice, pass, p) ::
        Prompt(Flat(passes), tickets, p) && ticksAcc[p] == old(ticksAcc[..])[p] + k * tickets[p]
      ensures forall p: nat, q: nat | Served(slice, pass, p) && Served(slice, pass, q) ::
        Fair(Flat(passes), tickets, p, q)
    {
      passes := [];
      ghost var start, acc0 := trace, ticksAcc[..];
      var i := 0;
      while i < k
        invariant i <= k && |passes| == i && Valid() && ArePasses(passes, tickets) && trace == start + Flat(passes)
        invariant AreTurns(passes, tickets, slice, pass, |start|)
        invariant forall p: nat | Served(slice, pass, p) :: p < |slice(0)| && Steady(passes, tickets, p)
      {
        status := pass(i);
        ghost var x := Pass(slice);
        assert (passes + [x])[..|passes|] == passes;
        TurnsMore(passes, passes + [x], tickets, slice, pass, |start|);
        passes := passes + [x];
        i := i + 1;
      }
      forall p: nat | Served(slice, pass, p)
        ensures Prompt(Flat(passes), tickets, p) && ticksAcc[p] == acc0[p] + k * tickets[p]
      {
        assert Steady(passes, tickets, p);
        SteadyIsPrompt(passes, tickets, p);
        Counted(passes, tickets, p, start);
      }
      forall p: nat, q: nat | Served(slice, pass, p) && Served(slice, pass, q)
        ensures Fair(Flat(passes), tickets, p, q)
      {
        assert Steady(passes, tickets, p) && Steady(passes, tickets, q);
        SteadyIsFair(passes, tickets, p, q);
      }
    }

    // One pass over the table. The slices run are counted, are in table order and
    // within each process's tickets; a process that stays runnable gets all of them.
    method Pass(env: Env) returns (ghost x: seq<nat>)
      requires Valid() && Covers(env, |tickets|)
      modifies this, ticksAcc
      ensures Valid() && trace == old(trace) + x && IsTurn(x, tickets, env, old(status), old(slices))
      ensures forall p | 0 <= p < |tickets| && StaysRunnable(env, p) && Ready(old(status), p) ::
        Count(x, p) == tickets[p] && Ready(status, p)
    {
      x := [];
      ghost var status0, n := status, slices;
      var p := 0;
      while p < |tickets|
        invariant p <= |tickets| && Valid() && trace == old(trace) + x
        invariant status == Seen(env, status0, n, |x|) && (forall i | 0 <= i < |x| :: x[i] < p)
        invariant PartTurn(x, tickets, env, status0, n, p)
      {
        if status[p] == P.Runnable {
          ghost var y := RunSlot(env, p);
          TurnAdds(x, y, tickets, env, status0, n, p);
          assert trace == old(trace) + (x + y);
          x := x + y;
        } else {
          CountAbsent(x, p);
          TurnSkips(x, tickets, env, status0, n, p);
        }
        p := p + 1;
      }
      assert IsTurn(x, tickets, env, status0, n);
      RunnableHaveAll(x, tickets, env, status0, n);
    }

    // The inner loop: p runs while it has tickets left and stays runnable.
    method RunSlot(env: Env, p: nat) returns (ghost y: seq<nat>)
      requires Valid() && p < |tickets| && status[p] == P.Runnable && Covers(env, |tickets|)
      modifies this, ticksAcc
      ensures Valid() && trace == old(trace) + y && |y| <= tickets[p] && forall i | 0 <= i < |y| :: y[i] == p
      ensures tickets[p] > 0 ==> y != []
      ensures forall m | old(slices) <= m < slices - 1 :: Ready(env(m), p)
      ensures 0 < |y| < tickets[p] ==> !Ready(env(slices - 1), p)
      ensures status == Seen(env, old(status), old(slices), |y|)
    {
      y := [];
      var i := 1;
      while i <= tickets[p] && status[p] == P.Runnable
        invariant Valid() && i == |y| + 1 && |y| <= tickets[p] && trace == old(trace) + y
        invariant forall k | 0 <= k < |y| :: y[k] == p
        invariant status == Seen(env, old(status), old(slices), |y|)
        invariant forall m | old(slices) <= m < slices - 1 :: Ready(env(m), p)
      {
        status := status[p := P.Running];
        ticksAcc[p] := ticksAcc[p] + 1;
        i := i + 1;
        // swtch(): p runs until it comes back
        status := env(slices);
        slices := slices + 1;
        assert (trace + [p])[..|trace|] == trace;
        trace := trace + [p];
        y := y + [p];
      }
    }
  }

  lemma {:induction false} CountOnly(y: seq<nat>, p: nat, q: nat)
    requires forall i | 0 <= i < |y| :: y[i] == p
    ensures Count(y, q) == if q == p then |y| else 0
  {
    if y != [] { CountOnly(y[..|y| - 1], p, q); }
  }

  // The slices of slot p, appended to a pass over the slots before it.
  lemma SlotAdds(x: seq<nat>, y: seq<nat>, tickets: seq<nat>, p: nat)
    requires IsPass(x, tickets) && p < |tickets| && (forall i | 0 <= i < |x| :: x[i] < p)
    requires |y| <= tickets[p] && forall i | 0 <= i < |y| :: y[i] == p
    ensures IsPass(x + y, tickets) && forall q: nat :: Count(x + y, q) == if q == p then |y| else Count(x, q)
  {
    forall q: nat ensures Count(x + y, q) == if q == p then |y| else Count(x, q) {
      CountConcat(x, y, q);
      CountOnly(y, p, q);
      if q == p { CountAbsent(x, p); }
    }
  }
}
