// A transaction of the file system can be carried out on the log machine: the
// steps are bread, a change, log_write and brelse for each block it logs.

module FsPerform {
  import opened Wrappers
  import opened FsDisk
  import opened FsWrite
  import opened FsImage
  import opened FsCrash
  import L = CrashLog
  import K = CrashLogInvariant
  import T = CrashLogTheorems

  // A stretch of a run inside transaction t of p.
  datatype Path = Path(states: seq<L.State>, labels: seq<L.Label>)

  ghost predicate PathAt(c: L.Config, g: Geo, w: Script, p: nat, t: nat, x: Path, i: nat)
    requires OnDisk(c, g) && IsScript(g, w) && i < |x.labels| < |x.states|
  {
    && T.StepTo(c, x.states[i], x.labels[i], x.states[i + 1]) && x.labels[i] != L.End(p)
    && Scripted(c, g, w, p, x.states[i], x.labels[i], t)
  }

  ghost predicate IsPath(c: L.Config, g: Geo, w: Script, p: nat, t: nat, x: Path)
    requires OnDisk(c, g) && IsScript(g, w)
  {
    && |x.states| == |x.labels| + 1
    && forall i: nat {:trigger PathAt(c, g, w, p, t, x, i)} | i < |x.labels| :: PathAt(c, g, w, p, t, x, i)
  }

  function Last(x: Path): L.State
    requires x.states != []
  {
    x.states[|x.states| - 1]
  }

  lemma OneMore(c: L.Config, g: Geo, w: Script, p: nat, t: nat, x: Path, l: L.Label) returns (y: Path)
    requires OnDisk(c, g) && IsScript(g, w) && IsPath(c, g, w, p, t, x) && l != L.End(p)
    requires |Last(x).disk| == c.size && L.Enabled(c, Last(x), l) && Scripted(c, g, w, p, Last(x), l, t)
    ensures IsPath(c, g, w, p, t, y) && y.states[0] == x.states[0] && Last(y) == L.Next(c, Last(x), l)
  {
    y := Path(x.states + [L.Next(c, Last(x), l)], x.labels + [l]);
    forall i: nat | i < |y.labels| ensures PathAt(c, g, w, p, t, y, i) {
      if i < |x.labels| { assert PathAt(c, g, w, p, t, x, i); }
    }
  }

  // p has logged the blocks of done as its transaction has them; nobody else is in one.
  ghost predicate Doing(c: L.Config, g: Geo, w: Script, p: nat, t: nat, s: L.State, touched: set<nat>, done: set<nat>)
    requires OnDisk(c, g) && IsScript(g, w) && t < |w.txns|
  {
    && L.Inv(c, s) && s.pc.Idle? && p < |s.procs| && s.procs[p] == L.In(touched, done)
    && (forall q | 0 <= q < |s.procs| && q != p :: !s.procs[q].In?)
    && forall b: nat {:trigger L.Home(c, b)} | L.Home(c, b) ::
         L.Logical(s, b) == if b in touched + done then Image(g, w.states[t + 1], b) else Image(g, w.states[t], b)
  }

  lemma ReadDoing(c: L.Config, g: Geo, w: Script, p: nat, t: nat, s: L.State, done: set<nat>, b: nat)
    requires OnDisk(c, g) && IsScript(g, w) && t < |w.txns| && Doing(c, g, w, p, t, s, {}, done) && L.Home(c, b)
    ensures L.Enabled(c, s, L.Read(b))
    ensures var s' := L.Next(c, s, L.Read(b));
      Doing(c, g, w, p, t, s', {}, done) && b in s'.cache && s'.cache[b].refs > 0
  {
    K.StepKeeps(c, s, L.Read(b));
    K.ReadKeeps(c, s, b);
  }

  lemma ModifyDoing(c: L.Config, g: Geo, w: Script, p: nat, t: nat, s: L.State, done: set<nat>, b: nat)
    requires OnDisk(c, g) && IsScript(g, w) && t < |w.txns| && Doing(c, g, w, p, t, s, {}, done) && L.Home(c, b)
    requires b in s.cache && s.cache[b].refs > 0 && b !in done
    ensures var l := L.Modify(p, b, Image(g, w.states[t + 1], b));
      L.Enabled(c, s, l) && Doing(c, g, w, p, t, L.Next(c, s, l), {b}, done)
      && b in L.Next(c, s, l).cache && L.Next(c, s, l).cache[b].refs > 0
  {
    var l := L.Modify(p, b, Image(g, w.states[t + 1], b));
    K.StepKeeps(c, s, l);
    assert {} + {b} == {b};
  }

  lemma RoomFor(c: L.Config, s: L.State, p: nat, done: set<nat>, b: nat)
    requires L.Layout(c) && L.Inv(c, s) && p < |s.procs| && s.procs[p] == L.In({b}, done) && L.Home(c, b)
    requires b in s.cache && s.cache[b].refs > 0 && b !in done && |done + {b}| <= c.maxop && c.nlog > c.logsize
    ensures L.Enabled(c, s, L.LogWrite(p, b))
  {
    assert |done + {b}| == |done| + 1;
    T.RoomForReserved(c, s, p, b);
  }

  lemma LogDoing(c: L.Config, g: Geo, w: Script, p: nat, t: nat, s: L.State, done: set<nat>, b: nat)
    requires OnDisk(c, g) && IsScript(g, w) && t < |w.txns| && Doing(c, g, w, p, t, s, {b}, done)
    requires L.Enabled(c, s, L.LogWrite(p, b))
    ensures var s' := L.Next(c, s, L.LogWrite(p, b));
      Doing(c, g, w, p, t, s', {}, done + {b}) && b in s'.cache && s'.cache[b].refs > 0
  {
    K.StepKeeps(c, s, L.LogWrite(p, b));
    assert {b} - {b} == {} && {b} + done == {} + (done + {b});
  }

  lemma ReleaseDoing(c: L.Config, g: Geo, w: Script, p: nat, t: nat, s: L.State, done: set<nat>, b: nat)
    requires OnDisk(c, g) && IsScript(g, w) && t < |w.txns| && Doing(c, g, w, p, t, s, {}, done) && L.Home(c, b)
    requires b in s.cache && s.cache[b].refs > 0
    ensures L.Enabled(c, s, L.Release(b)) && Doing(c, g, w, p, t, L.Next(c, s, L.Release(b)), {}, done)
  {
    assert !L.Touched(s.procs, b);
    K.StepKeeps(c, s, L.Release(b));
    K.ReleaseKeeps(c, s, b);
  }

  // bread, the change, log_write and brelse of one block.
  lemma OneBlock(c: L.Config, g: Geo, w: Script, p: nat, t: nat, x: Path, done: set<nat>, b: nat) returns (y: Path)
    requires OnDisk(c, g) && IsScript(g, w) && t < |w.txns| && IsPath(c, g, w, p, t, x)
    requires Doing(c, g, w, p, t, Last(x), {}, done) && L.Home(c, b) && b in w.txns[t] && b !in done
    requires |done + {b}| <= c.maxop && c.nlog > c.logsize
    ensures IsPath(c, g, w, p, t, y) && y.states[0] == x.states[0] && Doing(c, g, w, p, t, Last(y), {}, done + {b})
  {
    ReadDoing(c, g, w, p, t, Last(x), done, b);
    y := OneMore(c, g, w, p, t, x, L.Read(b));
    ModifyDoing(c, g, w, p, t, Last(y), done, b);
    y := OneMore(c, g, w, p, t, y, L.Modify(p, b, Image(g, w.states[t + 1], b)));
    RoomFor(c, Last(y), p, done, b);
    LogDoing(c, g, w, p, t, Last(y), done, b);
    y := OneMore(c, g, w, p, t, y, L.LogWrite(p, b));
    ReleaseDoing(c, g, w, p, t, Last(y), done + {b}, b);
    y := OneMore(c, g, w, p, t, y, L.Release(b));
  }

  // The blocks that transaction t has to change.
  ghost function Blocks(c: L.Config, w: Script, t: nat): set<nat>
    requires t < |w.txns|
  {
    set b | b in w.txns[t] && L.Home(c, b)
  }

  lemma NextBlock(c: L.Config, w: Script, t: nat, done: set<nat>) returns (b: nat, more: set<nat>)
    requires t < |w.txns| && done <= Blocks(c, w, t) && done != Blocks(c, w, t)
    ensures b in w.txns[t] && L.Home(c, b) && b !in done && more == done + {b} && more <= Blocks(c, w, t)
    ensures |more| <= |w.txns[t]| && |Blocks(c, w, t) - more| < |Blocks(c, w, t) - done|
  {
    var left := Blocks(c, w, t) - done;
    b :| b in Blocks(c, w, t) && b !in done;
    more := done + {b};
    SubsetSize(more, w.txns[t]);
    assert Blocks(c, w, t) - more == left - {b};
  }

  lemma {:induction false} AllBlocks(c: L.Config, g: Geo, w: Script, p: nat, t: nat, x: Path, done: set<nat>)
    returns (y: Path)
    requires OnDisk(c, g) && IsScript(g, w) && t < |w.txns| && IsPath(c, g, w, p, t, x)
    requires Doing(c, g, w, p, t, Last(x), {}, done) && done <= Blocks(c, w, t)
    requires |w.txns[t]| <= c.maxop && c.nlog > c.logsize
    ensures IsPath(c, g, w, p, t, y) && y.states[0] == x.states[0]
    ensures Doing(c, g, w, p, t, Last(y), {}, Blocks(c, w, t))
    decreases |Blocks(c, w, t) - done|
  {
    if done == Blocks(c, w, t) {
      y := x;
    } else {
      var b, more := NextBlock(c, w, t, done);
      y := OneBlock(c, g, w, p, t, x, done, b);
      y := AllBlocks(c, g, w, p, t, y, more);
    }
  }

  // On an idle log p can carry out its transaction t, and afterwards every process
  // sees the file system that follows.
  lemma Performs(c: L.Config, g: Geo, w: Script, p: nat, t: nat, s: L.State) returns (y: Path)
    requires OnDisk(c, g) && IsScript(g, w) && Packed(g) && t < |w.txns| && |w.txns[t]| <= c.maxop && c.nlog > c.logsize
    requires L.Inv(c, s) && s.pc.Idle? && s.outstanding == 0 && p < |s.procs| && s.procs[p].Out?
    requires forall b: nat {:trigger L.Home(c, b)} | L.Home(c, b) :: L.Logical(s, b) == Image(g, w.states[t], b)
    ensures IsPath(c, g, w, p, t, y) && y.states[0] == s && |Last(y).disk| == c.size
    ensures L.Enabled(c, Last(y), L.End(p)) && Scripted(c, g, w, p, Last(y), L.End(p), t)
    ensures forall b: nat {:trigger L.Home(c, b)} | L.Home(c, b) ::
      L.Logical(L.Next(c, Last(y), L.End(p)), b) == Image(g, w.states[t + 1], b)
  {
    T.IdleLogAdmits(c, s, p);
    K.QuietWhenNone(s.procs);
    K.StepKeeps(c, s, L.Begin(p));
    y := OneMore(c, g, w, p, t, Path([s], []), L.Begin(p));
    y := AllBlocks(c, g, w, p, t, y, {});
    forall b: nat | L.Home(c, b) ensures L.Logical(Last(y), b) == Image(g, w.states[t + 1], b) {
      if b !in w.txns[t] {
        assert OnlyLogged(g, w.states[t], w.states[t + 1], w.txns[t]);
        UnloggedImage(g, w.states[t], w.states[t + 1], w.txns[t], b);
      }
    }
  }
}
