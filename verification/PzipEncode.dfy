// Run-length encoding in pzip: the consumers' per-chunk encoder, the sequential
// pass that joins runs across chunk boundaries, and the split into chunks.

module PzipEncode {

  newtype int32 = x: int | -0x8000_0000 <= x < 0x8000_0000
  type byte = x: int | 0 <= x < 256

  datatype Rec = Rec(count: nat, ch: byte)

  // What the consumer reads through `char c`: plain char is signed.
  function Signed(b: byte): int {
    if b < 128 then b else b - 256
  }

  // ---------------------------------------------------------------- references

  // The input without its NUL bytes.
  function Strip(s: seq<byte>): (t: seq<byte>)
    ensures 0 !in t && |t| <= |s|
  {
    if s == [] then [] else (if s[0] == 0 then [] else [s[0]]) + Strip(s[1..])
  }

  function Repeat(k: nat, b: byte): (t: seq<byte>) {
    seq(k, i => b)
  }

  function Decode(rs: seq<Rec>): seq<byte> {
    if rs == [] then [] else Repeat(rs[0].count, rs[0].ch) + Decode(rs[1..])
  }

  ghost predicate Positive(rs: seq<Rec>) {
    forall i | 0 <= i < |rs| :: rs[i].count > 0
  }

  // Records a consumer may produce.
  ghost predicate Runs(rs: seq<Rec>) {
    forall i | 0 <= i < |rs| :: rs[i].count > 0 && rs[i].ch != 0
  }

  ghost predicate Maximal(rs: seq<Rec>) {
    forall i | 0 <= i < |rs| - 1 :: rs[i].ch != rs[i + 1].ch
  }

  // Length of the leading run of equal bytes.
  function RunLength(t: seq<byte>): (k: nat)
    requires t != []
    ensures 1 <= k <= |t| && t[..k] == Repeat(k, t[0])
    ensures k < |t| ==> t[k] != t[0]
  {
    if |t| == 1 || t[1] != t[0] then 1
    else
      var k := RunLength(t[1..]);
      assert t[..k + 1] == [t[0]] + t[1..][..k];
      k + 1
  }

  // The encoding by maximal runs: what one pass over the whole input would give.
  function MaxRuns(t: seq<byte>): (rs: seq<Rec>)
    ensures Positive(rs)
  {
    if t == [] then [] else [Rec(RunLength(t), t[0])] + MaxRuns(t[RunLength(t)..])
  }

  lemma SplitAt<T>(t: seq<T>, k: nat)
    requires k <= |t|
    ensures t == t[..k] + t[k..]
  {
  }

  lemma RunSplits(t: seq<byte>, k: nat)
    requires t != [] && k == RunLength(t)
    ensures t == Repeat(k, t[0]) + t[k..]
  {
    SplitAt(t, k);
  }

  lemma {:induction false} MaxRunsDecode(t: seq<byte>)
    ensures Decode(MaxRuns(t)) == t
  {
    if t != [] {
      var k := RunLength(t);
      var more := MaxRuns(t[k..]);
      assert Decode(more) == t[k..] by { MaxRunsDecode(t[k..]); }
      RunSplits(t, k);
      DecodeOne(Rec(k, t[0]), more);
    }
  }

  lemma DecodeOne(r: Rec, rs: seq<Rec>)
    ensures Decode([r] + rs) == Repeat(r.count, r.ch) + Decode(rs)
  {
    assert ([r] + rs)[1..] == rs;
  }

  lemma {:induction false} MaxRunsMaximal(t: seq<byte>)
    ensures Maximal(MaxRuns(t))
    ensures 0 !in t ==> Runs(MaxRuns(t))
  {
    if t != [] {
      var rest := t[RunLength(t)..];
      MaxRunsMaximal(rest);
      assert rest != [] ==> MaxRuns(rest)[0].ch == rest[0];
    }
  }

  lemma {:induction false} RunLengthIs(t: seq<byte>, k: nat)
    requires 1 <= k <= |t| && (forall i | 0 <= i < k :: t[i] == t[0]) && (k < |t| ==> t[k] != t[0])
    ensures RunLength(t) == k
  {
    if k > 1 { RunLengthIs(t[1..], k - 1); }
  }

  lemma FirstRun(r: Rec, rs: seq<Rec>)
    requires Positive([r] + rs) && Maximal([r] + rs)
    ensures var t := Decode([r] + rs); t != [] && t[0] == r.ch && RunLength(t) == r.count && t[r.count..] == Decode(rs)
  {
    var t := Decode([r] + rs);
    assert ([r] + rs)[0] == r && ([r] + rs)[1..] == rs;
    assert t == Repeat(r.count, r.ch) + Decode(rs);
    if rs != [] {
      assert rs[0] == ([r] + rs)[1];
      assert Decode(rs)[0] == rs[0].ch;
    }
    RunLengthIs(t, r.count);
  }

  // There is exactly one encoding without neighbouring equal symbols.
  lemma {:induction false} MaximalIsUnique(rs: seq<Rec>)
    requires Positive(rs) && Maximal(rs)
    ensures rs == MaxRuns(Decode(rs))
  {
    if rs != [] {
      assert rs == [rs[0]] + rs[1..];
      FirstRun(rs[0], rs[1..]);
      MaximalIsUnique(rs[1..]);
    }
  }

  lemma {:induction false} DecodeConcat(a: seq<Rec>, b: seq<Rec>)
    ensures Decode(a + b) == Decode(a) + Decode(b)
  {
    if a == [] {
      assert a + b == b;
    } else {
      assert (a + b)[1..] == a[1..] + b;
      DecodeConcat(a[1..], b);
    }
  }

  lemma {:induction false} StripConcat(a: seq<byte>, b: seq<byte>)
    ensures Strip(a + b) == Strip(a) + Strip(b)
  {
    if a == [] {
      assert a + b == b;
    } else {
      assert (a + b)[1..] == a[1..] + b;
      StripConcat(a[1..], b);
    }
  }

  // ---------------------------------------------------------------- the consumer

  // The consumer's run: it compares an unsigned byte with a signed char, so a
  // byte of 128 or more never equals itself.
  function ChunkRun(s: seq<byte>): (k: nat)
    requires s != []
    ensures 1 <= k <= |s| && s[..k] == Repeat(k, s[0])
  {
    if |s| == 1 || s[1] != Signed(s[0]) then 1
    else
      var k := ChunkRun(s[1..]);
      assert s[..k + 1] == [s[0]] + s[1..][..k];
      k + 1
  }

  function ChunkRuns(s: seq<byte>): (rs: seq<Rec>)
    ensures Runs(rs)
  {
    if s == [] then []
    else if s[0] == 0 then ChunkRuns(s[1..])
    else [Rec(ChunkRun(s), s[0])] + ChunkRuns(s[ChunkRun(s)..])
  }

  // A byte below 128 is counted as far as it goes, and a larger one by itself.
  lemma {:induction false} ChunkRunIs(s: seq<byte>)
    requires s != []
    ensures ChunkRun(s) == if s[0] < 128 then RunLength(s) else 1
  {
    if |s| > 1 && s[1] == Signed(s[0]) { ChunkRunIs(s[1..]); }
  }

  // So a chunk without NUL bytes and without larger ones has the maximal runs.
  lemma {:induction false} PlainChunk(s: seq<byte>)
    requires forall i | 0 <= i < |s| :: 0 < s[i] < 128
    ensures ChunkRuns(s) == MaxRuns(s)
    decreases |s|
  {
    if s != [] {
      ChunkRunIs(s);
      PlainChunk(s[ChunkRun(s)..]);
    }
  }

  lemma {:induction false} StripRun(k: nat, b: byte)
    requires b != 0
    ensures Strip(Repeat(k, b)) == Repeat(k, b)
  {
    if k > 0 {
      assert Repeat(k, b)[1..] == Repeat(k - 1, b);
      StripRun(k - 1, b);
    }
  }

  lemma {:induction false} ChunkDecodes(s: seq<byte>)
    ensures Decode(ChunkRuns(s)) == Strip(s)
  {
    if s != [] {
      if s[0] == 0 {
        ChunkDecodes(s[1..]);
      } else {
        var k := ChunkRun(s);
        ChunkDecodes(s[k..]);
        assert s == s[..k] + s[k..];
        StripConcat(s[..k], s[k..]);
        StripRun(k, s[0]);
        assert ChunkRuns(s)[1..] == ChunkRuns(s[k..]);
      }
    }
  }

  // One more byte of a run.
  lemma RunGoesOn(s: seq<byte>, i: nat, j: nat)
    requires j == i + 1 < |s| && s[j] == Signed(s[i])
    ensures ChunkRun(s[i..]) == 1 + ChunkRun(s[j..])
  {
    assert s[i..][1..] == s[j..];
  }

  // The record for the run from `start` up to j.
  lemma RunEnds(s: seq<byte>, start: nat, j: nat)
    requires start < j <= |s| && s[start] != 0 && ChunkRun(s[start..]) == j - start
    ensures ChunkRuns(s[start..]) == [Rec(j - start, s[start])] + ChunkRuns(s[j..])
  {
    assert s[start..][j - start..] == s[j..];
  }

  lemma SkipNul(s: seq<byte>, i: nat, j: nat)
    requires j == i + 1 <= |s| && s[i] == 0
    ensures ChunkRuns(s[i..]) == ChunkRuns(s[j..])
  {
    assert s[i..][1..] == s[j..];
  }

  lemma Shift(out: seq<Rec>, r: Rec, rest: seq<Rec>)
    ensures out + ([r] + rest) == (out + [r]) + rest
  {
  }

  // The encoding loop of consumer().
  method EncodeChunk(inbuf: seq<byte>) returns (out: seq<Rec>)
    requires |inbuf| < 0x8000_0000
    ensures out == ChunkRuns(inbuf)
    ensures Runs(out) && Decode(out) == Strip(inbuf)
  {
    out := [];
    var i := 0;
    ghost var rest := ChunkRuns(inbuf);
    assert inbuf[0..] == inbuf;
    while i < |inbuf|
      invariant 0 <= i <= |inbuf| && rest == ChunkRuns(inbuf[i..])
      invariant out + rest == ChunkRuns(inbuf)
    {
      var c := Signed(inbuf[i]);
      ghost var start, before := i, out;
      if c != 0 {
        var count: int32 := 1;
        while i + 1 < |inbuf| && inbuf[i + 1] == c
          invariant start <= i < |inbuf| && count as int == i - start + 1
          invariant inbuf[i] == inbuf[start] && c == Signed(inbuf[start])
          invariant ChunkRun(inbuf[start..]) == i - start + ChunkRun(inbuf[i..])
        {
          ghost var at := i;
          count := count + 1;
          i := i + 1;
          RunGoesOn(inbuf, at, i);
        }
        out := out + [Rec(count as int, if c < 0 then c + 256 else c)];
      }
      i := i + 1;
      rest := ChunkRuns(inbuf[i..]);
      if c != 0 {
        RunEnds(inbuf, start, i);
        Shift(before, Rec(i - start, inbuf[start]), rest);
      } else {
        SkipNul(inbuf, start, i);
      }
    }
    ChunkDecodes(inbuf);
  }

  // ---------------------------------------------------------------- joining chunks

  function Flatten<T>(ss: seq<seq<T>>): seq<T> {
    if ss == [] then [] else ss[0] + Flatten(ss[1..])
  }

  // Joining neighbours with the same symbol; `prev` is the record not yet written.
  function JoinAfter(prev: Rec, rs: seq<Rec>): seq<Rec>
    decreases |rs|
  {
    if rs == [] then [prev]
    else if rs[0].ch == prev.ch then JoinAfter(Rec(prev.count + rs[0].count, prev.ch), rs[1..])
    else [prev] + JoinAfter(rs[0], rs[1..])
  }

  lemma {:induction false} JoinAfterProperties(prev: Rec, rs: seq<Rec>)
    requires Runs([prev] + rs)
    decreases |rs|
    ensures var out := JoinAfter(prev, rs);
      out != [] && out[0].ch == prev.ch && Runs(out) && Maximal(out)
      && Decode(out) == Repeat(prev.count, prev.ch) + Decode(rs)
  {
    assert ([prev] + rs)[0] == prev;
    assert forall i | 0 <= i < |rs| :: rs[i] == ([prev] + rs)[i + 1];
    if rs == [] {
      assert Decode([prev]) == Repeat(prev.count, prev.ch) + Decode([prev][1..]);
    } else if rs[0].ch == prev.ch {
      var joined := Rec(prev.count + rs[0].count, prev.ch);
      assert Repeat(joined.count, prev.ch) == Repeat(prev.count, prev.ch) + Repeat(rs[0].count, prev.ch);
      JoinAfterProperties(joined, rs[1..]);
    } else {
      JoinAfterProperties(rs[0], rs[1..]);
      var rest := JoinAfter(rs[0], rs[1..]);
      assert ([prev] + rest)[1..] == rest;
    }
  }

  // The merge pass yields the maximal-run encoding whatever way the runs were cut.
  lemma JoinIsMaxRuns(rs: seq<Rec>)
    requires rs != [] && Runs(rs)
    ensures JoinAfter(rs[0], rs[1..]) == MaxRuns(Decode(rs))
  {
    assert rs == [rs[0]] + rs[1..];
    JoinAfterProperties(rs[0], rs[1..]);
    MaximalIsUnique(JoinAfter(rs[0], rs[1..]));
  }

  lemma {:induction false} ChunksDecode(chunks: seq<seq<byte>>, encoded: seq<seq<Rec>>)
    requires |encoded| == |chunks|
    requires forall i | 0 <= i < |chunks| :: encoded[i] == ChunkRuns(chunks[i])
    ensures Runs(Flatten(encoded)) && Decode(Flatten(encoded)) == Strip(Flatten(chunks))
  {
    if chunks != [] {
      ChunksDecode(chunks[1..], encoded[1..]);
      ChunkDecodes(chunks[0]);
      DecodeConcat(encoded[0], Flatten(encoded[1..]));
      StripConcat(chunks[0], Flatten(chunks[1..]));
    }
  }

  // An int holds every count.
  predicate Fit(rs: seq<Rec>) {
    forall i | 0 <= i < |rs| :: rs[i].count < 0x8000_0000
  }

  lemma {:induction false} JoinedGrows(prev: Rec, rs: seq<Rec>)
    ensures JoinAfter(prev, rs) != [] && JoinAfter(prev, rs)[0].count >= prev.count
    decreases |rs|
  {
    if rs != [] && rs[0].ch == prev.ch { JoinedGrows(Rec(prev.count + rs[0].count, prev.ch), rs[1..]); }
  }

  lemma FitTail(a: seq<Rec>, b: seq<Rec>)
    requires Fit(a + b)
    ensures Fit(b)
  {
    forall i | 0 <= i < |b| ensures b[i].count < 0x8000_0000 { assert (a + b)[|a| + i] == b[i]; }
  }

  // compressOutput: walks the records of all chunks in order, adds a run to its
  // predecessor in place when the symbol is the same, and writes a record once
  // its successor is known to differ.  prevch is NUL until the first record.
  method CompressOutput(output: array<seq<Rec>>) returns (written: seq<Rec>)
    requires Flatten(output[..]) != [] && Runs(Flatten(output[..]))
    requires Fit(MaxRuns(Decode(Flatten(output[..]))))
    modifies output
    ensures written == MaxRuns(Decode(Flatten(old(output[..]))))
  {
    ghost var all := Flatten(output[..]);
    ghost var goal := JoinAfter(all[0], all[1..]);
    JoinIsMaxRuns(all);
    var prevval: int32 := 0;
    var prevch: byte := 0;
    var oldchunk: nat, oldptr: nat := 0, 0;
    written := [];
    assert output[0..] == output[..];
    var i := 0;
    while i < output.Length
      invariant 0 <= i <= output.Length && 0 <= prevval
      invariant Pending(written, prevval as int, prevch, Flatten(output[i..]), all)
      invariant prevch != 0 ==>
        oldchunk < i && 1 <= oldptr <= |output[oldchunk]| && output[oldchunk][oldptr - 1] == Rec(prevval as int, prevch)
    {
      assert output[i..][0] == output[i] && output[i..][1..] == output[i + 1..];
      written, prevval, prevch, oldchunk, oldptr :=
        JoinChunk(output, i, written, prevval, prevch, oldchunk, oldptr, output[i], Flatten(output[i + 1..]), all);
      i := i + 1;
    }
    assert output[output.Length..] == [];
    written := written + [output[oldchunk][oldptr - 1]];
  }

  // The walk over the records of chunk i; `old` is the record not yet written.
  method JoinChunk(output: array<seq<Rec>>, i: nat, written0: seq<Rec>, prevval0: int32, prevch0: byte,
                   oldchunk0: nat, oldptr0: nat, ghost orig: seq<Rec>, ghost tail: seq<Rec>, ghost all: seq<Rec>)
    returns (written: seq<Rec>, prevval: int32, prevch: byte, oldchunk: nat, oldptr: nat)
    requires i < output.Length && output[i] == orig && 0 <= prevval0
    requires Pending(written0, prevval0 as int, prevch0, orig + tail, all)
    requires prevch0 != 0 ==>
      && oldchunk0 < i && 1 <= oldptr0 <= |output[oldchunk0]|
      && output[oldchunk0][oldptr0 - 1] == Rec(prevval0 as int, prevch0)
    modifies output
    ensures 0 <= prevval && Pending(written, prevval as int, prevch, tail, all)
    ensures prevch != 0 ==>
      oldchunk <= i && 1 <= oldptr <= |output[oldchunk]| && output[oldchunk][oldptr - 1] == Rec(prevval as int, prevch)
    ensures output[i + 1..] == old(output[i + 1..])
  {
    written, prevval, prevch, oldchunk, oldptr := written0, prevval0, prevch0, oldchunk0, oldptr0;
    var j := 0;
    assert orig[0..] == orig;
    while j < |output[i]|
      invariant 0 <= j <= |output[i]| == |orig| && output[i][j..] == orig[j..] && 0 <= prevval
      invariant output[i + 1..] == old(output[i + 1..])
      invariant Pending(written, prevval as int, prevch, orig[j..] + tail, all)
      invariant prevch != 0 ==>
        oldchunk <= i && 1 <= oldptr <= |output[oldchunk]| && (oldchunk == i ==> oldptr == j)
        && output[oldchunk][oldptr - 1] == Rec(prevval as int, prevch)
    {
      assert output[i][j] == orig[j] by { assert output[i][j..][0] == orig[j..][0]; }
      assert (orig[j..] + tail)[0] == orig[j] && (orig[j..] + tail)[1..] == orig[j + 1..] + tail;
      PendingStep(written, prevval as int, prevch, orig[j..] + tail, all);
      var val: int32 := output[i][j].count as int32;
      var ch := output[i][j].ch;
      j := j + 1;
      if ch == prevch {
        val := val + prevval;
        output[i] := output[i][j - 1 := Rec(val as int, ch)];
      } else if prevch != 0 {
        written := written + [output[oldchunk][oldptr - 1]];
      }
      prevch := ch;
      prevval := val;
      oldchunk, oldptr := i, j;
    }
    assert orig[|orig|..] + tail == tail;
  }

  // What the merge loop keeps: written records, then the record in hand joined
  // with the rest, give the whole result.
  ghost predicate Pending(written: seq<Rec>, prevval: int, prevch: byte, rest: seq<Rec>, all: seq<Rec>) {
    && all != [] && Runs(all) && Runs(rest) && Fit(JoinAfter(all[0], all[1..]))
    && (prevch == 0 ==> written == [] && rest == all)
    && (prevch != 0 ==>
          prevval > 0 && written + JoinAfter(Rec(prevval, prevch), rest) == JoinAfter(all[0], all[1..]))
  }

  lemma PendingStep(written: seq<Rec>, prevval: int, prevch: byte, rest: seq<Rec>, all: seq<Rec>)
    requires Pending(written, prevval, prevch, rest, all) && rest != []
    ensures rest[0].count < 0x8000_0000
    ensures rest[0].ch == prevch ==>
      prevval + rest[0].count < 0x8000_0000 && Pending(written, prevval + rest[0].count, prevch, rest[1..], all)
    ensures rest[0].ch != prevch ==>
      Pending(if prevch == 0 then written else written + [Rec(prevval, prevch)], rest[0].count, rest[0].ch, rest[1..],
              all)
  {
    if prevch == 0 {
      JoinedGrows(rest[0], rest[1..]);
    } else {
      FitTail(written, JoinAfter(Rec(prevval, prevch), rest));
      if rest[0].ch == prevch {
        JoinedGrows(Rec(prevval + rest[0].count, prevch), rest[1..]);
      } else {
        JoinedGrows(rest[0], rest[1..]);
        FitTail([Rec(prevval, prevch)], JoinAfter(rest[0], rest[1..]));
      }
    }
    if prevch != 0 && rest[0].ch != prevch {
      assert written + ([Rec(prevval, prevch)] + JoinAfter(rest[0], rest[1..]))
          == written + [Rec(prevval, prevch)] + JoinAfter(rest[0], rest[1..]);
    }
  }
}
