// pipe.c: the ring of PIPESIZE bytes under two 32-bit counters that wrap.

module PipeRing {
  import opened Wrappers

  const WORD := 0x1_0000_0000
  const PIPESIZE := 512

  datatype Ring = Ring(data: seq<nat>, nread: nat, nwrite: nat)

  // uint arithmetic.
  function Bump(c: nat): nat {
    (c + 1) % WORD
  }

  // The two tests of the code.
  predicate IsFull(r: Ring) {
    r.nwrite == (r.nread + PIPESIZE) % WORD
  }

  predicate IsEmpty(r: Ring) {
    r.nread == r.nwrite
  }

  // p->data[p->nwrite++ % PIPESIZE] = b
  function Put(r: Ring, b: nat): Ring
    requires |r.data| == PIPESIZE
  {
    Ring(r.data[r.nwrite % PIPESIZE := b], r.nread, Bump(r.nwrite))
  }

  // p->data[p->nread++ % PIPESIZE]
  function Front(r: Ring): nat
    requires |r.data| == PIPESIZE
  {
    r.data[r.nread % PIPESIZE]
  }

  function Get(r: Ring): Ring {
    Ring(r.data, Bump(r.nread), r.nwrite)
  }

  // The ring after the whole of `sent` was put and `got` of it taken: the counters
  // are the totals modulo 2^32, and the bytes between them are in the ring.
  ghost predicate Carries(r: Ring, sent: seq<nat>, got: nat) {
    && |r.data| == PIPESIZE && got <= |sent| <= got + PIPESIZE
    && r.nread == got % WORD && r.nwrite == |sent| % WORD
    && Stored(r.data, sent, got)
  }

  // The wrapped counters tell full and empty exactly.
  lemma TestsAreExact(r: Ring, sent: seq<nat>, got: nat)
    requires Carries(r, sent, got)
    ensures IsFull(r) <==> |sent| == got + PIPESIZE
    ensures IsEmpty(r) <==> |sent| == got
  {
    var d := |sent| - got;
    assert (got + d) % WORD == (got % WORD + d) % WORD;
    assert got % WORD + d < WORD ==> (got % WORD + d) % WORD == got % WORD + d;
    assert got % WORD + d >= WORD ==> (got % WORD + d) % WORD == got % WORD + d - WORD;
  }

  // Positions of the ring survive the wrap, as PIPESIZE divides 2^32.
  lemma SlotOf(n: nat)
    ensures n % WORD % PIPESIZE == n % PIPESIZE
  {
  }

  lemma BumpIs(n: nat)
    ensures Bump(n % WORD) == (n + 1) % WORD
  {
  }

  // The bytes from `got` on are in their slots.
  ghost predicate Stored(data: seq<nat>, sent: seq<nat>, got: nat) {
    |data| == PIPESIZE && forall k | got <= k < |sent| :: data[k % PIPESIZE] == sent[k]
  }

  lemma StoredMore(data: seq<nat>, sent: seq<nat>, got: nat, b: nat)
    requires Stored(data, sent, got) && got <= |sent| < got + PIPESIZE
    ensures Stored(data[|sent| % PIPESIZE := b], sent + [b], got)
  {
    forall k | got <= k < |sent| + 1 ensures data[|sent| % PIPESIZE := b][k % PIPESIZE] == (sent + [b])[k] {
      if k < |sent| { DifferentSlots(k, |sent|); }
    }
  }

  lemma PutKeeps(r: Ring, sent: seq<nat>, got: nat, b: nat)
    requires Carries(r, sent, got) && !IsFull(r)
    ensures Carries(Put(r, b), sent + [b], got)
  {
    TestsAreExact(r, sent, got);
    SlotOf(|sent|);
    BumpIs(|sent|);
    StoredMore(r.data, sent, got, b);
  }

  lemma DifferentSlots(k: nat, n: nat)
    requires k < n < k + PIPESIZE
    ensures k % PIPESIZE != n % PIPESIZE
  {
  }

  lemma GetKeeps(r: Ring, sent: seq<nat>, got: nat)
    requires Carries(r, sent, got) && !IsEmpty(r)
    ensures got < |sent| && Front(r) == sent[got] && Carries(Get(r), sent, got + 1)
  {
    TestsAreExact(r, sent, got);
    SlotOf(got);
  }

  // The ring fields of struct pipe.
  class Pipe {
    const data: array<nat>
    var nread: nat
    var nwrite: nat
    ghost var sent: seq<nat>
    ghost var got: nat

    ghost function View(): Ring
      reads this, data
    {
      Ring(data[..], nread, nwrite)
    }

    ghost predicate Valid()
      reads this, data
    {
      data.Length == PIPESIZE && Carries(View(), sent, got)
    }

    constructor ()
      ensures Valid() && fresh(data) && sent == [] && got == 0
    {
      data := new nat[PIPESIZE];
      nread, nwrite, sent, got := 0, 0, [], 0;
    }

    // The copy loop of pipewrite() from addr[i] on, up to where it sleeps or ends:
    // as many bytes as there is room for, in order.
    method WriteFrom(addr: seq<nat>, i0: nat) returns (i: nat)
      requires Valid() && i0 <= |addr|
      modifies this, data
      ensures Valid() && got == old(got)
      ensures i == i0 + Min(|addr| - i0, PIPESIZE - (|old(sent)| - got))
      ensures sent == old(sent) + addr[i0..i]
      ensures i < |addr| ==> IsFull(View())
    {
      i := i0;
      while i < |addr|
        invariant i0 <= i <= |addr| && Valid() && got == old(got) && sent == old(sent) + addr[i0..i]
      {
        TestsAreExact(View(), sent, got);
        if nwrite == (nread + PIPESIZE) % WORD { return; }
        PutKeeps(View(), sent, got, addr[i]);
        ghost var was := View();
        data[nwrite % PIPESIZE] := addr[i];
        nwrite := (nwrite + 1) % WORD;
        assert View() == Put(was, addr[i]);
        sent := sent + [addr[i]];
        i := i + 1;
      }
      TestsAreExact(View(), sent, got);
    }

    // The copy loop of piperead(): the oldest bytes, at most n, until the ring is empty.
    method ReadInto(addr: array<nat>, n: nat) returns (i: nat)
      requires Valid() && n <= addr.Length && addr != data
      modifies this, addr
      ensures Valid() && sent == old(sent) && data[..] == old(data[..])
      ensures i == Min(n, |sent| - old(got)) && got == old(got) + i
      ensures addr[..i] == sent[old(got)..got] && addr[i..] == old(addr[..])[i..]
    {
      i := 0;
      while i < n
        invariant i <= n && Valid() && sent == old(sent) && data[..] == old(data[..]) && got == old(got) + i
        invariant addr[..i] == sent[old(got)..got] && addr[i..] == old(addr[..])[i..]
      {
        TestsAreExact(View(), sent, got);
        if nread == nwrite { break; }
        GetKeeps(View(), sent, got);
        addr[i] := data[nread % PIPESIZE];
        nread := (nread + 1) % WORD;
        got := got + 1;
        i := i + 1;
        assert old(addr[..])[i - 1..][1..] == old(addr[..])[i..];
      }
      TestsAreExact(View(), sent, got);
    }
  }
}
