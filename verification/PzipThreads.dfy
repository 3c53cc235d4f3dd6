// The globals of pzip.c and the critical sections of its two thread functions,
// updated in place and tied to the steps of PzipProtocol.

module PzipThreads {
  import opened PzipEncode
  import opened PzipProtocol

  class Shared {
    const j: Job
    var q: array<nat>
    var fillPtr: nat
    var usePtr: nat
    var numFull: nat
    var isComplete: bool
    var globalPage: nat
    var output: array<seq<Rec>>
    ghost var writes: seq<nat>
    ghost var prod: Producer
    ghost var cons: seq<Consumer>

    ghost predicate Fields()
      reads this
    {
      && j.qLen > 0 && q.Length == j.qLen && fillPtr < j.qLen && usePtr < j.qLen
      && output.Length == |writes| == |j.chunks| && numFull <= j.qLen
    }

    ghost function View(): State
      reads this, q, output
    {
      State(q[..], fillPtr, usePtr, numFull, isComplete, globalPage, prod, cons, output[..], writes)
    }

    // The queued chunk numbers, oldest first.
    ghost function Queued(): seq<nat>
      reads this, q
      requires Fields()
    {
      seq(numFull, k requires 0 <= k < numFull reads this, q requires Fields() => q[RingAt(j, usePtr, k)])
    }

    method Put(item: nat)
      requires Fields() && numFull < j.qLen && fillPtr == (usePtr + numFull) % j.qLen
      modifies this`fillPtr, this`numFull, q
      ensures Fields() && fillPtr == (usePtr + numFull) % j.qLen
      ensures View() == PzipProtocol.Put(j, old(View()), item)
      ensures Queued() == old(Queued()) + [item]
    {
      RingIndex(j, usePtr, numFull);
      RingIndex(j, usePtr, numFull + 1);
      RingIndex(j, fillPtr, 1);
      forall k: nat | k < numFull ensures RingAt(j, usePtr, k) != fillPtr { RingIndex(j, usePtr, k); }
      q[fillPtr] := item;
      fillPtr := (fillPtr + 1) % j.qLen;
      numFull := numFull + 1;
    }

    method Get() returns (item: nat)
      requires Fields() && numFull > 0
      modifies this`usePtr, this`numFull
      ensures Fields()
      ensures View() == PzipProtocol.Get(j, old(View())) && item == old(q[usePtr])
      ensures old(Queued()) == [item] + Queued()
    {
      RingIndex(j, usePtr, 0);
      RingIndex(j, usePtr, 1);
      ghost var u := usePtr;
      item := q[usePtr];
      usePtr := (usePtr + 1) % j.qLen;
      numFull := numFull - 1;
      forall k: nat | k < numFull ensures RingAt(j, u, k + 1) == RingAt(j, usePtr, k) {
        RingIndex(j, u, k + 1);
        RingIndex(j, usePtr, k);
      }
    }

    // producer(): one turn with the mutex.  The chunk number is taken before the
    // lock and is globalPage until the put.
    method ProducerTurn(ghost w: int)
      requires Fields() && fillPtr == (usePtr + numFull) % j.qLen
      requires Sizes(j, View()) && Enabled(j, View(), Produce(w))
      modifies this`fillPtr, this`numFull, this`globalPage, this`prod, this`cons, q
      ensures Fields() && View() == old(Next(j, View(), Produce(w)))
    {
      if numFull == j.qLen {
        prod := PWait;
      } else {
        Put(globalPage);
        globalPage := globalPage + 1;
        prod := if globalPage < |j.chunks| then PReady else PFinal;
        cons := if w >= 0 then cons[w := CTop] else cons;
      }
    }

    // consumer(): one turn with the mutex after `flag` was found set.
    method ConsumerTurn(i: nat)
      requires Fields() && Sizes(j, View()) && Enabled(j, View(), Top(i))
      modifies this`usePtr, this`numFull, this`prod, this`cons
      ensures Fields() && View() == old(Next(j, View(), Top(i)))
    {
      if numFull == 0 && !isComplete {
        cons := cons[i := CWait];
      } else if numFull != 0 {
        var obj := Get();
        prod := if prod.PWait? then PReady else prod;
        cons := cons[i := CWork(obj)];
      } else {
        cons := cons[i := CCheck];
      }
    }

    // consumer(): encode the chunk taken and store it in its slot.
    method Encode(i: nat, k: nat)
      requires Fields() && i < |cons| && cons[i] == CWork(k) && k < |j.chunks| && |j.chunks[k]| < 0x8000_0000
      modifies this`writes, this`cons, output
      ensures Fields() && View() == WorkOf(j, old(View()), i)
    {
      var encoded := EncodeChunk(j.chunks[k]);
      output[k] := encoded;
      writes := writes[k := writes[k] + 1];
      cons := cons[i := CCheck];
    }
  }
}
