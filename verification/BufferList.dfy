// bio.c's LRU list: all buffers in one circular doubly linked list through `head`.

module BufferList {

  // The k-th buffer from head.next on; head itself is in front and behind.
  function Slot(order: seq<nat>, head: nat, k: int): nat {
    if 0 <= k < |order| then order[k] else head
  }

  ghost predicate Distinct(order: seq<nat>, head: nat) {
    && (forall i | 0 <= i < |order| :: order[i] < head)
    && (forall i, j | 0 <= i < j < |order| :: order[i] != order[j])
  }

  ghost predicate Linked(prev: seq<nat>, next: seq<nat>, head: nat, order: seq<nat>) {
    && |prev| == |next| == head + 1 && Distinct(order, head)
    && (forall k | -1 <= k < |order| :: next[Slot(order, head, k)] == Slot(order, head, k + 1))
    && (forall k | 0 <= k <= |order| :: prev[Slot(order, head, k)] == Slot(order, head, k - 1))
  }

  // The list holds every buffer once.
  ghost predicate Complete(order: seq<nat>, head: nat) {
    |order| == head && Distinct(order, head) && forall b: nat | b < head :: b in order
  }

  function Pushed(order: seq<nat>, b: nat): seq<nat> {
    [b] + order
  }

  function Removed(order: seq<nat>, k: nat): seq<nat>
    requires k < |order|
  {
    order[..k] + order[k + 1..]
  }

  lemma SlotsDiffer(order: seq<nat>, head: nat, i: int, j: int)
    requires Distinct(order, head) && -1 <= i <= |order| && -1 <= j <= |order| && i != j
    requires 0 <= i < |order| || 0 <= j < |order|
    ensures Slot(order, head, i) != Slot(order, head, j)
  {
    if 0 <= i < |order| && 0 <= j < |order| { assert order[i] != order[j]; }
  }

  // b->next = head.next; b->prev = head; head.next->prev = b; head.next = b.
  lemma PushLinks(prev: seq<nat>, next: seq<nat>, head: nat, order: seq<nat>, b: nat)
    requires Linked(prev, next, head, order) && b < head && b !in order
    ensures next[head] <= head
    ensures Linked(prev[b := head][next[head] := b], next[b := next[head]][head := b], head, Pushed(order, b))
  {
    var h := next[head];
    assert Slot(order, head, -1) == head && h == Slot(order, head, 0);
    var order' := Pushed(order, b);
    var prev', next' := prev[b := head][h := b], next[b := h][head := b];
    forall k | -1 <= k < |order'| ensures next'[Slot(order', head, k)] == Slot(order', head, k + 1) {
      assert Slot(order', head, k) == if k == 0 then b else if k == -1 then head else Slot(order, head, k - 1);
      assert Slot(order', head, k + 1) == if k + 1 == 0 then b else Slot(order, head, k);
      if k > 0 { SlotsDiffer(order, head, k - 1, -1); }
    }
    forall k | 0 <= k <= |order'| ensures prev'[Slot(order', head, k)] == Slot(order', head, k - 1) {
      assert Slot(order', head, k) == if k == 0 then b else Slot(order, head, k - 1);
      assert k > 1 ==> Slot(order', head, k - 1) == Slot(order, head, k - 2);
      if k > 1 && |order| > 0 { SlotsDiffer(order, head, 0, k - 1); }
    }
  }

  // b->next->prev = b->prev; b->prev->next = b->next.
  lemma UnlinkLinks(prev: seq<nat>, next: seq<nat>, head: nat, order: seq<nat>, k: nat)
    requires Linked(prev, next, head, order) && k < |order|
    ensures prev[order[k]] <= head && next[order[k]] <= head && order[k] !in Removed(order, k)
    ensures Linked(prev[next[order[k]] := prev[order[k]]], next[prev[order[k]] := next[order[k]]], head,
                   Removed(order, k))
  {
    var b := order[k];
    var order' := Removed(order, k);
    var p, n := prev[b], next[b];
    assert Slot(order, head, k) == b;
    assert p == Slot(order, head, k - 1) && n == Slot(order, head, k + 1);
    var prev', next' := prev[n := p], next[p := n];
    forall i | -1 <= i < |order'| ensures next'[Slot(order', head, i)] == Slot(order', head, i + 1) {
      var i0 := if i < k then i else i + 1;
      assert Slot(order', head, i) == Slot(order, head, i0);
      assert Slot(order', head, i + 1) == Slot(order, head, if i == k - 1 then k + 1 else i0 + 1);
      if i != k - 1 && (0 <= i0 || 0 <= k - 1) { SlotsDiffer(order, head, i0, k - 1); }
    }
    forall i | 0 <= i <= |order'| ensures prev'[Slot(order', head, i)] == Slot(order', head, i - 1) {
      var i0 := if i < k then i else i + 1;
      assert Slot(order', head, i) == Slot(order, head, i0);
      assert Slot(order', head, i - 1) == Slot(order, head, if i == k then k - 1 else i0 - 1);
      if i != k && (i0 < |order| || k + 1 < |order|) { SlotsDiffer(order, head, i0, k + 1); }
    }
  }

  // Moving a buffer to the front keeps every buffer in the list once.
  lemma MovedComplete(order: seq<nat>, head: nat, k: nat)
    requires Complete(order, head) && k < |order|
    ensures Complete(Pushed(Removed(order, k), order[k]), head)
  {
    var order' := Pushed(Removed(order, k), order[k]);
    forall b: nat | b < head ensures b in order' {
      assert b in order;
      var i :| 0 <= i < |order| && order[i] == b;
      assert order'[if i == k then 0 else if i < k then i + 1 else i] == b;
    }
  }
}
