/**
 The circular doubly linked list of buffers of bio.c, kept by next and prev links over
 buffer numbers, with the list head as one more number.
 */
module BufferList {
  const NBUF: nat := 30
  const HEAD: nat := NBUF

  /** The i-th node of the ring that starts and ends at the head. */
  ghost function At(order: seq<nat>, i: nat): nat
    requires i <= |order| + 1
  {
    if i == 0 || i == |order| + 1 then HEAD else order[i - 1]
  }

  /** Following next from the head visits order and returns; prev goes the other way. */
  ghost predicate Ring(next: seq<nat>, prev: seq<nat>, order: seq<nat>) {
    && |next| == |prev| == NBUF + 1
    && (forall i | 0 <= i < |order| :: order[i] < NBUF)
    && (forall i, j | 0 <= i < j < |order| :: order[i] != order[j])
    && (forall i | 0 <= i <= |order| :: next[At(order, i)] == At(order, i + 1)
                                        && prev[At(order, i + 1)] == At(order, i))
  }

  ghost function Removed(order: seq<nat>, i: nat): seq<nat>
    requires i < |order|
  {
    order[..i] + order[i + 1..]
  }

  lemma RemovedAt(order: seq<nat>, i: nat, j: nat)
    requires i < |order| && j <= |order|
    ensures |Removed(order, i)| == |order| - 1 && At(Removed(order, i), j) == if j <= i then At(order, j)
            else At(order, j + 1)
  {
  }

  /** Taking a node out by joining its neighbours. */
  lemma TakeOut(next: seq<nat>, prev: seq<nat>, order: seq<nat>, i: nat)
    requires Ring(next, prev, order) && i < |order|
    ensures var p, n := prev[order[i]], next[order[i]];
            && p <= NBUF && n <= NBUF && p != order[i] && n != order[i]
            && Ring(next[p := n], prev[n := p], Removed(order, i))
  {
    var b := order[i];
    var p, n, order' := At(order, i), At(order, i + 2), Removed(order, i);
    assert At(order, i + 1) == b;
    forall j | 0 <= j <= |order'|
      ensures next[p := n][At(order', j)] == At(order', j + 1) && prev[n := p][At(order', j + 1)] == At(order', j)
    {
      RemovedAt(order, i, j);
      RemovedAt(order, i, j + 1);
    }
  }

  /** Putting a node in after the head. */
  lemma PushFront(next: seq<nat>, prev: seq<nat>, order: seq<nat>, b: nat)
    requires Ring(next, prev, order) && b < NBUF && b !in order
    ensures var first := next[HEAD];
            && first <= NBUF
            && Ring(next[b := first][HEAD := b], prev[b := HEAD][first := b], [b] + order)
  {
    var first, order' := next[HEAD], [b] + order;
    assert At(order, 0) == HEAD && first == At(order, 1);
    var next', prev' := next[b := first][HEAD := b], prev[b := HEAD][first := b];
    forall j | 0 <= j <= |order'|
      ensures next'[At(order', j)] == At(order', j + 1) && prev'[At(order', j + 1)] == At(order', j)
    {
      if j > 0 {
        assert At(order', j) == if j == 1 then b else At(order, j - 1);
        assert At(order', j + 1) == At(order, j);
      }
    }
  }
}
