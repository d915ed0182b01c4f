/** The doubly linked list operations of rt-smart/include/rtservice.h, on nodes in the heap. */
module RtList {
  import opened Common

  class Node {
    var next: Node
    var prev: Node

    // rt_list_init
    constructor ()
      ensures next == this && prev == this
      ensures IsRing([this])
    {
      next, prev := this, this;
    }
  }

  // The link between two nodes, in both directions.
  ghost predicate Linked(x: Node, y: Node)
    reads x, y
  {
    x.next == y && y.prev == x
  }

  // The nodes of q, in this order, form a ring. A list is such a ring with its head at position 0.
  ghost predicate IsRing(q: seq<Node>)
    reads q
  {
    q != [] && Distinct(q) && forall i :: 0 <= i < |q| ==> Linked(q[i], q[NextAround(i, |q|)])
  }

  // The longer list is a ring if the new node is linked in at k and no other link is broken.
  lemma InsertedIsRing(q: seq<Node>, k: nat, n: Node)
    requires q != [] && Distinct(q) && k < |q| && n !in q
    requires Linked(q[k], n) && Linked(n, q[NextAround(k, |q|)])
    requires forall i :: 0 <= i < |q| && i != k ==> Linked(q[i], q[NextAround(i, |q|)])
    ensures IsRing(Inserted(q, k + 1, n))
  {
    var r := Inserted(q, k + 1, n);
    forall i | 0 <= i < |r| ensures Linked(r[i], r[NextAround(i, |r|)]) {
      if i != k && i != k + 1 {
        var j := if i < k then i else i - 1;
        assert r[i] == q[j] && r[NextAround(i, |r|)] == q[NextAround(j, |q|)];
      }
    }
  }

  // The shorter list is a ring if the neighbours of the node at k are linked and no other link is broken.
  lemma RemovedIsRing(q: seq<Node>, k: nat, b: nat)
    requires Distinct(q) && |q| > 1 && k < |q| && b < |q| && NextAround(b, |q|) == k
    requires Linked(q[b], q[NextAround(k, |q|)])
    requires forall i :: 0 <= i < |q| && i != k && i != b ==> Linked(q[i], q[NextAround(i, |q|)])
    ensures IsRing(Dropped(q, k))
  {
    var r := Dropped(q, k);
    forall i | 0 <= i < |r| ensures Linked(r[i], r[NextAround(i, |r|)]) {
      var j := if i < k then i else i + 1;
      if j != b {
        assert r[i] == q[j] && r[NextAround(i, |r|)] == q[NextAround(j, |q|)];
      }
    }
  }

  // The threads whose nodes are behind the head of a list: a wait list, or a ready queue.
  function Queue(q: seq<Node>, thread: Node -> nat): seq<nat>
    requires q != []
  {
    seq(|q| - 1, i requires 0 <= i < |q| - 1 => thread(q[i + 1]))
  }

  /** Putting a node before the head appends its thread to the queue, and removing one leaves the other threads. */
  lemma QueueOfRing(q: seq<Node>, thread: Node -> nat, k: nat, n: Node)
    requires q != [] && Distinct(Queue(q, thread))
    ensures Queue(Inserted(q, |q|, n), thread) == Queue(q, thread) + [thread(n)]
    ensures 0 < k < |q| ==> Queue(Dropped(q, k), thread) == Without(Queue(q, thread), thread(q[k]))
  {
    if 0 < k < |q| {
      WithoutAt(Queue(q, thread), thread(q[k]), k - 1);
    }
  }

  // Different positions have different successors.
  lemma SuccessorsDiffer(q: seq<Node>, k: nat)
    requires Distinct(q) && k < |q|
    ensures forall i :: 0 <= i < |q| && i != k ==> q[i] != q[k] && q[NextAround(i, |q|)] != q[NextAround(k, |q|)]
  {
  }

  // rt_list_insert_after
  method InsertAfter(l: Node, n: Node, ghost q: seq<Node>, ghost k: nat)
    requires IsRing(q) && k < |q| && q[k] == l && n !in q
    modifies l, l.next, n
    ensures IsRing(Inserted(q, k + 1, n))
  {
    assert Linked(l, q[NextAround(k, |q|)]);
    SuccessorsDiffer(q, k);
    l.next.prev := n;
    n.next := l.next;
    l.next := n;
    n.prev := l;
    InsertedIsRing(q, k, n);
  }

  // rt_list_insert_before: before the head of a list is behind its last node.
  method InsertBefore(l: Node, n: Node, ghost q: seq<Node>, ghost k: nat)
    requires IsRing(q) && k < |q| && q[k] == l && n !in q
    modifies l, l.prev, n
    ensures IsRing(Inserted(q, if k == 0 then |q| else k, n))
  {
    ghost var b := if k > 0 then k - 1 else |q| - 1;
    assert Linked(q[b], q[NextAround(b, |q|)]);
    SuccessorsDiffer(q, b);
    l.prev.next := n;
    n.prev := l.prev;
    l.prev := n;
    n.next := l;
    InsertedIsRing(q, b, n);
  }

  // rt_list_remove: the node is left a ring of its own, and a node that already is one stays so.
  method Remove(n: Node, ghost q: seq<Node>, ghost k: nat)
    requires IsRing(q) && k < |q| && q[k] == n
    modifies n, n.next, n.prev
    ensures IsRing([n]) && (|q| > 1 ==> IsRing(Dropped(q, k)))
  {
    ghost var b := if k > 0 then k - 1 else |q| - 1;
    assert Linked(n, q[NextAround(k, |q|)]) && Linked(q[b], q[NextAround(b, |q|)]);
    SuccessorsDiffer(q, k);
    SuccessorsDiffer(q, b);
    n.next.prev := n.prev;
    n.prev.next := n.next;
    n.prev := n;
    n.next := n;
    if |q| > 1 {
      RemovedIsRing(q, k, b);
    }
  }

  // rt_list_isempty
  method IsEmpty(l: Node, ghost q: seq<Node>) returns (empty: bool)
    requires IsRing(q) && q[0] == l
    ensures empty <==> q == [l]
  {
    assert Linked(l, q[NextAround(0, |q|)]);
    empty := l.next == l;
  }
}
