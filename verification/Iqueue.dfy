/** The intrusive doubly linked lists of ikcp.h. A list is a ring of nodes through its
    head; `ring` is that ring as a sequence, the head first, so that `ring[1..]` is
    the queue that the rest of the model works with. */
module Iqueue {
  class Node<T> {
    var next: Node?<T>
    var prev: Node?<T>
    const entry: T

    constructor (entry: T)
      ensures this.entry == entry
    {
      this.entry := entry;
      next, prev := null, null;
    }
  }

  ghost predicate Linked<T>(a: Node<T>, b: Node<T>)
    reads a, b
  {
    a.next == b && b.prev == a
  }

  function After<T>(ring: seq<Node<T>>, i: nat): Node<T>
    requires i < |ring|
  {
    if i + 1 < |ring| then ring[i + 1] else ring[0]
  }

  ghost predicate Distinct<T>(ring: seq<Node<T>>) {
    forall i, j :: 0 <= i < j < |ring| ==> ring[i] != ring[j]
  }

  ghost predicate IsRing<T>(ring: seq<Node<T>>)
    reads ring
  {
    ring != [] && Distinct(ring) && forall i: nat :: i < |ring| ==> Linked(ring[i], After(ring, i))
  }

  /** IQUEUE_INIT */
  method Init<T>(head: Node<T>)
    modifies head
    ensures IsRing([head])
  {
    head.next := head;
    head.prev := head;
  }

  /** The ring with `node` behind `ring[i]`. */
  function Inserted<T>(ring: seq<Node<T>>, i: nat, node: Node<T>): seq<Node<T>>
    requires i < |ring|
  {
    ring[..i + 1] + [node] + ring[i + 1..]
  }

  lemma InsertedAt<T>(ring: seq<Node<T>>, i: nat, node: Node<T>, k: nat)
    requires i < |ring| && k <= |ring|
    ensures var now := Inserted(ring, i, node);
            |now| == |ring| + 1
            && now[k] == (if k <= i then ring[k] else if k == i + 1 then node else ring[k - 1])
            && After(now, k) == (if k < i then After(ring, k) else if k == i then node else After(ring, k - 1))
  {}

  lemma InsertedDistinct<T>(ring: seq<Node<T>>, i: nat, node: Node<T>)
    requires i < |ring| && Distinct(ring) && node !in ring
    ensures Distinct(Inserted(ring, i, node))
  {}

  /** Different nodes have different followers. */
  lemma Untouched<T>(ring: seq<Node<T>>, i: nat, k: nat)
    requires Distinct(ring) && i < |ring| && k < |ring| && i != k
    ensures ring[k] != ring[i] && After(ring, k) != After(ring, i)
  {}

  /** IQUEUE_ADD behind any node of the ring: its head, or the place parse_data found. */
  method Add<T>(node: Node<T>, at: Node<T>, ghost ring: seq<Node<T>>, ghost i: nat)
    requires IsRing(ring) && i < |ring| && ring[i] == at && node !in ring
    modifies node, at, After(ring, i)
    ensures IsRing(Inserted(ring, i, node))
  {
    ghost var follower := After(ring, i);
    assert Linked(ring[i], follower);
    InsertedDistinct(ring, i, node);
    node.prev := at;
    node.next := at.next;
    at.next.prev := node;
    at.next := node;
    ghost var now := Inserted(ring, i, node);
    InsertedAt(ring, i, node, 0);
    forall k: nat | k < |now| ensures Linked(now[k], After(now, k)) {
      InsertedAt(ring, i, node, k);
      if k < i {
        Untouched(ring, i, k);
        assert old(Linked(ring[k], After(ring, k)));
      } else if k > i + 1 {
        Untouched(ring, i, k - 1);
        assert old(Linked(ring[k - 1], After(ring, k - 1)));
      }
    }
  }

  /** IQUEUE_ADD_TAIL */
  method AddTail<T>(node: Node<T>, head: Node<T>, ghost ring: seq<Node<T>>)
    requires IsRing(ring) && ring[0] == head && node !in ring
    modifies node, head, ring[|ring| - 1]
    ensures IsRing(ring + [node])
  {
    ghost var n := |ring| - 1;
    assert Linked(ring[n], After(ring, n)) && After(ring, n) == head;
    InsertedDistinct(ring, n, node);
    assert Inserted(ring, n, node) == ring + [node];
    node.prev := head.prev;
    node.next := head;
    head.prev.next := node;
    head.prev := node;
    ghost var now := Inserted(ring, n, node);
    InsertedAt(ring, n, node, 0);
    forall k: nat | k < |now| ensures Linked(now[k], After(now, k)) {
      InsertedAt(ring, n, node, k);
      if k < n {
        Untouched(ring, n, k);
        assert old(Linked(ring[k], After(ring, k)));
      }
    }
  }

  /** The ring without `ring[i]`. */
  function Removed<T>(ring: seq<Node<T>>, i: nat): seq<Node<T>>
    requires i < |ring|
  {
    ring[..i] + ring[i + 1..]
  }

  lemma RemovedAt<T>(ring: seq<Node<T>>, i: nat, k: nat)
    requires 0 < i < |ring| && k < |ring| - 1
    ensures var now := Removed(ring, i);
            |now| == |ring| - 1
            && now[k] == (if k < i then ring[k] else ring[k + 1])
            && After(now, k) == (if k < i - 1 then After(ring, k) else if k == i - 1 then After(ring, i) else After(ring, k + 1))
  {}

  lemma RemovedDistinct<T>(ring: seq<Node<T>>, i: nat)
    requires i < |ring| && Distinct(ring)
    ensures Distinct(Removed(ring, i))
  {}

  /** IQUEUE_DEL of any node but the head. */
  method Del<T>(entry: Node<T>, ghost ring: seq<Node<T>>, ghost i: nat)
    requires IsRing(ring) && 0 < i < |ring| && ring[i] == entry
    modifies entry, ring[i - 1], After(ring, i)
    ensures IsRing(Removed(ring, i))
    ensures entry.next == null && entry.prev == null
  {
    ghost var before, follower := ring[i - 1], After(ring, i);
    assert Linked(before, After(ring, i - 1)) && After(ring, i - 1) == entry;
    assert Linked(entry, follower);
    Untouched(ring, i, i - 1);
    RemovedDistinct(ring, i);
    entry.next.prev := entry.prev;
    entry.prev.next := entry.next;
    entry.next := null;
    entry.prev := null;
    ghost var now := Removed(ring, i);
    RemovedAt(ring, i, 0);
    forall k: nat | k < |now| ensures Linked(now[k], After(now, k)) {
      RemovedAt(ring, i, k);
      if k != i - 1 {
        ghost var was := if k < i then k else k + 1;
        Untouched(ring, i, was);
        Untouched(ring, i - 1, was);
        assert old(Linked(ring[was], After(ring, was)));
      }
    }
  }

  /** IQUEUE_IS_EMPTY */
  method IsEmpty<T>(head: Node<T>, ghost ring: seq<Node<T>>) returns (empty: bool)
    requires IsRing(ring) && ring[0] == head
    ensures empty <==> ring[1..] == []
  {
    assert Linked(ring[0], After(ring, 0));
    empty := head == head.next;
  }

  /** iqueue_foreach_entry: the nodes in queue order, each once. */
  method Foreach<T>(head: Node<T>, ghost ring: seq<Node<T>>) returns (nodes: seq<Node<T>>)
    requires IsRing(ring) && ring[0] == head
    ensures nodes == ring[1..]
  {
    assert Linked(ring[0], After(ring, 0));
    var pos := head.next;
    nodes := [];
    while pos != head
      invariant |nodes| < |ring| && nodes == ring[1..|nodes| + 1]
      invariant pos == After(ring, |nodes|)
      decreases |ring| - |nodes|
    {
      hide Distinct;
      var n := |nodes| + 1;
      assert n < |ring| && pos == ring[n];
      nodes := nodes + [pos];
      assert Linked(ring[n], After(ring, n));
      pos := pos.next;
    }
    HeadOnce(ring, |nodes|);
  }

  /** Only behind the last node does the head come again. */
  lemma HeadOnce<T>(ring: seq<Node<T>>, k: nat)
    requires Distinct(ring) && k < |ring|
    ensures After(ring, k) == ring[0] <==> k == |ring| - 1
  {}
}
