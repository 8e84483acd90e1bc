/** Circular doubly linked lists with a sentinel, threaded through the process blocks. */
module Lists {
  import opened Layout

  class ListHead {
    /** The process block this node lies in, which the source finds by masking the node's
        address; -1 for a sentinel. */
    const slot: int
    var next: ListHead?
    var prev: ListHead?

    constructor (slot: int)
      ensures this.slot == slot && next == null && prev == null
    {
      this.slot := slot;
      next, prev := null, null;
    }
  }

  /** Position 0 and position |ns| + 1 of the ring are the sentinel. */
  function At(head: ListHead, ns: seq<ListHead>, i: int): ListHead
    requires 0 <= i <= |ns| + 1
  {
    if i == 0 || i == |ns| + 1 then head else ns[i - 1]
  }

  /** The link between positions `i` and `i + 1`, in both directions. */
  ghost predicate Linked(head: ListHead, ns: seq<ListHead>, i: int)
    requires 0 <= i <= |ns|
    reads head, ns
  {
    At(head, ns, i).next == At(head, ns, i + 1) && At(head, ns, i + 1).prev == At(head, ns, i)
  }

  /** The sentinel and `ns` form one ring, in this order, linked both ways. */
  ghost predicate Ring(head: ListHead, ns: seq<ListHead>)
    reads head, ns
  {
    && head !in ns
    && Distinct(ns)
    && forall i :: 0 <= i <= |ns| ==> Linked(head, ns, i)
  }

  method InitListHead(list: ListHead)
    modifies list
    ensures Ring(list, [])
  {
    list.next := list;
    list.prev := list;
  }

  method ListAddBetween(node: ListHead, prev: ListHead, next: ListHead)
    modifies node, prev, next
    requires node != prev && node != next
    ensures node.next == next && node.prev == prev && prev.next == node && next.prev == node
    ensures prev != next ==> prev.prev == old(prev.prev) && next.next == old(next.next)
  {
    next.prev := node;
    node.next := next;
    node.prev := prev;
    prev.next := node;
  }

  /** Inserting a node that is not in the ring before the sentinel puts it last. */
  method ListAddTail(node: ListHead, head: ListHead, ghost ns: seq<ListHead>)
    requires Ring(head, ns) && node != head && node !in ns
    modifies node, head, ns
    ensures Ring(head, ns + [node])
  {
    assert Linked(head, ns, |ns|);
    var last := head.prev;
    ListAddBetween(node, last, head);
    ghost var ms := ns + [node];
    forall i | 0 <= i <= |ms| ensures Linked(head, ms, i) {
      assert i < |ns| ==> old(Linked(head, ns, i));
    }
  }

  method ListDelBetween(prev: ListHead, next: ListHead)
    modifies prev, next
    ensures next.prev == prev && prev.next == next
    ensures prev != next ==> prev.prev == old(prev.prev) && next.next == old(next.next)
  {
    next.prev := prev;
    prev.next := next;
  }

  /** Removing a node of the ring closes the ring around it and leaves the node unlinked. */
  method ListDel(entry: ListHead, ghost head: ListHead, ghost ns: seq<ListHead>, ghost k: nat)
    requires Ring(head, ns) && k < |ns| && entry == ns[k]
    modifies head, ns
    ensures Ring(head, ns[..k] + ns[k + 1..])
    ensures entry.next == null && entry.prev == null
  {
    assert Linked(head, ns, k) && Linked(head, ns, k + 1);
    ListDelBetween(entry.prev, entry.next);
    entry.next := null;
    entry.prev := null;
    ghost var ms := ns[..k] + ns[k + 1..];
    forall i | 0 <= i <= |ms| ensures Linked(head, ms, i) {
      assert i < k ==> old(Linked(head, ns, i));
      assert i > k ==> old(Linked(head, ns, i + 1));
      assert At(head, ms, i) == if i <= k then At(head, ns, i) else At(head, ns, i + 1);
      assert At(head, ms, i + 1) == if i < k then At(head, ns, i + 1) else At(head, ns, i + 2);
    }
  }

  method ListEmpty(head: ListHead, ghost ns: seq<ListHead>) returns (b: bool)
    requires Ring(head, ns)
    ensures b <==> ns == []
  {
    assert Linked(head, ns, 0);
    b := head.next == head;
  }

  method ListFirst(head: ListHead, ghost ns: seq<ListHead>) returns (e: ListHead)
    requires Ring(head, ns)
    ensures e == if ns == [] then head else ns[0]
  {
    assert Linked(head, ns, 0);
    e := head.next;
  }
}
