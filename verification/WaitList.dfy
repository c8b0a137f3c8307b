/** `uco_linked_list`: the intrusive singly linked list of parked coroutines that
    every primitive queues its waiters on. */
module WaitList {
  import opened Collections

  class WaitNode {
    var next: WaitNode?

    constructor ()
      ensures next == null
    {
      next := null;
    }
  }

  /** Node `k` points to the one behind it, the last one to nothing. */
  ghost predicate LinkOk(nodes: seq<WaitNode>, k: nat)
    requires k < |nodes|
    reads nodes
  {
    nodes[k].next == if k + 1 < |nodes| then nodes[k + 1] else null
  }

  class LinkedList {
    var head: WaitNode?
    var tail: WaitNode?
    ghost var nodes: seq<WaitNode>  // the waiters, front first

    ghost predicate Valid()
      reads this, nodes
    {
      && Distinct(nodes)
      && (nodes == [] ==> head == null && tail == null)
      && (nodes != [] ==> head == nodes[0] && tail == nodes[|nodes| - 1])
      && forall k :: 0 <= k < |nodes| ==> LinkOk(nodes, k)
    }

    constructor ()
      ensures Valid() && nodes == []
    {
      head, tail := null, null;
      nodes := [];
    }

    method Push(node: WaitNode?, lifo: bool)
      requires Valid() && node !in nodes
      modifies this, node, nodes
      ensures Valid()
      ensures nodes == if node == null then old(nodes) else if lifo then [node] + old(nodes) else old(nodes) + [node]
    {
      if node == null {
        return;
      }
      ghost var was := nodes;
      if lifo {
        node.next := head;
        head := node;
        if tail == null {
          tail := node;
        }
        nodes := [node] + nodes;
        forall k | 0 <= k < |nodes| ensures LinkOk(nodes, k) {
          if k > 0 {
            assert nodes[k] == was[k - 1] && old(LinkOk(was, k - 1));
          }
        }
      } else {
        node.next := null;
        if tail != null {
          tail.next := node;
        } else {
          head := node;
        }
        tail := node;
        nodes := nodes + [node];
        forall k | 0 <= k < |nodes| ensures LinkOk(nodes, k) {
          if k < |was| {
            assert nodes[k] == was[k] && old(LinkOk(was, k));
          }
        }
      }
    }

    method Pop() returns (node: WaitNode?)
      requires Valid()
      modifies this
      ensures Valid()
      ensures old(nodes) == [] ==> node == null && nodes == []
      ensures old(nodes) != [] ==> node != null && old(nodes) == [node] + nodes
    {
      if head == null {
        return null;
      }
      assert LinkOk(nodes, 0);
      node := head;
      head := head.next;
      if head == null {
        tail := null;
      }
      nodes := nodes[1..];
      forall k | 0 <= k < |nodes| ensures LinkOk(nodes, k) {
        assert old(LinkOk(nodes, k + 1));
      }
    }

    /** Empties the list; the nodes come out front first. */
    method TakeAll() returns (taken: seq<WaitNode>)
      requires Valid()
      modifies this
      ensures Valid() && nodes == [] && taken == old(nodes)
    {
      taken := [];
      while head != null
        invariant |taken| <= |nodes| && taken == nodes[..|taken|] && nodes == old(nodes)
        invariant head == if |taken| < |nodes| then nodes[|taken|] else null
        invariant forall k :: 0 <= k < |nodes| ==> LinkOk(nodes, k)
        decreases |nodes| - |taken|
      {
        assert LinkOk(nodes, |taken|);
        taken := taken + [head];
        head := head.next;
      }
      head, tail := null, null;
      nodes := [];
    }
  }
}
