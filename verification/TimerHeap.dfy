/** The per-thread timer heap: a binary min-heap of sleep nodes with back
    indices, kept in place by sifting. */
module TimerHeap {
  import opened Collections

  // ------------------------------------------------- order, on the deadlines

  function Parent(k: int): int
    requires k > 0
  {
    (k - 1) / 2
  }

  /** The element at `k` is no earlier than its parent. */
  predicate Fits(ks: seq<int>, k: int)
    requires 0 < k < |ks|
  {
    ks[Parent(k)] <= ks[k]
  }

  /** The element at `k` is no earlier than its grandparent. */
  predicate Skips(ks: seq<int>, k: int)
    requires 0 < k < |ks| && Parent(k) > 0
  {
    ks[Parent(Parent(k))] <= ks[k]
  }

  ghost predicate Ordered(ks: seq<int>) {
    forall k :: 0 < k < |ks| ==> Fits(ks, k)
  }

  /** Ordered, except that the element at `i` may be too small for its parent. */
  ghost predicate OrderedBelow(ks: seq<int>, i: nat) {
    && (forall k :: 0 < k < |ks| && k != i ==> Fits(ks, k))
    && (i > 0 ==> forall k :: 0 < k < |ks| && Parent(k) == i ==> Skips(ks, k))
  }

  /** Ordered, except that the element at `i` may be out of order both ways. */
  ghost predicate OrderedAround(ks: seq<int>, i: nat) {
    && (forall k :: 0 < k < |ks| && k != i && Parent(k) != i ==> Fits(ks, k))
    && (i > 0 ==> forall k :: 0 < k < |ks| && Parent(k) == i ==> Skips(ks, k))
  }

  function Swapped<T>(s: seq<T>, i: nat, j: nat): (r: seq<T>)
    requires i < |s| && j < |s|
    ensures |r| == |s| && multiset(r) == multiset(s)
  {
    assert multiset(s[i := s[j]]) == multiset(s) - multiset{s[i]} + multiset{s[j]};
    s[i := s[j]][j := s[i]]
  }

  lemma SwapUp(ks: seq<int>, i: nat)
    requires 0 < i < |ks| && OrderedBelow(ks, i) && !Fits(ks, i)
    ensures OrderedBelow(Swapped(ks, i, Parent(i)), Parent(i))
  {
    var p := Parent(i);
    var r := Swapped(ks, i, p);
    forall k | 0 < k < |r| && k != p ensures Fits(r, k) {
      if k != i {
        assert Fits(ks, k);
        if Parent(k) == i { assert Skips(ks, k); }
      }
    }
    if p > 0 {
      assert Fits(ks, p);
      forall k | 0 < k < |r| && Parent(k) == p ensures Skips(r, k) {
        if k != i { assert Fits(ks, k); }
      }
    }
  }

  /** Whether `b` is the least child of `i`. */
  ghost predicate LeastChild(ks: seq<int>, i: nat, b: nat) {
    0 < b < |ks| && Parent(b) == i && forall k :: 0 < k < |ks| && Parent(k) == i ==> ks[b] <= ks[k]
  }

  lemma SwapDown(ks: seq<int>, i: nat, b: nat)
    requires OrderedAround(ks, i) && LeastChild(ks, i, b) && !Fits(ks, b)
    ensures OrderedAround(Swapped(ks, i, b), b) && Fits(Swapped(ks, i, b), b)
  {
    var r := Swapped(ks, i, b);
    forall k | 0 < k < |r| && k != b && Parent(k) != b ensures Fits(r, k) {
      if k == i {
        assert Skips(ks, b);
      } else if Parent(k) != i {
        assert Fits(ks, k);
      }
    }
    forall k | 0 < k < |r| && Parent(k) == b ensures Skips(r, k) {
      assert Fits(ks, k);
    }
  }

  /** The children of a slot, and what sifting concludes from comparing them. */
  lemma ChildrenOf(ks: seq<int>, i: nat)
    requires i < |ks| && OrderedAround(ks, i)
    ensures forall k :: 0 < k < |ks| && Parent(k) == i ==> k == 2 * i + 1 || k == 2 * i + 2
    ensures var l, r := 2 * i + 1, 2 * i + 2;
            && (l < |ks| && ks[l] < ks[i] && (r < |ks| ==> ks[l] <= ks[r]) ==> LeastChild(ks, i, l) && !Fits(ks, l))
            && (r < |ks| && ks[r] < ks[i] && ks[r] < ks[l] ==> LeastChild(ks, i, r) && !Fits(ks, r))
            && ((l < |ks| ==> ks[i] <= ks[l]) && (r < |ks| ==> ks[i] <= ks[r]) ==> OrderedBelow(ks, i))
  {
    forall k | 0 < k < |ks| && Parent(k) == i ensures k == 2 * i + 1 || k == 2 * i + 2 {}
  }

  lemma {:induction false} RootIsLeast(ks: seq<int>, k: nat)
    requires Ordered(ks) && k < |ks|
    ensures ks[0] <= ks[k]
    decreases k
  {
    if k > 0 {
      assert Fits(ks, k);
      RootIsLeast(ks, Parent(k));
    }
  }

  // ----------------------------------------------------------------- the heap

  class TimerNode {
    var deadline: int
    var idx: nat
    var inHeap: bool

    constructor ()
      ensures !inHeap
    {
      inHeap := false;
    }
  }

  class TimerHeap {
    var heap: seq<TimerNode>
    ghost const nodes: set<TimerNode>   // the nodes that may ever be pushed

    constructor (ghost all: set<TimerNode>)
      requires forall n :: n in all ==> !n.inHeap
      ensures Valid() && heap == [] && nodes == all
    {
      heap := [];
      nodes := all;
    }

    ghost function Keys(): (ks: seq<int>)
      reads this, heap
      ensures |ks| == |heap| && forall i :: 0 <= i < |ks| ==> ks[i] == heap[i].deadline
    {
      seq(|heap|, i requires 0 <= i < |heap| reads this, heap => heap[i].deadline)
    }

    /** Back indices are right everywhere but possibly at `hole`. */
    ghost predicate Indexed(hole: int)
      reads this, nodes
    {
      forall k :: 0 <= k < |heap| ==> heap[k] in nodes && (k != hole ==> heap[k].idx == k)
    }

    ghost predicate Valid()
      reads this, heap, nodes
    {
      && Indexed(-1)
      && Ordered(Keys())
      && (forall n :: n in nodes ==> (n.inHeap <==> n in Contents()))
    }

    ghost function Contents(): set<TimerNode>
      reads this
    {
      set n | n in heap
    }

    lemma LeastAtTop(n: TimerNode)
      requires Ordered(Keys()) && n in Contents()
      ensures heap != [] && heap[0].deadline <= n.deadline
    {
      var k :| 0 <= k < |heap| && heap[k] == n;
      RootIsLeast(Keys(), k);
    }

    /** Exchanges two slots, with their back indices. */
    method Swap(i: nat, j: nat)
      requires i < |heap| && j < |heap| && i != j && Distinct(heap)
      requires heap[i] in nodes && heap[j] in nodes
      modifies `heap, nodes`idx
      ensures heap == Swapped(old(heap), i, j) && Distinct(heap)
      ensures heap[i].idx == i && heap[j].idx == j
      ensures forall n :: n in nodes && n != heap[i] && n != heap[j] ==> n.idx == old(n.idx)
    {
      heap := heap[i := heap[j]][j := heap[i]];
      heap[j].idx := j;
      heap[i].idx := i;
    }

    /** One step towards the root. */
    method Climb(i: nat) returns (parent: nat)
      requires 0 < i < |heap| && Indexed(i) && Distinct(heap)
      requires OrderedBelow(Keys(), i) && !Fits(Keys(), i)
      modifies `heap, nodes`idx
      ensures parent == Parent(i) < |heap| && Indexed(-1) && Distinct(heap) && OrderedBelow(Keys(), parent)
      ensures |heap| == |old(heap)| && multiset(heap) == multiset(old(heap)) && heap[parent] == old(heap[i])
    {
      parent := (i - 1) / 2;
      ghost var ks := Keys();
      Swap(i, parent);
      SwapUp(ks, i);
      assert Keys() == Swapped(ks, i, parent);
    }

    /** Moves the element at `start` towards the root until its parent is no
        later. */
    method SiftUp(start: nat) returns (i: nat)
      requires start < |heap| && Indexed(start) && Distinct(heap) && OrderedBelow(Keys(), start)
      modifies `heap, nodes`idx
      ensures i < |heap| && heap[i] == old(heap[start]) && Indexed(i) && Ordered(Keys())
      ensures old(Indexed(-1)) ==> Indexed(-1)
      ensures |heap| == |old(heap)| && multiset(heap) == multiset(old(heap)) && Distinct(heap)
    {
      i := start;
      while i > 0
        invariant i < |heap| && heap[i] == old(heap[start])
        invariant Indexed(i) && Distinct(heap) && OrderedBelow(Keys(), i)
        invariant old(Indexed(-1)) ==> Indexed(-1)
        invariant |heap| == |old(heap)| && multiset(heap) == multiset(old(heap))
      {
        var parent := (i - 1) / 2;
        if heap[parent].deadline <= heap[i].deadline {
          break;
        }
        i := Climb(i);
      }
    }

    /** One step away from the root, to the earlier child. */
    method Descend(i: nat, best: nat)
      requires Indexed(-1) && Distinct(heap) && OrderedAround(Keys(), i)
      requires LeastChild(Keys(), i, best) && !Fits(Keys(), best)
      modifies `heap, nodes`idx
      ensures |heap| == |old(heap)| && multiset(heap) == multiset(old(heap))
      ensures Indexed(-1) && Distinct(heap) && OrderedAround(Keys(), best) && Fits(Keys(), best)
    {
      ghost var ks := Keys();
      Swap(best, i);
      SwapDown(ks, i, best);
      assert Keys() == Swapped(ks, i, best);
    }

    /** Moves the element at `start` away from the root until both children are no
        earlier; its parent may still be later. */
    method SiftDown(start: nat) returns (i: nat)
      requires start < |heap| && Indexed(-1) && Distinct(heap) && OrderedAround(Keys(), start)
      modifies `heap, nodes`idx
      ensures i < |heap| && Indexed(-1) && Distinct(heap) && OrderedBelow(Keys(), i)
      ensures i > 0 && i != start ==> Fits(Keys(), i)
      ensures |heap| == |old(heap)| && multiset(heap) == multiset(old(heap))
    {
      i := start;
      while true
        invariant i < |heap| && Indexed(-1) && Distinct(heap) && OrderedAround(Keys(), i)
        invariant i != start ==> i > 0 && Fits(Keys(), i)
        invariant |heap| == |old(heap)| && multiset(heap) == multiset(old(heap))
        decreases |heap| - i
      {
        var left, right, best := 2 * i + 1, 2 * i + 2, i;
        if left < |heap| && heap[left].deadline < heap[best].deadline {
          best := left;
        }
        if right < |heap| && heap[right].deadline < heap[best].deadline {
          best := right;
        }
        ghost var ks := Keys();
        ChildrenOf(ks, i);
        if best == i {
          break;
        }
        Descend(i, best);
        i := best;
      }
    }

    /** Adds a node that is not on the heap; a node that is, is refused. */
    method Push(node: TimerNode) returns (ok: bool)
      requires Valid() && node in nodes
      modifies `heap, nodes`idx, node`inHeap
      ensures ok == !old(node.inHeap) && Valid()
      ensures !ok ==> heap == old(heap)
      ensures Contents() == old(Contents()) + {node}
      ensures |heap| == |old(heap)| + if ok then 1 else 0
    {
      ok := !node.inHeap;
      if !ok {
        return;
      }
      ghost var ks := Keys();
      node.inHeap := true;
      assert Keys() == ks;
      Append(node);
    }

    method Append(node: TimerNode)
      requires Indexed(-1) && Ordered(Keys()) && node in nodes && node !in heap
      modifies `heap, nodes`idx
      ensures Indexed(-1) && Ordered(Keys())
      ensures Contents() == old(Contents()) + {node} && |heap| == |old(heap)| + 1
    {
      ghost var ks := Keys();
      heap := heap + [node];
      ghost var pushed := heap;
      assert Keys() == ks + [node.deadline];
      AppendOrder(ks, node.deadline);
      var i := SiftUp(|heap| - 1);
      ghost var sifted := Keys();
      node.idx := i;
      assert Keys() == sifted;
      SameMembers(pushed, heap);
    }

    /** Takes a node off the heap, wherever it is; without effect if it is not on
        it. */
    method Remove(node: TimerNode)
      requires Valid() && node in nodes
      modifies `heap, nodes`idx, node`inHeap
      ensures Valid() && !node.inHeap
      ensures Contents() == old(Contents()) - {node}
      ensures |heap| == |old(heap)| - if old(node.inHeap) then 1 else 0
    {
      if !node.inHeap {
        return;
      }
      ghost var ks := Keys();
      node.inHeap := false;
      assert Keys() == ks;
      var i := node.idx;
      FillSlot(node, i);
      if i < |heap| {
        Resift(i);
      }
    }

    /** Takes the earliest node off the heap. */
    method PopMin() returns (n: TimerNode)
      requires Valid() && heap != []
      modifies `heap, nodes`idx, nodes`inHeap
      ensures Valid() && n in nodes && n == old(heap[0]) && !n.inHeap
      ensures forall m :: m in old(Contents()) ==> n.deadline <= m.deadline
      ensures Contents() == old(Contents()) - {n} && |heap| == |old(heap)| - 1
    {
      n := heap[0];
      forall m | m in Contents() ensures n.deadline <= m.deadline {
        LeastAtTop(m);
      }
      ghost var ks := Keys();
      n.inHeap := false;
      assert Keys() == ks;
      FillSlot(n, 0);
      if heap != [] {
        ghost var before := heap;
        var i := SiftDown(0);
        SameMembers(before, heap);
      }
    }

    /** Fills slot `i` with the last element; the order may be lost at that slot. */
    method FillSlot(ghost node: TimerNode, i: nat)
      requires i < |heap| && heap[i] == node && Indexed(-1) && Ordered(Keys())
      modifies `heap, nodes`idx
      ensures Indexed(-1) && Distinct(heap) && if i < |heap| then OrderedAround(Keys(), i) else Ordered(Keys())
      ensures Contents() == old(Contents()) - {node} && |heap| == |old(heap)| - 1
    {
      ghost var before, ks := heap, Keys();
      var last := heap[|heap| - 1];
      heap := heap[i := last];
      heap[i].idx := i;
      heap := heap[..|heap| - 1];
      FillFromEnd(before, i);
      if i < |heap| {
        assert Keys() == ks[..|ks| - 1][i := ks[|ks| - 1]];
        FillOrder(ks, i);
      } else {
        assert Keys() == ks[..|ks| - 1];
        ShrinkOrder(ks);
      }
    }

    /** The element moved into slot `i` may have to go either way. */
    method Resift(i: nat)
      requires i < |heap| && Indexed(-1) && Distinct(heap) && OrderedAround(Keys(), i)
      modifies `heap, nodes`idx
      ensures Indexed(-1) && Ordered(Keys())
      ensures Contents() == old(Contents()) && |heap| == |old(heap)|
    {
      ghost var before := heap;
      var j := SiftDown(i);
      j := SiftUp(j);
      SameMembers(before, heap);
    }
  }

  lemma AppendOrder(ks: seq<int>, d: int)
    requires Ordered(ks)
    ensures OrderedBelow(ks + [d], |ks|)
  {
    forall k | 0 < k < |ks| ensures Fits(ks + [d], k) {
      assert Fits(ks, k);
    }
  }

  lemma ShrinkOrder(ks: seq<int>)
    requires Ordered(ks) && ks != []
    ensures Ordered(ks[..|ks| - 1])
  {
    var r := ks[..|ks| - 1];
    forall k | 0 < k < |r| ensures Fits(r, k) {
      assert Fits(ks, k);
    }
  }

  lemma SameMembers<T>(a: seq<T>, b: seq<T>)
    requires multiset(a) == multiset(b)
    ensures (set x | x in a) == (set x | x in b)
  {
    assert forall x :: x in a ==> x in multiset(b);
    assert forall x :: x in b ==> x in multiset(a);
  }

  /** Dropping the last element into slot `i` loses exactly the old slot `i`. */
  lemma FillFromEnd(s: seq<TimerNode>, i: nat)
    requires i < |s| && Distinct(s)
    ensures var r := s[i := s[|s| - 1]][..|s| - 1];
            && (forall x :: x in r <==> x in s && x != s[i])
            && Distinct(r)
  {
    var r := s[i := s[|s| - 1]][..|s| - 1];
    forall x | x in s && x != s[i] ensures x in r {
      var k :| 0 <= k < |s| && s[k] == x;
      assert if k == |s| - 1 then r[i] == x else r[k] == x;
    }
  }

  lemma FillOrder(ks: seq<int>, i: nat)
    requires Ordered(ks) && i < |ks| - 1
    ensures OrderedAround(ks[..|ks| - 1][i := ks[|ks| - 1]], i)
  {
    var r := ks[..|ks| - 1][i := ks[|ks| - 1]];
    forall k | 0 < k < |r| && k != i && Parent(k) != i ensures Fits(r, k) {
      assert Fits(ks, k);
    }
    if i > 0 {
      forall k | 0 < k < |r| && Parent(k) == i ensures Skips(r, k) {
        assert Fits(ks, i) && Fits(ks, k);
      }
    }
  }
}
