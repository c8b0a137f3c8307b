/** The timer side of `thread_co_env`: the heap of sleepers and the kernel timeout
    aimed at its top, updated in place.  The expiry loop resumes sleepers on the
    spot, and what they run may put nodes on the heap again or take nodes off. */
module TimerService {
  import opened Collections
  import opened TimerHeap
  import opened TimerArm

  /** What a coroutine resumed by the expiry loop does to the timers of its
      thread before it suspends again. */
  datatype Op =
    | Sleep(node: TimerNode, deadline: int)
    | Cancel(node: TimerNode)

  /** The outcome of the arbitration for an expired node: a wake was faster, or the
      sleeper runs `ops`. */
  datatype Outcome = Lost | Won(ops: seq<Op>)

  /** A sleep started after `now` on a monotone clock, for a positive time. */
  predicate Later(ops: seq<Op>, now: int) {
    forall op :: op in ops && op.Sleep? ==> op.deadline > now
  }

  ghost predicate Uses(ops: seq<Op>, nodes: set<TimerNode>) {
    forall op :: op in ops ==> op.node in nodes
  }

  ghost predicate Cancels(ops: seq<Op>, n: TimerNode) {
    Cancel(n) in ops
  }

  ghost predicate CancelledBy(o: Outcome, n: TimerNode) {
    o.Won? && Cancels(o.ops, n)
  }

  predicate Sorted(times: seq<int>) {
    forall i, j :: 0 <= i < j < |times| ==> times[i] <= times[j]
  }

  /** What happens at the k-th pop; behind the end of the script wakes are faster. */
  function OutcomeAt(script: seq<Outcome>, k: nat): Outcome {
    if k < |script| then script[k] else Lost
  }

  /** The outcome of one of the first `k` pops cancels `n`. */
  ghost predicate CancelledBefore(script: seq<Outcome>, k: nat, n: TimerNode) {
    exists j: nat :: j < k && CancelledBy(OutcomeAt(script, j), n)
  }

  /** What the pops so far, `fired` at `times`, made of the sleepers due: each of them was
      due, is popped once, at its deadline, in the order of deadlines, and not after
      its sleep was cancelled.  Exactly those neither popped nor cancelled by a pop
      remain, at later deadlines. */
  ghost predicate LogOk(script: seq<Outcome>, due: map<TimerNode, int>, fired: seq<TimerNode>, times: seq<int>,
                        rest: map<TimerNode, int>) {
    && |fired| == |times| && Distinct(fired) && Sorted(times)
    && (forall i :: 0 <= i < |fired| ==>
          fired[i] in due && times[i] == due[fired[i]] && !CancelledBefore(script, i, fired[i]))
    && rest == Remaining(script, due, fired)
    && (times != [] ==> forall n :: n in rest ==> times[|times| - 1] <= rest[n])
  }

  ghost function Remaining(script: seq<Outcome>, due: map<TimerNode, int>, fired: seq<TimerNode>): map<TimerNode, int> {
    map n | n in due && n !in fired && !CancelledBefore(script, |fired|, n) :: due[n]
  }

  /** The sleepers still due after `n` was popped. */
  ghost function Without(due: map<TimerNode, int>, n: TimerNode, outcome: Outcome): map<TimerNode, int> {
    map m | m in due && m != n && !CancelledBy(outcome, m) :: due[m]
  }

  lemma CancelledMore(script: seq<Outcome>, k: nat, n: TimerNode)
    ensures CancelledBefore(script, k + 1, n) <==> CancelledBefore(script, k, n) || CancelledBy(OutcomeAt(script, k), n)
  {
    if CancelledBy(OutcomeAt(script, k), n) {
      assert k < k + 1;
    }
  }

  lemma RemainingMore(script: seq<Outcome>, due: map<TimerNode, int>, fired: seq<TimerNode>, n: TimerNode)
    ensures Remaining(script, due, fired + [n])
         == Without(Remaining(script, due, fired), n, OutcomeAt(script, |fired|))
  {
    forall m ensures CancelledBefore(script, |fired + [n]|, m)
                <==> CancelledBefore(script, |fired|, m) || CancelledBy(OutcomeAt(script, |fired|), m) {
      CancelledMore(script, |fired|, m);
    }
  }

  lemma WithoutLess(due: map<TimerNode, int>, n: TimerNode, outcome: Outcome)
    requires n in due
    ensures |Without(due, n, outcome)| < |due|
  {
    SubsetCard(Without(due, n, outcome).Keys, due.Keys - {n});
    assert |Without(due, n, outcome)| == |Without(due, n, outcome).Keys| && |due| == |due.Keys|;
  }

  lemma NobodyLeft(script: seq<Outcome>, due: map<TimerNode, int>, fired: seq<TimerNode>)
    requires Remaining(script, due, fired) == map[]
    ensures forall n :: n in due ==> n in fired || CancelledBefore(script, |fired|, n)
  {
    forall n | n in due ensures n in fired || CancelledBefore(script, |fired|, n) {
      assert n !in Remaining(script, due, fired);
    }
  }

  /** One more pop, of a sleeper that no other one due precedes. */
  lemma LogMore(script: seq<Outcome>, due: map<TimerNode, int>, fired: seq<TimerNode>, times: seq<int>,
                rest: map<TimerNode, int>, n: TimerNode)
    requires LogOk(script, due, fired, times, rest) && n in rest
    requires forall m :: m in rest ==> rest[n] <= rest[m]
    ensures LogOk(script, due, fired + [n], times + [rest[n]], Without(rest, n, OutcomeAt(script, |fired|)))
  {
    RemainingMore(script, due, fired, n);
  }

  class ThreadTimers {
    const timers: TimerHeap
    var gen: nat
    var inflight: int
    var armedDeadline: int
    var armPending: bool
    var free: nat                        // free submission slots
    ghost var kernel: map<nat, Request>  // requests in flight

    constructor (ghost all: set<TimerNode>, slots: nat)
      requires forall n :: n in all ==> !n.inHeap
      ensures Valid() && fresh(timers) && timers.nodes == all && timers.heap == [] && Armed() == Init(slots)
    {
      var t := new TimerHeap(all);
      timers := t;
      gen, inflight, armedDeadline, armPending, free := 0, 0, 0, false, slots;
      kernel := map[];
    }

    ghost function Armed(): Arm
      reads this
    {
      Arm(gen, inflight, armedDeadline, armPending, free, kernel)
    }

    function HeapTop(): Top
      reads timers, timers.heap
    {
      if timers.heap == [] then NoSleeper else At(timers.heap[0].deadline)
    }

    ghost predicate Valid()
      reads this, timers, timers.heap, timers.nodes
    {
      timers.Valid() && ArmOk(Armed()) && Covered(Armed(), HeapTop())
    }

    /** io_uring_get_sqe: fails when the submission queue is full. */
    method GetSqe() returns (ok: bool)
      modifies `free
      ensures ok == (old(free) > 0) && free == if ok then old(free) - 1 else 0
    {
      ok := free > 0;
      if ok {
        free := free - 1;
      }
    }

    /** Nobody sleeps: cancels the request in flight, so that the thread can leave. */
    method Disarm()
      modifies `armPending, `free, `kernel
      ensures Armed() == Refreshed(old(Armed()), NoSleeper)
    {
      if inflight > 0 {
        var ok := GetSqe();
        if !ok {
          armPending := true;
          return;
        }
        kernel := CancelNewest(Armed()).kernel;
      }
      armPending := false;
    }

    /** Cancels the request in flight and aims a new one at `top`. */
    method Rearm(top: int)
      requires !(inflight > 0 && top >= armedDeadline && !armPending)
      modifies `gen, `inflight, `armedDeadline, `armPending, `free, `kernel
      ensures Armed() == Refreshed(old(Armed()), At(top))
    {
      if inflight > 0 {
        var ok := GetSqe();
        if ok {
          kernel := CancelNewest(Armed()).kernel;
        }
      }
      var ok := GetSqe();
      if !ok {
        armPending := true;
        return;
      }
      gen := gen + 1;
      kernel := kernel[gen := Request(top, false)];
      armedDeadline := top;
      inflight := inflight + 1;
      armPending := false;
    }

    method Refresh()
      requires ArmOk(Armed())
      modifies `gen, `inflight, `armedDeadline, `armPending, `free, `kernel
      ensures Armed() == Refreshed(old(Armed()), HeapTop())
      ensures ArmOk(Armed()) && Covered(Armed(), HeapTop())
    {
      RefreshCovers(Armed(), HeapTop());
      if timers.heap == [] {
        Disarm();
        return;
      }
      var top := timers.heap[0].deadline;
      if inflight > 0 && top >= armedDeadline && !armPending {
        return;
      }
      Rearm(top);
    }

    /** The data structures are sound; only the timeout may have to be re-aimed. */
    ghost predicate Sound()
      reads this, timers, timers.heap, timers.nodes
    {
      timers.Valid() && ArmOk(Armed())
    }

    /** Refuses a node that is already on the heap; that is the fatal branch. */
    method TimerPush(node: TimerNode) returns (ok: bool)
      requires Sound() && node in timers.nodes
      modifies this, timers`heap, timers.nodes`idx, node`inHeap
      ensures ok == !old(node.inHeap) && Sound()
      ensures ok || old(Valid()) ==> Valid()
      ensures timers.Contents() == old(timers.Contents()) + {node}
    {
      ok := timers.Push(node);
      if ok {
        Refresh();
      }
    }

    method TimerRemove(node: TimerNode)
      requires Sound() && node in timers.nodes
      modifies this, timers`heap, timers.nodes`idx, node`inHeap
      ensures Sound() && timers.Contents() == old(timers.Contents()) - {node}
      ensures old(node.inHeap) || old(Valid()) ==> Valid()
    {
      if node.inHeap {
        timers.Remove(node);
        Refresh();
      }
    }

    /** A sleep that claims its slot writes the deadline, then pushes the node. */
    method StartSleep(node: TimerNode, deadline: int)
      requires Sound() && node in timers.nodes && !node.inHeap
      modifies this, timers`heap, timers.nodes`idx, node`inHeap, node`deadline
      ensures Valid() && timers.Contents() == old(timers.Contents()) + {node} && node.deadline == deadline
    {
      ghost var ks := timers.Keys();
      node.deadline := deadline;
      assert node !in timers.Contents();
      assert timers.Keys() == ks;
      var ok := TimerPush(node);
    }

    /** One sleep or cancellation; a node that is on the heap is not put to sleep again. */
    method RunOp(op: Op)
      requires Sound() && op.node in timers.nodes
      modifies this, timers`heap, timers.nodes`idx, op.node`inHeap, op.node`deadline
      ensures Sound()
      ensures timers.Contents()
           == if op.Sleep? then old(timers.Contents()) + {op.node} else old(timers.Contents()) - {op.node}
      ensures op.node in old(timers.Contents()) ==> op.node.deadline == old(op.node.deadline)
      ensures op.Sleep? && op.node !in old(timers.Contents()) ==> op.node.deadline == op.deadline
    {
      match op {
        case Sleep(node, deadline) =>
          if !node.inHeap {
            StartSleep(node, deadline);
          }
        case Cancel(node) =>
          TimerRemove(node);
      }
    }

    /** What a resumed coroutine does: new sleeps lie after `now`, everything else
        on the heap was there before, and exactly those cancelled have left. */
    method RunOps(ops: seq<Op>, ghost now: int)
      requires Sound() && Uses(ops, timers.nodes) && Later(ops, now)
      modifies this, timers`heap, timers.nodes`idx, timers.nodes`inHeap, timers.nodes`deadline
      ensures Sound()
      ensures forall n :: n in timers.Contents() ==>
                n.deadline > now || (n in old(timers.Contents()) && n.deadline == old(n.deadline) && !Cancels(ops, n))
      ensures forall n :: n in old(timers.Contents()) && !Cancels(ops, n) ==>
                n in timers.Contents() && n.deadline == old(n.deadline)
    {
      for i := 0 to |ops|
        invariant Sound()
        invariant forall n :: n in timers.Contents() ==>
                    || n.deadline > now
                    || (n in old(timers.Contents()) && n.deadline == old(n.deadline) && !Cancels(ops[..i], n))
        invariant forall n :: n in old(timers.Contents()) && !Cancels(ops[..i], n) ==>
                    n in timers.Contents() && n.deadline == old(n.deadline)
      {
        assert ops[i] in ops;
        assert ops[..i + 1] == ops[..i] + [ops[i]];
        RunOp(ops[i]);
      }
      assert ops[..|ops|] == ops;
    }

    /** The sleepers that are due, and when each of them is. */
    ghost function Due(now: int): map<TimerNode, int>
      reads timers, timers.Contents()
    {
      map n | n in timers.Contents() && n.deadline <= now :: n.deadline
    }

    ghost predicate Allowed(o: Outcome, now: int) {
      o.Won? ==> Uses(o.ops, timers.nodes) && Later(o.ops, now)
    }

    /** Resumes a sleeper whose arbitration was won. */
    method Resume(now: int, outcome: Outcome)
      requires Sound() && Allowed(outcome, now)
      modifies this, timers`heap, timers.nodes`idx, timers.nodes`inHeap, timers.nodes`deadline
      ensures Sound()
      ensures Due(now) == map m | m in old(Due(now)) && !CancelledBy(outcome, m) :: old(Due(now))[m]
    {
      if outcome.Won? {
        RunOps(outcome.ops, now);
      }
    }

    /** One round of the expiry loop: pops the earliest sleeper, and runs it if the
        arbitration is won; of the others due, exactly those that it cancels leave. */
    method FireOne(now: int, outcome: Outcome) returns (n: TimerNode, deadline: int)
      requires Sound() && timers.heap != [] && timers.heap[0].deadline <= now && Allowed(outcome, now)
      modifies this, timers`heap, timers.nodes`idx, timers.nodes`inHeap, timers.nodes`deadline
      ensures Sound() && n in old(Due(now)) && deadline == old(Due(now))[n]
      ensures forall m :: m in old(timers.Contents()) ==> deadline <= old(m.deadline)
      ensures Due(now) == Without(old(Due(now)), n, outcome)
    {
      assert timers.heap[0] in timers.Contents();
      n := timers.PopMin();
      deadline := n.deadline;
      Resume(now, outcome);
    }

    /** The expiry loop.  `script` says what happens at each pop. */
    method Expire(now: int, script: seq<Outcome>) returns (fired: seq<TimerNode>, times: seq<int>)
      requires Sound() && forall o :: o in script ==> Allowed(o, now)
      modifies this, timers`heap, timers.nodes`idx, timers.nodes`inHeap, timers.nodes`deadline
      ensures Sound() && (timers.heap == [] || timers.heap[0].deadline > now)
      ensures LogOk(script, old(Due(now)), fired, times, Due(now))
    {
      fired, times := [], [];
      while timers.heap != [] && timers.heap[0].deadline <= now
        invariant Sound()
        invariant LogOk(script, old(Due(now)), fired, times, Due(now))
        decreases |Due(now)|
      {
        ghost var rest := Due(now);
        var n, t := FireOne(now, OutcomeAt(script, |fired|));
        LogMore(script, old(Due(now)), fired, times, rest, n);
        WithoutLess(rest, n, OutcomeAt(script, |fired|));
        fired, times := fired + [n], times + [t];
      }
    }

    /** Pops every sleeper that is due and resumes those whose arbitration it wins.
        It ends although resumed sleepers may sleep again or cancel others.  It pops
        only sleepers that were due, each once, in the order of their deadlines, and
        not after a cancellation; it leaves nobody who is due, and forgets nobody:
        whoever was due was popped, or cancelled by a sleeper popped. */
    method OnFire(now: int, script: seq<Outcome>) returns (fired: seq<TimerNode>, times: seq<int>)
      requires Sound() && forall o :: o in script ==> Allowed(o, now)
      modifies this, timers`heap, timers.nodes`idx, timers.nodes`inHeap, timers.nodes`deadline
      ensures Valid() && Due(now) == map[]
      ensures LogOk(script, old(Due(now)), fired, times, map[]) && forall t :: t in times ==> t <= now
      ensures forall n :: n in old(Due(now)) ==> n in fired || CancelledBefore(script, |fired|, n)
    {
      fired, times := Expire(now, script);
      NobodyDue(now);
      Refresh();
      NobodyLeft(script, old(Due(now)), fired);
      assert forall i :: 0 <= i < |times| ==> times[i] == old(Due(now))[fired[i]];
    }

    lemma NobodyDue(now: int)
      requires timers.Valid() && (timers.heap == [] || timers.heap[0].deadline > now)
      ensures Due(now) == map[]
    {
      forall n | n in timers.Contents() ensures n.deadline > now {
        timers.LeastAtTop(n);
      }
    }

    /** The completion of request `g`, cancelled or due. */
    method Complete(ghost g: nat, now: int, script: seq<Outcome>) returns (fired: seq<TimerNode>, times: seq<int>)
      requires Valid() && g in kernel && forall o :: o in script ==> Allowed(o, now)
      modifies this, timers`heap, timers.nodes`idx, timers.nodes`inHeap, timers.nodes`deadline
      ensures Valid() && Due(now) == map[]
      ensures LogOk(script, old(Due(now)), fired, times, map[]) && forall t :: t in times ==> t <= now
      ensures forall n :: n in old(Due(now)) ==> n in fired || CancelledBefore(script, |fired|, n)
    {
      CompletionKeeps(Armed(), g);
      inflight := inflight - 1;
      kernel := kernel - {g};
      fired, times := OnFire(now, script);
    }
  }
}
