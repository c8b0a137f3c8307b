/** The one kernel timeout that each thread aims at the top of its timer heap. */
module TimerArm {
  // The kernel is a ghost map of the timeout requests in flight.  A request that has
  // been cancelled completes soon, one that has not completes at its deadline, and
  // completions are seen in any order.  A request needs a submission slot; slots
  // become free only when the queue is submitted.
  import opened Interleavings

  datatype Top = NoSleeper | At(deadline: int)

  datatype Request = Request(deadline: int, cancelled: bool)

  datatype Arm = Arm(
    gen: nat,                    // number of the newest request; 0 before the first
    inflight: int,               // requests in flight, as the thread counts them
    armedDeadline: int,          // deadline of the newest request
    pending: bool,               // arming was put off for want of a slot
    free: nat,                   // free submission slots
    kernel: map<nat, Request>)   // requests really in flight

  function Init(slots: nat): Arm {
    Arm(0, 0, 0, false, slots, map[])
  }

  // -------------------------------------------------------- what refresh does

  /** Asks the kernel to cancel the newest request; harmless if it is gone. */
  function CancelNewest(a: Arm): Arm {
    a.(kernel := if a.gen in a.kernel then a.kernel[a.gen := a.kernel[a.gen].(cancelled := true)] else a.kernel)
  }

  function Submit(a: Arm, deadline: int): Arm {
    a.(gen := a.gen + 1, inflight := a.inflight + 1, armedDeadline := deadline, pending := false,
       kernel := a.kernel[a.gen + 1 := Request(deadline, false)])
  }

  function Refreshed(a: Arm, top: Top): Arm {
    match top
    case NoSleeper =>
      if a.inflight <= 0 then a.(pending := false)
      else if a.free == 0 then a.(pending := true)
      else CancelNewest(a).(free := a.free - 1, pending := false)
    case At(deadline) =>
      if a.inflight > 0 && deadline >= a.armedDeadline && !a.pending then a
      else
        var b := if a.inflight > 0 && a.free > 0 then CancelNewest(a).(free := a.free - 1) else a;
        if b.free == 0 then b.(pending := true)
        else Submit(b.(free := b.free - 1), deadline)
  }

  // ---------------------------------------------------------- the invariant

  /** The counter is exact, and every request but the newest is cancelled. */
  ghost predicate ArmOk(a: Arm) {
    && |a.kernel| == a.inflight
    && (forall g :: g in a.kernel ==> g <= a.gen && (g < a.gen ==> a.kernel[g].cancelled))
    && (a.gen in a.kernel ==> a.kernel[a.gen].deadline == a.armedDeadline)
  }

  /** Some request will complete no later than the top of the heap is due; and
      with nobody asleep nothing is left to wait for. */
  ghost predicate Covered(a: Arm, top: Top) {
    !a.pending ==>
      match top
      case At(deadline) => exists g :: g in a.kernel && (a.kernel[g].cancelled || a.kernel[g].deadline <= deadline)
      case NoSleeper => forall g :: g in a.kernel ==> a.kernel[g].cancelled
  }

  ghost predicate AllCancelled(a: Arm) {
    forall g :: g in a.kernel ==> a.kernel[g].cancelled
  }

  lemma CancelKeeps(a: Arm)
    requires ArmOk(a)
    ensures ArmOk(CancelNewest(a)) && AllCancelled(CancelNewest(a))
  {
    assert CancelNewest(a).kernel.Keys == a.kernel.Keys;
    assert |a.kernel.Keys| == |a.kernel|;
    assert |CancelNewest(a).kernel.Keys| == |CancelNewest(a).kernel|;
  }

  lemma SubmitKeeps(a: Arm, deadline: int)
    requires ArmOk(a) && AllCancelled(a)
    ensures ArmOk(Submit(a, deadline)) && Covered(Submit(a, deadline), At(deadline))
  {
    var b := Submit(a, deadline);
    assert b.gen in b.kernel && b.gen !in a.kernel;
  }

  /** The early return of refresh: the newest request is early enough, or an older
      one, cancelled, is about to complete. */
  lemma EarlyEnough(a: Arm, deadline: int)
    requires ArmOk(a) && a.inflight > 0 && deadline >= a.armedDeadline
    ensures Covered(a, At(deadline))
  {
    assert a.kernel != map[];
    var g :| g in a.kernel;
    assert a.kernel[g].cancelled || a.kernel[g].deadline <= deadline;
  }

  lemma RefreshCovers(a: Arm, top: Top)
    requires ArmOk(a)
    ensures ArmOk(Refreshed(a, top)) && Covered(Refreshed(a, top), top)
  {
    CancelKeeps(a);
    if top.At? {
      if a.inflight > 0 && top.deadline >= a.armedDeadline && !a.pending {
        EarlyEnough(a, top.deadline);
      } else if a.inflight > 0 && a.free > 1 {
        SubmitKeeps(CancelNewest(a).(free := a.free - 2), top.deadline);
      } else if a.inflight <= 0 && a.free > 0 {
        assert a.kernel == map[];
        SubmitKeeps(a.(free := a.free - 1), top.deadline);
      }
    } else if a.inflight <= 0 {
      assert a.kernel == map[];
    }
  }

  /** A refresh right after a refresh does nothing, except when nobody sleeps and a
      request is in flight: then every refresh with a free slot queues one more cancel. */
  lemma IdempotentIff(a: Arm, top: Top)
    requires ArmOk(a)
    ensures Refreshed(Refreshed(a, top), top) == Refreshed(a, top) <==> top.At? || a.inflight <= 0 || a.free == 0
  {
  }

  // ------------------------------------------------------------ every run

  datatype State = State(arm: Arm, top: Top)

  datatype Event =
    | Changed(top: Top)              // a push or a removal; ends in a refresh
    | Completed(g: nat, top: Top)    // request g completes, sleepers are resumed; ends in a refresh
    | Submitted(slots: nat)          // the submission queue is handed to the kernel
    | SlotTaken                      // some other request takes a slot
    | Retried                        // the scheduler retries an arming that was put off

  function Step(s: State, e: Event): State {
    match e
    case Changed(top) => State(Refreshed(s.arm, top), top)
    case Completed(g, top) =>
      if g !in s.arm.kernel then s
      else State(Refreshed(s.arm.(kernel := s.arm.kernel - {g}, inflight := s.arm.inflight - 1), top), top)
    case Submitted(slots) => s.(arm := s.arm.(free := if slots > s.arm.free then slots else s.arm.free))
    case SlotTaken => if s.arm.free > 0 then s.(arm := s.arm.(free := s.arm.free - 1)) else s
    case Retried => if s.arm.pending then s.(arm := Refreshed(s.arm, s.top)) else s
  }

  ghost predicate Inv(s: State) { ArmOk(s.arm) && Covered(s.arm, s.top) }

  lemma CompletionKeeps(a: Arm, g: nat)
    requires ArmOk(a) && g in a.kernel
    ensures ArmOk(a.(kernel := a.kernel - {g}, inflight := a.inflight - 1))
  {
    assert (a.kernel - {g}).Keys == a.kernel.Keys - {g};
    assert |a.kernel.Keys| == |a.kernel|;
    assert |(a.kernel - {g}).Keys| == |a.kernel - {g}|;
  }

  lemma StepKeepsInv(s: State, e: Event)
    requires Inv(s)
    ensures Inv(Step(s, e))
  {
    match e
    case Changed(top) => RefreshCovers(s.arm, top);
    case Completed(g, top) =>
      if g in s.arm.kernel {
        CompletionKeeps(s.arm, g);
        RefreshCovers(s.arm.(kernel := s.arm.kernel - {g}, inflight := s.arm.inflight - 1), top);
      }
    case Retried => RefreshCovers(s.arm, s.top);
    case _ =>
  }

  /** No sleeper is ever left without a timer: for every order of completions and
      every pattern of full submission queues, unless a retry is pending, some
      request in flight is cancelled or aimed no later than the top of the heap;
      all requests but the newest are cancelled; and the counter is exact. */
  lemma NeverWithoutTimer(slots: nat, events: seq<Event>)
    ensures var s := Run(Step, State(Init(slots), NoSleeper), events);
            && Covered(s.arm, s.top)
            && s.arm.inflight == |s.arm.kernel|
            && (forall g :: g in s.arm.kernel && g != s.arm.gen ==> s.arm.kernel[g].cancelled)
  {
    forall s, e | Inv(s) ensures Inv(Step(s, e)) {
      StepKeepsInv(s, e);
    }
    RunKeeps(Step, Inv, State(Init(slots), NoSleeper), events);
  }

  /** What may happen to the requests in flight: one more, aimed at `top`; the aims of the
      others stand. */
  ghost predicate AimsOk(a: Arm, b: Arm, top: Top) {
    && (b.gen != a.gen ==>
          b.gen == a.gen + 1 && top.At? && b.gen in b.kernel && b.kernel[b.gen] == Request(top.deadline, false))
    && (forall g :: g in b.kernel && (g != b.gen || b.gen == a.gen) ==>
          g in a.kernel && b.kernel[g].deadline == a.kernel[g].deadline)
    && (forall g :: g in a.kernel ==> g in b.kernel)
  }

  lemma RefreshAims(a: Arm, top: Top)
    ensures AimsOk(a, Refreshed(a, top), top)
  {
  }

  /** In every run a request is aimed exactly at the heap top of the moment it is submitted,
      no earlier and no later, and none is submitted while nobody sleeps; requests
      never change their aim, and leave only by completing. */
  lemma AimedExactly(slots: nat, events: seq<Event>, e: Event)
    ensures var s := Run(Step, State(Init(slots), NoSleeper), events);
            var t := Step(s, e);
            AimsOk(if e.Completed? then s.arm.(kernel := s.arm.kernel - {e.g}) else s.arm, t.arm, t.top)
  {
    var s := Run(Step, State(Init(slots), NoSleeper), events);
    match e
    case Changed(top) => RefreshAims(s.arm, top);
    case Completed(g, top) => RefreshAims(s.arm.(kernel := s.arm.kernel - {g}, inflight := s.arm.inflight - 1), top);
    case Retried => RefreshAims(s.arm, s.top);
    case _ =>
  }

  /** In every run, with a request in flight and no retry pending, a new heap top costs a
      submission if and only if it is due before the request aimed last. */
  lemma SparesSlots(slots: nat, events: seq<Event>, deadline: int)
    ensures var s := Run(Step, State(Init(slots), NoSleeper), events);
            var t := Step(s, Changed(At(deadline)));
            s.arm.inflight > 0 && !s.arm.pending ==> (t.arm == s.arm <==> s.arm.armedDeadline <= deadline)
  {
  }

  /** Some request in flight, cancelled or not, completes no later than the top is due. */
  ghost predicate Aimed(a: Arm, top: Top) {
    top.At? ==> exists g :: g in a.kernel && (a.kernel[g].cancelled || a.kernel[g].deadline <= top.deadline)
  }

  /** A retry does not stay pending: in every run, after a submission that frees two slots
      and the scheduler's retry, nothing is pending and the heap top has its timer. */
  lemma RetryEnds(slots: nat, events: seq<Event>, freed: nat)
    requires freed >= 2
    ensures var s := Run(Step, State(Init(slots), NoSleeper), events + [Submitted(freed), Retried]);
            !s.arm.pending && Aimed(s.arm, s.top)
  {
    var s0 := State(Init(slots), NoSleeper);
    var s := Run(Step, s0, events);
    NeverWithoutTimer(slots, events + [Submitted(freed), Retried]);
    RunMore(Step, s0, events, [Submitted(freed), Retried]);
    RunTwo(Step, s, Submitted(freed), Retried);
  }
}
