/** `usema`: an atomic permit count, an atomic waiter count and a waiter list. */
module Semaphore {
  // The list is under a spin lock.  `signal` reads the waiter count without the lock,
  // so the two counters form a store-then-load handshake with `wait`.
  //
  // Each `Step` performs at most one atomic operation of one coroutine; what a
  // coroutine does to lock-protected data is merged with the atomic operation that
  // ends it.
  import opened Collections
  import opened Interleavings
  import Counter = PermitCounter

  const MAX_SPIN := 32

  datatype Local =
    | Idle
    // wait: `again` says the coroutine was parked and woken since it called wait
    | Spin(lifo: bool, again: bool, i: nat)                // about to load the count
    | SpinCas(lifo: bool, again: bool, i: nat, cur: nat)   // about to take a permit
    | Enter(lifo: bool, again: bool)                       // about to take the spin lock
    | Entered(lifo: bool, again: bool)                     // locked: about to announce itself in nwait
    | Recheck(lifo: bool, again: bool)                     // locked: about to load the count
    | RecheckCas(lifo: bool, again: bool, cur: nat)        // locked: about to take a permit
    | Retract                                              // locked: took a permit, about to leave nwait
    | Append(lifo: bool)                                   // locked: about to queue and unlock
    | Leave(permit: bool)                                  // locked: about to unlock and return
    | Parked(lifo: bool)                                   // suspended, on the list
    | Popped(lifo: bool, waker: nat)                          // suspended, off the list, being resumed
    // try_wait
    | Try
    | TryCas(cur: nat)
    // signal
    | Peek                                                 // count raised, about to read nwait
    | Summon                                               // about to take the spin lock
    | Look                                                 // locked: about to look for a waiter
    | Dequeue(t: nat)                                      // locked: popped t, about to lower nwait
    | Release(ts: seq<nat>)                                // locked: about to unlock, then resume ts
    | Deliver(ts: seq<nat>)                                // resuming ts one by one
    // kill_broadcast
    | Condemn                                              // about to take the spin lock
    | Zero                                                 // locked: about to reset nwait
    | TakeAll                                              // locked: about to empty the list and unlock

  datatype Owner = Free | HeldBy(c: nat)

  datatype State = State(
    initial: nat,      // the count the semaphore was made with
    count: nat,
    nwait: int,
    list: seq<nat>,
    lock: Owner,
    killed: bool,
    terminated: bool,  // a second kill ends the process
    signalled: nat,    // signals so far
    served: nat,       // waits and try_waits that returned with a permit
    dismissed: nat,    // waits that returned without one
    co: seq<Local>)

  datatype Act = Wait(lifo: bool) | TryWait | Signal | Kill | Continue

  datatype Move = Move(c: nat, act: Act)

  function Init(initial: nat, n: nat): State {
    State(initial, initial, 0, [], Free, false, false, 0, 0, 0, seq(n, _ => Idle))
  }

  // --------------------------------------------------------------- the steps

  function At(s: State, c: nat, l: Local): State
    requires c < |s.co|
  {
    s.(co := s.co[c := l])
  }

  /** try_wait saw no permit for the i-th time. */
  function Missed(lifo: bool, again: bool, i: nat): Local {
    if i + 1 < MAX_SPIN then Spin(lifo, again, i + 1) else Enter(lifo, again)
  }

  function Pushed(list: seq<nat>, c: nat, lifo: bool): seq<nat> {
    if lifo then [c] + list else list + [c]
  }

  /** The local states after everybody on the list was popped by `c`. */
  function PopAll(s: State, c: nat): seq<Local> {
    seq(|s.co|, i requires 0 <= i < |s.co| =>
      if i in s.list && s.co[i].Parked? then Popped(s.co[i].lifo, c) else s.co[i])
  }

  function StepWait(s: State, c: nat): State
    requires c < |s.co|
  {
    match s.co[c]
    case Spin(lifo, again, i) =>
      At(s, c, if s.count == 0 then Missed(lifo, again, i) else SpinCas(lifo, again, i, s.count))
    case SpinCas(lifo, again, i, cur) =>
      if s.count == cur && cur > 0 then At(s, c, Idle).(count := cur - 1, served := s.served + 1)
      else At(s, c, Spin(lifo, again, i))
    case Enter(lifo, again) =>
      if s.lock != Free then s
      else At(s, c, if s.killed then Leave(false) else Entered(lifo, again)).(lock := HeldBy(c))
    case Entered(lifo, again) =>
      At(s, c, Recheck(lifo, again)).(nwait := s.nwait + 1)
    case Recheck(lifo, again) =>
      At(s, c, if s.count == 0 then Append(lifo) else RecheckCas(lifo, again, s.count))
    case RecheckCas(lifo, again, cur) =>
      if s.count == cur && cur > 0 then At(s, c, Retract).(count := cur - 1)
      else At(s, c, Recheck(lifo, again))
    case Retract =>
      At(s, c, Leave(true)).(nwait := s.nwait - 1)
    case Append(lifo) =>
      At(s, c, Parked(lifo)).(list := Pushed(s.list, c, lifo), lock := Free)
    case Leave(permit) =>
      var t := At(s, c, Idle).(lock := Free);
      if permit then t.(served := s.served + 1) else t.(dismissed := s.dismissed + 1)
    case Try =>
      At(s, c, if s.count == 0 then Idle else TryCas(s.count))
    case TryCas(cur) =>
      if s.count == cur && cur > 0 then At(s, c, Idle).(count := cur - 1, served := s.served + 1)
      else At(s, c, Try)
    case _ => s
  }

  function StepSignal(s: State, c: nat): State
    requires c < |s.co|
  {
    match s.co[c]
    case Peek =>
      At(s, c, if s.nwait == 0 then Idle else Summon)
    case Summon =>
      if s.lock != Free then s else At(s, c, Look).(lock := HeldBy(c))
    case Look =>
      if s.nwait == 0 || s.list == [] then At(s, c, Release([]))
      else
        var t := s.list[0];
        if t < |s.co| && s.co[t].Parked? && t != c then
          s.(list := s.list[1..], co := s.co[t := Popped(s.co[t].lifo, c)][c := Dequeue(t)])
        else s
    case Dequeue(t) =>
      At(s, c, Release([t])).(nwait := s.nwait - 1)
    case Release(ts) =>
      At(s, c, Deliver(ts)).(lock := Free)
    case Deliver(ts) =>
      if ts == [] then At(s, c, Idle)
      else if ts[0] < |s.co| && s.co[ts[0]].Popped? && ts[0] != c then
        s.(co := s.co[ts[0] := Spin(s.co[ts[0]].lifo, true, 0)][c := Deliver(ts[1..])])
      else s
    case Condemn =>
      if s.lock != Free then s
      else if s.killed then s.(terminated := true)
      else At(s, c, Zero).(lock := HeldBy(c), killed := true)
    case Zero =>
      At(s, c, TakeAll).(nwait := 0)
    case TakeAll =>
      s.(co := PopAll(s, c)[c := Deliver(s.list)], list := [], lock := Free)
    case _ => s
  }

  function Step(s: State, m: Move): State {
    if m.c >= |s.co| || s.terminated then s else
    match m.act
    case Wait(lifo) => if s.co[m.c].Idle? then At(s, m.c, Spin(lifo, false, 0)) else s
    case TryWait => if s.co[m.c].Idle? then At(s, m.c, Try) else s
    case Signal =>
      if s.co[m.c].Idle? then At(s, m.c, Peek).(count := s.count + 1, signalled := s.signalled + 1) else s
    case Kill => if s.co[m.c].Idle? then At(s, m.c, Condemn) else s
    case Continue => if IsWait(s.co[m.c]) then StepWait(s, m.c) else StepSignal(s, m.c)
  }

  predicate IsWait(l: Local) {
    l.Spin? || l.SpinCas? || l.Enter? || l.Entered? || l.Recheck? || l.RecheckCas? || l.Retract? || l.Append?
    || l.Leave? || l.Try? || l.TryCas?
  }

  // ---------------------------------------------------------- the invariant

  predicate InLock(l: Local) {
    l.Entered? || l.Recheck? || l.RecheckCas? || l.Retract? || l.Append? || l.Leave?
    || l.Look? || l.Dequeue? || l.Release? || l.Zero? || l.TakeAll?
  }

  /** Coroutines that a `Local` is about to resume. */
  function Targets(l: Local): seq<nat> {
    match l
    case Dequeue(t) => [t]
    case Release(ts) => ts
    case Deliver(ts) => ts
    case _ => []
  }

  /** A woken waiter that has not yet decided whether to park again. */
  predicate IsRetrying(l: Local) {
    || l.Popped?
    || ((l.Spin? || l.SpinCas? || l.Enter? || l.Entered? || l.Recheck? || l.RecheckCas?) && l.again)
  }

  /** A signal past its increment and before its pop. */
  predicate IsSignalling(l: Local) { l.Peek? || l.Summon? || l.Look? }

  /** A waiter that took a permit and has not returned yet. */
  predicate IsCarrying(l: Local) { l.Retract? || (l.Leave? && l.permit) }

  ghost predicate LockOk(s: State) {
    forall i :: 0 <= i < |s.co| ==> (InLock(s.co[i]) <==> s.lock == HeldBy(i))
  }

  ghost predicate ListOk(s: State) {
    && Distinct(s.list)
    && (forall t :: t in s.list ==> t < |s.co| && s.co[t].Parked?)
    && (forall i :: 0 <= i < |s.co| && s.co[i].Parked? ==> i in s.list)
  }

  /** Everybody `c` is about to resume is waiting for exactly that. */
  ghost predicate TargetsOk(co: seq<Local>, c: nat)
    requires c < |co|
  {
    && Distinct(Targets(co[c]))
    && forall u :: u in Targets(co[c]) ==> u < |co| && co[u].Popped? && co[u].waker == c
  }

  /** Everybody off the list and not yet running is on somebody's agenda. */
  predicate PoppedOk(co: seq<Local>, u: nat)
    requires u < |co|
  {
    co[u].Popped? ==> co[u].waker < |co| && u in Targets(co[co[u].waker])
  }

  ghost predicate DeliverOk(s: State) {
    && (forall c :: 0 <= c < |s.co| ==> TargetsOk(s.co, c))
    && (forall u :: 0 <= u < |s.co| ==> PoppedOk(s.co, u))
  }

  /** How far nwait runs ahead of the list while `l` holds the lock. */
  function Ahead(l: Local): nat {
    if l.Recheck? || l.RecheckCas? || l.Retract? || l.Append? || l.Dequeue? then 1 else 0
  }

  ghost predicate NwaitOk(s: State) {
    match s.lock
    case Free => s.nwait == |s.list|
    case HeldBy(c) => c < |s.co| && (if s.co[c].TakeAll? then s.nwait == 0 else s.nwait == |s.list| + Ahead(s.co[c]))
  }

  ghost predicate KillOk(s: State) {
    && (s.killed ==>
          s.list == [] || (s.lock.HeldBy? && s.lock.c < |s.co| && (s.co[s.lock.c].Zero? || s.co[s.lock.c].TakeAll?)))
    && (s.lock.HeldBy? && s.lock.c < |s.co| ==>
          var l := s.co[s.lock.c];
          && (l.Entered? || l.Recheck? || l.RecheckCas? || l.Append? ==> !s.killed)
          && (l.Zero? || l.TakeAll? || l == Leave(false) ==> s.killed))
    && (s.dismissed > 0 ==> s.killed)
  }

  ghost predicate Queueing(s: State) {
    s.list != [] || (s.lock.HeldBy? && s.lock.c < |s.co| && s.co[s.lock.c].Append?)
  }

  ghost function Retrying(s: State): nat { Count(s.co, IsRetrying) }
  ghost function Signalling(s: State): nat { Count(s.co, IsSignalling) }
  ghost function Carried(s: State): nat { Count(s.co, IsCarrying) }

  ghost predicate WakeOk(s: State) {
    !s.killed && Queueing(s) ==> s.count <= Retrying(s) + Signalling(s)
  }

  ghost predicate LedgerOk(s: State) {
    s.count + s.served + Carried(s) == s.initial + s.signalled
  }

  ghost predicate Inv(s: State) {
    LockOk(s) && ListOk(s) && DeliverOk(s) && NwaitOk(s) && KillOk(s) && WakeOk(s) && LedgerOk(s)
  }

  lemma InitInv(initial: nat, n: nat)
    ensures Inv(Init(initial, n))
  {
    CountNone(Init(initial, n).co, IsCarrying);
  }

  /** How the counts move when coroutine `c` goes to local state `l`. */
  lemma Moved(co: seq<Local>, c: nat, l: Local)
    requires c < |co|
    ensures Count(co[c := l], IsRetrying) == Count(co, IsRetrying) - One(IsRetrying(co[c])) + One(IsRetrying(l))
    ensures Count(co[c := l], IsSignalling) == Count(co, IsSignalling) - One(IsSignalling(co[c])) + One(IsSignalling(l))
    ensures Count(co[c := l], IsCarrying) == Count(co, IsCarrying) - One(IsCarrying(co[c])) + One(IsCarrying(l))
  {
    CountUpdate(co, c, l, IsRetrying);
    CountUpdate(co, c, l, IsSignalling);
    CountUpdate(co, c, l, IsCarrying);
  }

  // ------------------------------------------- what every step keeps, in turn

  /** The part of LockOk that speaks of one coroutine. */
  predicate Mine(s: State, c: nat)
    requires c < |s.co|
  {
    InLock(s.co[c]) <==> s.lock == HeldBy(c)
  }

  lemma WaitKeepsNwait(s: State, c: nat)
    requires c < |s.co| && Mine(s, c) && NwaitOk(s) && IsWait(s.co[c])
    ensures NwaitOk(StepWait(s, c))
  {
  }

  lemma SignalKeepsNwait(s: State, c: nat)
    requires c < |s.co| && Mine(s, c) && NwaitOk(s) && !IsWait(s.co[c])
    ensures NwaitOk(StepSignal(s, c))
  {
  }

  lemma WaitKeepsKill(s: State, c: nat)
    requires c < |s.co| && Mine(s, c) && KillOk(s) && IsWait(s.co[c])
    ensures KillOk(StepWait(s, c))
  {
  }

  lemma SignalKeepsKill(s: State, c: nat)
    requires c < |s.co| && Mine(s, c) && KillOk(s) && !IsWait(s.co[c])
    ensures KillOk(StepSignal(s, c))
  {
  }

  /** Outside the lock a wait only ever takes permits out of the count. */
  lemma CasKeepsWake(s: State, c: nat)
    requires c < |s.co| && KillOk(s) && WakeOk(s) && LedgerOk(s) && (s.co[c].SpinCas? || s.co[c].TryCas?)
    requires s.lock != HeldBy(c) && StepWait(s, c).co == s.co[c := StepWait(s, c).co[c]]
    ensures WakeOk(StepWait(s, c)) && LedgerOk(StepWait(s, c))
  {
    Moved(s.co, c, StepWait(s, c).co[c]);
  }

  lemma LoadKeepsWake(s: State, c: nat)
    requires c < |s.co| && KillOk(s) && WakeOk(s) && LedgerOk(s) && (s.co[c].Spin? || s.co[c].Enter? || s.co[c].Try?)
    requires s.lock != HeldBy(c) && StepWait(s, c).co == s.co[c := StepWait(s, c).co[c]]
    ensures WakeOk(StepWait(s, c)) && LedgerOk(StepWait(s, c))
  {
    Moved(s.co, c, StepWait(s, c).co[c]);
  }

  /** A waiter about to queue has seen the count at zero after announcing
      itself. */
  lemma QueueKeepsWake(s: State, c: nat)
    requires c < |s.co| && KillOk(s) && WakeOk(s) && LedgerOk(s) && IsWait(s.co[c]) && s.lock == HeldBy(c)
    requires InLock(s.co[c]) && StepWait(s, c).co == s.co[c := StepWait(s, c).co[c]]
    ensures WakeOk(StepWait(s, c)) && LedgerOk(StepWait(s, c))
  {
    Moved(s.co, c, StepWait(s, c).co[c]);
  }

  lemma QueueMovesOnlyItself(s: State, c: nat)
    requires c < |s.co| && InLock(s.co[c])
    ensures StepWait(s, c).co == s.co[c := StepWait(s, c).co[c]]
  {
  }

  lemma WaitMovesOnlyItself(s: State, c: nat)
    requires c < |s.co|
    ensures StepWait(s, c).co == s.co[c := StepWait(s, c).co[c]]
  {
    if InLock(s.co[c]) { QueueMovesOnlyItself(s, c); }
  }

  lemma WaitKeepsWake(s: State, c: nat)
    requires c < |s.co| && Mine(s, c) && KillOk(s) && WakeOk(s) && LedgerOk(s) && IsWait(s.co[c])
    ensures WakeOk(StepWait(s, c)) && LedgerOk(StepWait(s, c))
  {
    WaitMovesOnlyItself(s, c);
    if InLock(s.co[c]) {
      QueueKeepsWake(s, c);
    } else if s.co[c].SpinCas? || s.co[c].TryCas? {
      CasKeepsWake(s, c);
    } else {
      LoadKeepsWake(s, c);
    }
  }

  /** A signal that gives up has seen nwait at zero, so nobody is queued. */
  lemma SignalKeepsWake(s: State, c: nat)
    requires c < |s.co| && Mine(s, c) && NwaitOk(s) && KillOk(s) && WakeOk(s) && LedgerOk(s)
    requires !IsWait(s.co[c]) && StepSignal(s, c).co == s.co[c := StepSignal(s, c).co[c]]
    requires !s.co[c].TakeAll? && !StepSignal(s, c).co[c].Dequeue?
    ensures WakeOk(StepSignal(s, c)) && LedgerOk(StepSignal(s, c))
  {
    Moved(s.co, c, StepSignal(s, c).co[c]);
  }

  /** A signal that pops turns itself into a retrying waiter, and a resumption
      leaves the number of retrying waiters alone. */
  lemma HandoverKeepsWake(s: State, t: State, c: nat, d: nat, l: Local, p: Local)
    requires c < |s.co| && d < |s.co| && d != c && KillOk(s) && WakeOk(s) && LedgerOk(s)
    requires t.co == s.co[d := p][c := l] && (t.list != [] ==> s.list != [])
    requires || (s.co[c].Look? && l.Dequeue? && s.co[d].Parked? && p.Popped?
                 && s.list != [] && s.lock == t.lock == HeldBy(c))
             || (s.co[c].Deliver? && l.Deliver? && s.co[d].Popped? && p.Spin? && p.again
                 && s.lock == t.lock && t.list == s.list)
    requires t.count == s.count && t.served == s.served && t.initial == s.initial && t.signalled == s.signalled
    requires t.killed == s.killed
    ensures WakeOk(t) && LedgerOk(t)
  {
    Moved(s.co, d, p);
    Moved(s.co[d := p], c, l);
  }

  /** The broadcast carries no permit and leaves nobody queued. */
  lemma TakeAllKeepsWake(s: State, c: nat)
    requires c < |s.co| && LedgerOk(s) && s.co[c].TakeAll? && KillOk(s) && Mine(s, c)
    ensures WakeOk(StepSignal(s, c)) && LedgerOk(StepSignal(s, c))
  {
    var t := StepSignal(s, c);
    assert Members(t.co, IsCarrying) == Members(s.co, IsCarrying);
  }

  /** A move by `c` that leaves the lock with everybody else as it was. */
  lemma KeepsLock(s: State, t: State, c: nat)
    requires LockOk(s) && c < |s.co| == |t.co| && Mine(t, c)
    requires forall i :: 0 <= i < |s.co| && i != c ==> InLock(t.co[i]) == InLock(s.co[i])
    requires s.lock == t.lock || (s.lock in {Free, HeldBy(c)} && t.lock in {Free, HeldBy(c)})
    ensures LockOk(t)
  {
  }

  predicate Ordinary(l: Local) { !l.Parked? && !l.Popped? }

  /** A coroutine that stays off the list and keeps its targets disturbs
      neither the list nor any delivery. */
  lemma Apart(s: State, t: State, c: nat, l: Local)
    requires ListOk(s) && DeliverOk(s) && c < |s.co| && t.co == s.co[c := l] && t.list == s.list
    requires Ordinary(s.co[c]) && Ordinary(l) && Targets(l) == Targets(s.co[c])
    ensures ListOk(t) && DeliverOk(t)
  {
    assert forall i :: 0 <= i < |s.co| ==> Targets(t.co[i]) == Targets(s.co[i]);
    forall d | 0 <= d < |t.co| ensures TargetsOk(t.co, d) {
      assert TargetsOk(s.co, d);
    }
    forall u | 0 <= u < |t.co| ensures PoppedOk(t.co, u) {
      assert PoppedOk(s.co, u);
    }
  }

  lemma AppendKeeps(s: State, c: nat)
    requires ListOk(s) && DeliverOk(s) && c < |s.co| && s.co[c].Append?
    ensures ListOk(StepWait(s, c)) && DeliverOk(StepWait(s, c))
  {
    var t := StepWait(s, c);
    assert c !in s.list;
    assert forall u :: u in t.list <==> u == c || u in s.list;
    forall d | 0 <= d < |t.co| ensures TargetsOk(t.co, d) {
      assert TargetsOk(s.co, d);
    }
    forall u | 0 <= u < |t.co| ensures PoppedOk(t.co, u) {
      assert PoppedOk(s.co, u);
    }
  }

  /** `c` takes the head off the list; it alone will resume it. */
  lemma PopKeeps(s: State, c: nat)
    requires ListOk(s) && DeliverOk(s) && c < |s.co| && s.co[c].Look? && s.nwait != 0 && s.list != []
    ensures var t := StepSignal(s, c); ListOk(t) && DeliverOk(t) && t.co[c].Dequeue?
  {
    var t := StepSignal(s, c);
    var h := s.list[0];
    assert h in s.list;
    forall u | u in t.list ensures u in s.list && u != h {
      var k :| 0 <= k < |t.list| && t.list[k] == u;
      assert s.list[k + 1] == u;
    }
    forall u | 0 <= u < |t.co| && t.co[u].Parked? ensures u in t.list {
      assert u in s.list;
    }
    forall d | 0 <= d < |t.co| ensures TargetsOk(t.co, d) {
      assert TargetsOk(s.co, d);
    }
    forall u | 0 <= u < |t.co| ensures PoppedOk(t.co, u) {
      assert PoppedOk(s.co, u);
    }
  }

  /** One resumption: the target retries, and is nobody else's target. */
  lemma DeliverKeeps(s: State, c: nat)
    requires ListOk(s) && DeliverOk(s) && c < |s.co| && s.co[c].Deliver? && s.co[c].ts != []
    ensures var t := StepSignal(s, c); ListOk(t) && DeliverOk(t) && t.co[c].Deliver? && t.co != s.co
  {
    var t := StepSignal(s, c);
    var ts := s.co[c].ts;
    assert TargetsOk(s.co, c);
    assert ts[0] in Targets(s.co[c]);
    forall u | u in ts[1..] ensures u in ts && u != ts[0] {
      var k :| 0 <= k < |ts[1..]| && ts[1..][k] == u;
      assert ts[k + 1] == u;
    }
    forall d | 0 <= d < |t.co| ensures TargetsOk(t.co, d) {
      assert TargetsOk(s.co, d);
    }
    forall u | 0 <= u < |t.co| ensures PoppedOk(t.co, u) {
      assert PoppedOk(s.co, u);
    }
  }

  lemma TakeAllKeeps(s: State, c: nat)
    requires ListOk(s) && DeliverOk(s) && c < |s.co| && s.co[c].TakeAll?
    ensures var t := StepSignal(s, c); ListOk(t) && DeliverOk(t)
  {
    var t := StepSignal(s, c);
    forall d | 0 <= d < |t.co| ensures TargetsOk(t.co, d) {
      assert TargetsOk(s.co, d);
    }
    forall u | 0 <= u < |t.co| ensures PoppedOk(t.co, u) {
      assert PoppedOk(s.co, u);
    }
  }

  lemma WaitKeepsInv(s: State, c: nat)
    requires Inv(s) && c < |s.co| && IsWait(s.co[c])
    ensures Inv(StepWait(s, c))
  {
    var t := StepWait(s, c);
    assert Mine(s, c);
    WaitKeepsNwait(s, c);
    WaitKeepsKill(s, c);
    WaitKeepsWake(s, c);
    WaitKeepsLists(s, c);
    WaitKeepsLock(s, c);
  }

  lemma WaitKeepsLists(s: State, c: nat)
    requires ListOk(s) && DeliverOk(s) && c < |s.co| && IsWait(s.co[c])
    ensures ListOk(StepWait(s, c)) && DeliverOk(StepWait(s, c))
  {
    var t := StepWait(s, c);
    if s.co[c].Append? {
      AppendKeeps(s, c);
    } else {
      Apart(s, t, c, t.co[c]);
    }
  }

  lemma WaitKeepsLock(s: State, c: nat)
    requires LockOk(s) && c < |s.co| && IsWait(s.co[c])
    ensures LockOk(StepWait(s, c))
  {
    assert Mine(s, c);
    WaitMovesOnlyItself(s, c);
    KeepsLock(s, StepWait(s, c), c);
  }

  /** Popping and resuming others does not touch who holds the lock. */
  lemma OthersKeepLock(s: State, c: nat)
    requires c < |s.co| && (s.co[c].Look? || s.co[c].Deliver? || s.co[c].TakeAll?)
    ensures var t := StepSignal(s, c);
            |t.co| == |s.co| && forall i :: 0 <= i < |s.co| && i != c ==> InLock(t.co[i]) == InLock(s.co[i])
  {
  }

  lemma OneKeepsLock(s: State, c: nat)
    requires c < |s.co| && !IsWait(s.co[c]) && !s.co[c].Look? && !s.co[c].Deliver? && !s.co[c].TakeAll?
    ensures var t := StepSignal(s, c); |t.co| == |s.co| && t.co == s.co[c := t.co[c]]
  {
  }

  lemma SignalKeepsLock(s: State, c: nat)
    requires LockOk(s) && c < |s.co| && !IsWait(s.co[c])
    ensures LockOk(StepSignal(s, c))
  {
    assert Mine(s, c);
    if s.co[c].Look? || s.co[c].Deliver? || s.co[c].TakeAll? {
      OthersKeepLock(s, c);
    } else {
      OneKeepsLock(s, c);
    }
    KeepsLock(s, StepSignal(s, c), c);
  }

  lemma SignalKeepsLists(s: State, c: nat)
    requires ListOk(s) && DeliverOk(s) && c < |s.co| && !IsWait(s.co[c])
    ensures var t := StepSignal(s, c); ListOk(t) && DeliverOk(t)
  {
    var t := StepSignal(s, c);
    if s.co[c].TakeAll? {
      TakeAllKeeps(s, c);
    } else if s.co[c].Look? && s.nwait != 0 && s.list != [] {
      PopKeeps(s, c);
    } else if s.co[c].Deliver? && s.co[c].ts != [] {
      DeliverKeeps(s, c);
    } else if Ordinary(s.co[c]) {
      Apart(s, t, c, t.co[c]);
    }
  }

  lemma SignalKeepsCounts(s: State, c: nat)
    requires c < |s.co| && Mine(s, c) && NwaitOk(s) && KillOk(s) && WakeOk(s) && LedgerOk(s) && !IsWait(s.co[c])
    ensures var t := StepSignal(s, c); WakeOk(t) && LedgerOk(t)
  {
    var t := StepSignal(s, c);
    if s.co[c].TakeAll? {
      TakeAllKeepsWake(s, c);
    } else if s.co[c].Look? && s.nwait != 0 && s.list != [] {
      if t != s {
        HandoverKeepsWake(s, t, c, s.list[0], t.co[c], t.co[s.list[0]]);
      }
    } else if s.co[c].Deliver? && s.co[c].ts != [] {
      if t != s {
        HandoverKeepsWake(s, t, c, s.co[c].ts[0], t.co[c], t.co[s.co[c].ts[0]]);
      }
    } else {
      SignalKeepsWake(s, c);
    }
  }

  lemma SignalKeepsInv(s: State, c: nat)
    requires Inv(s) && c < |s.co| && !IsWait(s.co[c])
    ensures Inv(StepSignal(s, c))
  {
    assert Mine(s, c);
    SignalKeepsNwait(s, c);
    SignalKeepsKill(s, c);
    SignalKeepsLock(s, c);
    SignalKeepsLists(s, c);
    SignalKeepsCounts(s, c);
  }

  /** Calls that touch no shared data yet. */
  lemma CallKeepsInv(s: State, c: nat, l: Local)
    requires Inv(s) && c < |s.co| && s.co[c].Idle?
    requires l == Try || l == Condemn || (l.Spin? && !l.again)
    ensures Inv(At(s, c, l))
  {
    assert Mine(s, c);
    var t := At(s, c, l);
    Apart(s, t, c, l);
    KeepsLock(s, t, c);
    Moved(s.co, c, l);
  }

  /** A signal publishes its permit at once. */
  lemma PublishKeepsInv(s: State, c: nat)
    requires Inv(s) && c < |s.co| && s.co[c].Idle?
    ensures Inv(At(s, c, Peek).(count := s.count + 1, signalled := s.signalled + 1))
  {
    assert Mine(s, c);
    var t := At(s, c, Peek).(count := s.count + 1, signalled := s.signalled + 1);
    Apart(s, t, c, Peek);
    KeepsLock(s, t, c);
    Moved(s.co, c, Peek);
  }

  lemma IdleKeepsInv(s: State, m: Move)
    requires Inv(s) && m.c < |s.co| && !s.terminated && s.co[m.c].Idle? && !m.act.Continue?
    ensures Inv(Step(s, m))
  {
    match m.act
    case Wait(lifo) => CallKeepsInv(s, m.c, Spin(lifo, false, 0));
    case TryWait => CallKeepsInv(s, m.c, Try);
    case Signal => PublishKeepsInv(s, m.c);
    case Kill => CallKeepsInv(s, m.c, Condemn);
  }

  lemma GoKeepsInv(s: State, m: Move)
    requires Inv(s) && m.c < |s.co| && !s.terminated && m.act.Continue?
    ensures Inv(Step(s, m))
  {
    var t := if IsWait(s.co[m.c]) then StepWait(s, m.c) else StepSignal(s, m.c);
    assert Step(s, m) == t;
    assert Inv(t) by {
      if IsWait(s.co[m.c]) { WaitKeepsInv(s, m.c); } else { SignalKeepsInv(s, m.c); }
    }
  }

  /** A call by a coroutine that is in one already, and every move after the end. */
  predicate Void(s: State, m: Move) {
    m.c >= |s.co| || s.terminated || (!m.act.Continue? && !s.co[m.c].Idle?)
  }

  lemma VoidIsNothing(s: State, m: Move)
    requires Void(s, m)
    ensures Step(s, m) == s
  {
  }

  lemma StepKeepsInv(s: State, m: Move)
    requires Inv(s)
    ensures Inv(Step(s, m))
  {
    if Void(s, m) {
      VoidIsNothing(s, m);
    } else if m.act.Continue? {
      GoKeepsInv(s, m);
    } else {
      IdleKeepsInv(s, m);
    }
  }

  // ------------------------------------------------------------ every run

  lemma StepKeepsInitial(s: State, m: Move)
    ensures Step(s, m).initial == s.initial
  {
  }

  lemma Reachable(initial: nat, n: nat, moves: seq<Move>)
    ensures Inv(Run(Step, Init(initial, n), moves))
    ensures Run(Step, Init(initial, n), moves).initial == initial
  {
    InitInv(initial, n);
    forall s, m | Inv(s) ensures Inv(Step(s, m)) {
      StepKeepsInv(s, m);
    }
    RunKeeps(Step, Inv, Init(initial, n), moves);
    var same := (s: State) => s.initial == initial;
    forall s, m | same(s) ensures same(Step(s, m)) {
      StepKeepsInitial(s, m);
    }
    RunKeeps(Step, same, Init(initial, n), moves);
  }

  /** The semaphore counts: in every interleaving each permit is on offer, in the
      hands of a wait about to return, or was handed out exactly once, and a wait
      returns empty-handed only after a kill. */
  lemma PermitsConserved(initial: nat, n: nat, moves: seq<Move>)
    ensures var s := Run(Step, Init(initial, n), moves);
            && s.count + s.served + Carried(s) == initial + s.signalled
            && (s.dismissed > 0 ==> s.killed)
  {
    Reachable(initial, n, moves);
  }

  /** With the spin lock free, nwait is the length of the list, also after a
      kill, and the list holds each suspended and unclaimed waiter exactly once. */
  lemma NwaitExact(initial: nat, n: nat, moves: seq<Move>)
    ensures var s := Run(Step, Init(initial, n), moves);
            && (s.lock.Free? ==> s.nwait == |s.list|)
            && (forall i: nat :: i in s.list <==> i < |s.co| && s.co[i].Parked?)
            && Distinct(s.list)
  {
    Reachable(initial, n, moves);
  }

  /** No wake-up is lost: while somebody is queued, every permit on offer is
      matched by a woken waiter still retrying or by a signal that has not yet
      popped. */
  lemma NoLostWakeup(initial: nat, n: nat, moves: seq<Move>)
    ensures var s := Run(Step, Init(initial, n), moves);
            !s.killed && s.list != [] ==> s.count <= Retrying(s) + Signalling(s)
  {
    Reachable(initial, n, moves);
  }

  /** Nobody that left the list is forgotten: the coroutine that took it off is
      still there to resume it, and nobody else is. */
  lemma PoppedIsResumed(initial: nat, n: nat, moves: seq<Move>, i: nat)
    requires var s := Run(Step, Init(initial, n), moves); i < |s.co| && s.co[i].Popped?
    ensures var s := Run(Step, Init(initial, n), moves);
            forall w :: 0 <= w < |s.co| ==> (i in Targets(s.co[w]) <==> w == s.co[i].waker)
  {
    Reachable(initial, n, moves);
    var s := Run(Step, Init(initial, n), moves);
    assert PoppedOk(s.co, i);
    forall w | 0 <= w < |s.co| ensures i in Targets(s.co[w]) <==> w == s.co[i].waker {
      assert TargetsOk(s.co, w);
    }
  }

  ghost predicate NobodyMoves(s: State) {
    forall i :: 0 <= i < |s.co| ==> s.co[i].Idle? || s.co[i].Parked?
  }

  /** Once nobody is on the move, whoever still sleeps lacks a permit, and after a
      kill nobody sleeps. */
  lemma QuietSleepersLackPermits(initial: nat, n: nat, moves: seq<Move>)
    ensures var s := Run(Step, Init(initial, n), moves);
            NobodyMoves(s) && (exists i :: 0 <= i < |s.co| && s.co[i].Parked?) ==> s.count == 0 && !s.killed
  {
    Reachable(initial, n, moves);
    var s := Run(Step, Init(initial, n), moves);
    if NobodyMoves(s) && (exists i :: 0 <= i < |s.co| && s.co[i].Parked?) {
      CountNone(s.co, IsRetrying);
      CountNone(s.co, IsSignalling);
    }
  }

  // ----------------------------------------------------------- refinement

  /** Where a coroutine stands in its call, for a caller of the semaphore. */
  function PhaseOf(l: Local): Counter.Phase {
    match l
    case Retract => Counter.Holding
    case Leave(permit) => if permit then Counter.Holding else Counter.Refused
    case Try => Counter.Trying
    case TryCas(_) => Counter.Trying
    case _ => if IsWait(l) || l.Parked? || l.Popped? then Counter.Wanting else Counter.Out
  }

  function Abstract(s: State): Counter.State {
    Counter.State(s.count, s.killed, Phases(s.co, PhaseOf))
  }

  /** How one coroutine's step in wait or try_wait looks from outside. */
  lemma WaitView(s: State, c: nat)
    requires c < |s.co| && IsWait(s.co[c])
    ensures var t, a := StepWait(s, c), Abstract(s);
            |t.co| == |s.co| && Abstract(t) == a.(permits := t.count, phase := a.phase[c := PhaseOf(t.co[c])])
  {
    var t := StepWait(s, c);
    WaitMovesOnlyItself(s, c);
    PhaseUpdate(s.co, PhaseOf, c, t.co[c]);
  }

  /** The outcome of one step: a permit fewer and taken, a return, or nothing to see. */
  lemma WaitOutcome(s: State, c: nat)
    requires c < |s.co| && IsWait(s.co[c])
    ensures var t := StepWait(s, c);
            var p, q := PhaseOf(s.co[c]), if c < |t.co| then PhaseOf(t.co[c]) else Counter.Out;
            if t.count != s.count then
              t.count == s.count - 1 && (p.Wanting? || p.Trying?) && (q.Holding? || q.Out?)
            else if p == q then true
            else if q.Refused? then p.Wanting? && s.killed
            else q.Out? && (p.Holding? || p.Refused? || (p.Trying? && s.count == 0))
  {
    WaitMovesOnlyItself(s, c);
  }

  /** `abs` is what the counter does while coroutine `c` takes the semaphore from `s` to `t`:
      one block that publishes a permit exactly when a signal is counted, kills exactly
      when the semaphore is killed, and hands out a permit, or turns a waiter away, exactly
      when such a return is counted. */
  ghost predicate Explains(s: State, t: State, c: nat, abs: seq<Counter.Move>) {
    var a := Abstract(s);
    && Counter.Block(a, c, abs) && Abstract(t) == Run(Counter.Step, a, abs)
    && t.signalled == s.signalled + One(Counter.Publish in abs)
    && (Counter.Kill in abs <==> t.killed != s.killed)
    && t.served == s.served + One(Counter.Grants(a, c, abs))
    && t.dismissed == s.dismissed + One(Counter.TurnsAway(a, c, abs))
  }

  /** What is counted when a call returns. */
  lemma WaitReturns(s: State, c: nat)
    requires c < |s.co| && IsWait(s.co[c])
    ensures var t := StepWait(s, c);
            var p, q := PhaseOf(s.co[c]), if c < |t.co| then PhaseOf(t.co[c]) else Counter.Out;
            && t.signalled == s.signalled && t.killed == s.killed
            && t.served == s.served + One(q.Out? && (t.count != s.count || p.Holding?))
            && t.dismissed == s.dismissed + One(q.Out? && p.Refused?)
  {
    WaitMovesOnlyItself(s, c);
  }

  lemma WaitRefines(s: State, c: nat) returns (abs: seq<Counter.Move>)
    requires c < |s.co| && IsWait(s.co[c])
    ensures Explains(s, StepWait(s, c), c, abs)
  {
    WaitView(s, c);
    WaitOutcome(s, c);
    WaitReturns(s, c);
    var t, a := StepWait(s, c), Abstract(s);
    abs := Counter.Explain(a, t.count, c, PhaseOf(t.co[c]));
  }

  lemma PopAllPhases(s: State, c: nat)
    requires c < |s.co| && s.co[c].TakeAll?
    ensures Phases(StepSignal(s, c).co, PhaseOf) == Phases(s.co, PhaseOf)
  {
    var t := StepSignal(s, c);
    forall i | 0 <= i < |s.co| ensures PhaseOf(t.co[i]) == PhaseOf(s.co[i]) {
      assert i != c ==> t.co[i] == PopAll(s, c)[i];
    }
  }

  lemma PopPhases(s: State, c: nat)
    requires c < |s.co| && s.co[c].Look?
    ensures StepSignal(s, c).count == s.count && Phases(StepSignal(s, c).co, PhaseOf) == Phases(s.co, PhaseOf)
  {
    var t := StepSignal(s, c);
    if s.nwait == 0 || s.list == [] {
      PhaseUpdate(s.co, PhaseOf, c, Release([]));
    } else if t != s {
      var u := s.list[0];
      PhaseUpdate(s.co, PhaseOf, u, Popped(s.co[u].lifo, c));
      PhaseUpdate(s.co[u := Popped(s.co[u].lifo, c)], PhaseOf, c, Dequeue(u));
    }
  }

  lemma DeliverPhases(s: State, c: nat)
    requires c < |s.co| && s.co[c].Deliver?
    ensures StepSignal(s, c).count == s.count && Phases(StepSignal(s, c).co, PhaseOf) == Phases(s.co, PhaseOf)
  {
    var t, ts := StepSignal(s, c), s.co[c].ts;
    if ts == [] {
      PhaseUpdate(s.co, PhaseOf, c, Idle);
    } else if t != s {
      var u := ts[0];
      PhaseUpdate(s.co, PhaseOf, u, Spin(s.co[u].lifo, true, 0));
      PhaseUpdate(s.co[u := Spin(s.co[u].lifo, true, 0)], PhaseOf, c, Deliver(ts[1..]));
    }
  }

  /** Popping and resuming change nothing for the callers. */
  lemma SignalPhases(s: State, c: nat)
    requires c < |s.co| && !IsWait(s.co[c])
    ensures StepSignal(s, c).count == s.count && Phases(StepSignal(s, c).co, PhaseOf) == Phases(s.co, PhaseOf)
  {
    var t := StepSignal(s, c);
    if s.co[c].TakeAll? {
      PopAllPhases(s, c);
    } else if s.co[c].Look? {
      PopPhases(s, c);
    } else if s.co[c].Deliver? {
      DeliverPhases(s, c);
    } else {
      PhaseUpdate(s.co, PhaseOf, c, t.co[c]);
    }
  }

  lemma SignalRefines(s: State, c: nat) returns (abs: seq<Counter.Move>)
    requires c < |s.co| && !IsWait(s.co[c])
    ensures Explains(s, StepSignal(s, c), c, abs)
  {
    var t, a := StepSignal(s, c), Abstract(s);
    SignalPhases(s, c);
    if t.killed != s.killed {
      abs := [Counter.Kill];
      RunOne(Counter.Step, a, Counter.Kill);
    } else {
      abs := [];
    }
  }

  lemma CallView(s: State, m: Move)
    requires m.c < |s.co| && !s.terminated && s.co[m.c].Idle? && !m.act.Continue?
    ensures var t, a := Step(s, m), Abstract(s);
            var p := if m.act.Wait? then Counter.Wanting else if m.act.TryWait? then Counter.Trying else Counter.Out;
            && Abstract(t) == a.(permits := t.count, phase := a.phase[m.c := p])
            && t.count == s.count + One(m.act.Signal?) && t.signalled == s.signalled + One(m.act.Signal?)
            && t.killed == s.killed && t.served == s.served && t.dismissed == s.dismissed
  {
    PhaseUpdate(s.co, PhaseOf, m.c, Step(s, m).co[m.c]);
  }

  lemma CallRefines(s: State, m: Move) returns (abs: seq<Counter.Move>)
    requires m.c < |s.co| && !s.terminated && s.co[m.c].Idle? && !m.act.Continue?
    ensures Explains(s, Step(s, m), m.c, abs)
  {
    CallView(s, m);
    var a := Abstract(s);
    var move :=
      if m.act.Wait? then Counter.Call(m.c) else if m.act.TryWait? then Counter.CallTry(m.c) else Counter.Publish;
    assert a.phase[m.c] == PhaseOf(s.co[m.c]);
    if m.act.Kill? {
      abs := [];
    } else {
      abs := [move];
      RunOne(Counter.Step, a, move);
    }
  }

  /** Every atomic operation of `usema` is one block of the counting semaphore. */
  lemma StepRefines(s: State, m: Move) returns (abs: seq<Counter.Move>)
    ensures Explains(s, Step(s, m), m.c, abs)
  {
    if m.c >= |s.co| || s.terminated {
      abs := [];
    } else if !m.act.Continue? {
      abs := [];
      if s.co[m.c].Idle? {
        abs := CallRefines(s, m);
      }
    } else if IsWait(s.co[m.c]) {
      abs := WaitRefines(s, m.c);
    } else {
      abs := SignalRefines(s, m.c);
    }
  }

  /** Every run of `usema` is a run of the counting semaphore, operation by operation: the
      k-th block is what the counter does in the k-th operation. */
  lemma {:induction false} RunRefines(s: State, moves: seq<Move>) returns (blocks: seq<seq<Counter.Move>>)
    ensures |blocks| == |moves|
    ensures forall k :: 0 <= k < |moves| ==>
              Explains(After(Step, s, moves, k), After(Step, s, moves, k + 1), moves[k].c, blocks[k])
    ensures Abstract(Run(Step, s, moves)) == Run(Counter.Step, Abstract(s), Joined(blocks))
    decreases |moves|
  {
    blocks := [];
    if moves != [] {
      var first := StepRefines(s, moves[0]);
      var rest := RunRefines(Step(s, moves[0]), moves[1..]);
      blocks := [first] + rest;
      forall k | 0 <= k < |moves|
        ensures Explains(After(Step, s, moves, k), After(Step, s, moves, k + 1), moves[k].c, blocks[k])
      {
        AfterRest(Step, s, moves, k);
        if k > 0 {
          AfterRest(Step, s, moves, k - 1);
        }
      }
      RunMore(Counter.Step, Abstract(s), first, Joined(rest));
    }
  }
}
