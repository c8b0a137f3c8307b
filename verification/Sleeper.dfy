/** `usleeper`: the arbitration between a timed sleep, wakes and the expiry. */
module Sleeper {
  // Wakes come in any number from any thread; the expiry is the sleeper's own
  // thread's.  Each `Step` performs one atomic operation.  The sleeper's thread runs
  // its scheduler and its coroutines one after the other, so an expiry that has taken
  // the node off the heap finishes before a posted resumption is consumed, and
  // neither happens while the sleeping coroutine itself is running.
  import opened Interleavings

  datatype NodeState = IDLE | REGISTERING | PARKED | WOKEN | EXPIRED

  datatype Local =
    | Idle
    // sleep_for
    | Claim                        // about to compare-and-swap IDLE -> REGISTERING
    | Register                     // owns the slot; about to publish PARKED
    | Push                         // about to push the node on the timer heap
    | Suspended
    | Cleaning                     // resumed; about to read the outcome and leave the heap
    | Vacate(outcome: NodeState)   // about to store IDLE
    // wake
    | Post                         // won the arbitration; about to post the resumption
    | Defer                        // lost it; about to count a pending wake
    | Fatal                        // double push, double resumption or a lost promise

  datatype Promise = Null | Of(c: nat)

  datatype State = State(
    st: NodeState,
    prom: Promise,
    inHeap: bool,
    firing: bool,           // timer_on_fire took the node off the heap, about to arbitrate
    pending: nat,
    posted: multiset<nat>,  // resumptions in the sync list
    accepted: nat,          // sleeps that claimed the slot
    rejected: nat,          // sleeps that returned BUSY
    ended: nat,             // accepted sleeps that returned EXPIRED
    broken: nat,            // accepted sleeps that returned WOKEN
    roused: nat,            // calls of sleep_for that returned WOKEN at once
    skipped: nat,           // calls of sleep_for that returned EXPIRED at once
    wakes: nat,             // wakes that have arbitrated
    won: nat,               // ... and won
    consumed: nat,          // pending wakes consumed by a sleep_for
    co: seq<Local>)

  datatype Act =
    | Sleep(positive: bool)   // whether the duration is positive
    | Wake
    | Continue
    | Fire                    // the scheduler of the sleeper's thread acts on the node
    | Resume                  // the scheduler consumes a posted resumption

  datatype Move = Move(c: nat, act: Act)

  function Init(n: nat): State {
    State(IDLE, Null, false, false, 0, multiset{}, 0, 0, 0, 0, 0, 0, 0, 0, 0, seq(n, _ => Idle))
  }

  // --------------------------------------------------------------- the steps

  function At(s: State, c: nat, l: Local): State
    requires c < |s.co|
  {
    s.(co := s.co[c := l])
  }

  function StepSleep(s: State, c: nat): State
    requires c < |s.co|
  {
    match s.co[c]
    case Claim =>
      if s.st == IDLE then At(s, c, Register).(st := REGISTERING, accepted := s.accepted + 1)
      else At(s, c, Idle).(rejected := s.rejected + 1)
    case Register =>
      At(s, c, Push).(prom := Of(c), st := PARKED)
    case Push =>
      if s.inHeap then At(s, c, Fatal) else At(s, c, Suspended).(inHeap := true)
    case Cleaning =>
      At(s, c, Vacate(s.st)).(inHeap := false, prom := Null)
    case Vacate(outcome) =>
      var t := At(s, c, Idle).(st := IDLE);
      if outcome == EXPIRED then t.(ended := s.ended + 1) else t.(broken := s.broken + 1)
    case _ => s
  }

  function StepWake(s: State, c: nat): State
    requires c < |s.co|
  {
    match s.co[c]
    case Post =>
      if s.prom == Null then At(s, c, Fatal) else At(s, c, Idle).(posted := s.posted + multiset{s.prom.c})
    case Defer =>
      At(s, c, Idle).(pending := s.pending + 1)
    case _ => s
  }

  /** Takes the node off the heap, or arbitrates for the node taken off; the
      winner resumes the sleeper on the spot. */
  function StepFire(s: State, c: nat): State
    requires c < |s.co|
  {
    if s.firing then
      var t := s.(firing := false);
      if s.st != PARKED then t
      else if s.prom == Of(c) then At(t, c, if s.co[c].Suspended? then Cleaning else Fatal).(st := EXPIRED)
      else s
    else if s.inHeap && s.co[c].Suspended? then s.(inHeap := false, firing := true)
    else s
  }

  /** The thread is not inside the coroutine it is about to resume. */
  function StepResume(s: State, c: nat): State
    requires c < |s.co|
  {
    if s.posted[c] == 0 || s.firing || s.co[c].Push? || s.co[c].Register? then s
    else At(s, c, if s.co[c].Suspended? then Cleaning else Fatal).(posted := s.posted - multiset{c})
  }

  function StepCall(s: State, c: nat, act: Act): State
    requires c < |s.co|
  {
    match act
    case Sleep(positive) =>
      if s.pending > 0 then s.(pending := 0, consumed := s.consumed + s.pending, roused := s.roused + 1)
      else if positive then At(s, c, Claim)
      else s.(skipped := s.skipped + 1)
    case Wake =>
      if s.st == PARKED then At(s, c, Post).(st := WOKEN, wakes := s.wakes + 1, won := s.won + 1)
      else At(s, c, Defer).(wakes := s.wakes + 1)
    case _ => s
  }

  function Step(s: State, m: Move): State {
    if m.c >= |s.co| then s else
    match m.act
    case Fire => StepFire(s, m.c)
    case Resume => StepResume(s, m.c)
    case Continue => if s.co[m.c].Post? || s.co[m.c].Defer? then StepWake(s, m.c) else StepSleep(s, m.c)
    case _ => if s.co[m.c].Idle? then StepCall(s, m.c, m.act) else s
  }

  // ---------------------------------------------------------- the invariant

  predicate InSleep(l: Local) { l.Register? || l.Push? || l.Suspended? || l.Cleaning? || l.Vacate? }
  predicate IsPosting(l: Local) { l.Post? }
  predicate IsDeferring(l: Local) { l.Defer? }

  ghost function Sleeps(s: State): nat { Count(s.co, InSleep) }
  ghost function Posters(s: State): nat { Count(s.co, IsPosting) }

  /** Resumptions posted or about to be posted. */
  ghost function Resumptions(s: State): nat { Posters(s) + |s.posted| }

  /** Only `c` is posted. */
  ghost predicate PostedOnly(s: State, c: nat) { s.posted == multiset{} || s.posted == multiset{c} }

  ghost predicate SleepOk(s: State, c: nat)
    requires c < |s.co|
  {
    match s.co[c]
    case Register =>
      s.st == REGISTERING && !s.inHeap && !s.firing && Resumptions(s) == 0
    case Push =>
      && s.prom == Of(c) && !s.inHeap && !s.firing && PostedOnly(s, c)
      && (s.st == PARKED || s.st == WOKEN) && Resumptions(s) == One(s.st == WOKEN)
    case Suspended =>
      && s.prom == Of(c) && !(s.inHeap && s.firing) && PostedOnly(s, c)
      && (s.st == PARKED || s.st == WOKEN) && Resumptions(s) == One(s.st == WOKEN)
      && (s.st == PARKED ==> s.inHeap || s.firing)
    case Cleaning =>
      s.prom == Of(c) && !s.firing && Resumptions(s) == 0 && (s.st == WOKEN || s.st == EXPIRED)
    case Vacate(outcome) =>
      s.st == outcome && !s.inHeap && !s.firing && Resumptions(s) == 0 && (s.st == WOKEN || s.st == EXPIRED)
    case _ => true
  }

  ghost predicate Vacant(s: State) {
    !s.inHeap && !s.firing && Resumptions(s) == 0
  }

  ghost predicate Ledger(s: State) {
    && s.accepted == s.ended + s.broken + One(s.st != IDLE)
    && s.won == s.broken + One(s.st == WOKEN)
    && s.wakes == s.won + s.pending + s.consumed + Count(s.co, IsDeferring)
  }

  ghost predicate Inv(s: State) {
    && Sleeps(s) == One(s.st != IDLE)
    && (s.st == IDLE ==> Vacant(s))
    && (forall c :: 0 <= c < |s.co| ==> SleepOk(s, c) && !s.co[c].Fatal?)
    && Ledger(s)
  }

  lemma InitInv(n: nat)
    ensures Inv(Init(n))
  {
    var co := Init(n).co;
    CountNone(co, InSleep);
    CountNone(co, IsPosting);
    CountNone(co, IsDeferring);
  }

  lemma Moved(co: seq<Local>, c: nat, l: Local)
    requires c < |co|
    ensures Count(co[c := l], InSleep) == Count(co, InSleep) - One(InSleep(co[c])) + One(InSleep(l))
    ensures Count(co[c := l], IsPosting) == Count(co, IsPosting) - One(co[c].Post?) + One(l.Post?)
    ensures Count(co[c := l], IsDeferring) == Count(co, IsDeferring) - One(co[c].Defer?) + One(l.Defer?)
  {
    CountUpdate(co, c, l, InSleep);
    CountUpdate(co, c, l, IsPosting);
    CountUpdate(co, c, l, IsDeferring);
  }

  /** Somebody sleeps while the slot is taken, and only one. */
  lemma TheSleeper(s: State) returns (w: nat)
    requires Inv(s) && s.st != IDLE
    ensures w < |s.co| && InSleep(s.co[w]) && SleepOk(s, w)
    ensures forall i :: 0 <= i < |s.co| && i != w ==> !InSleep(s.co[i])
  {
    CountNone(s.co, InSleep);
    w :| 0 <= w < |s.co| && InSleep(s.co[w]);
    forall i | 0 <= i < |s.co| && i != w ensures !InSleep(s.co[i]) {
      if InSleep(s.co[i]) { CountTwo(s.co, InSleep, i, w); }
    }
  }

  /** A move of `c` after which it, and the sleeper `w`, know the truth. */
  lemma Kept(s: State, t: State, c: nat, w: nat)
    requires Inv(s) && c < |s.co| == |t.co| && w < |s.co| && t.co == s.co[c := t.co[c]]
    requires forall i :: 0 <= i < |s.co| && i != w ==> !InSleep(s.co[i])
    requires SleepOk(t, c) && SleepOk(t, w) && !t.co[c].Fatal?
    ensures forall i :: 0 <= i < |t.co| ==> SleepOk(t, i) && !t.co[i].Fatal?
  {
  }

  lemma SleepKeeps(s: State, c: nat)
    requires Inv(s) && c < |s.co| && InSleep(s.co[c])
    ensures Inv(StepSleep(s, c))
  {
    var t := StepSleep(s, c);
    CountNone(s.co, InSleep);
    var w := TheSleeper(s);
    Moved(s.co, c, t.co[c]);
    assert t.co == s.co[c := t.co[c]];
    Kept(s, t, c, c);
  }

  lemma ClaimKeeps(s: State, c: nat)
    requires Inv(s) && c < |s.co| && s.co[c].Claim?
    ensures Inv(StepSleep(s, c))
  {
    var t := StepSleep(s, c);
    Moved(s.co, c, t.co[c]);
    CountNone(s.co, InSleep);
    if s.st == IDLE {
      Kept(s, t, c, c);
    } else {
      var w := TheSleeper(s);
      Kept(s, t, c, w);
    }
  }

  /** The winner's resumption is for the sleeper, whose promise is still there. */
  lemma PostKeeps(s: State, c: nat)
    requires Inv(s) && c < |s.co| && s.co[c].Post?
    ensures Inv(StepWake(s, c))
  {
    var t := StepWake(s, c);
    CountNone(s.co, IsPosting);
    Moved(s.co, c, t.co[c]);
    var w := TheSleeper(s);
    assert s.posted == multiset{};
    Kept(s, t, c, w);
  }

  lemma DeferKeeps(s: State, c: nat)
    requires Inv(s) && c < |s.co| && s.co[c].Defer?
    ensures Inv(StepWake(s, c))
  {
    var t := StepWake(s, c);
    Moved(s.co, c, t.co[c]);
    if s.st == IDLE {
      CountNone(s.co, InSleep);
      Kept(s, t, c, c);
    } else {
      var w := TheSleeper(s);
      Kept(s, t, c, w);
    }
  }

  lemma CallWakeKeeps(s: State, c: nat)
    requires Inv(s) && c < |s.co| && s.co[c].Idle?
    ensures Inv(StepCall(s, c, Wake))
  {
    var t := StepCall(s, c, Wake);
    Moved(s.co, c, t.co[c]);
    if s.st == IDLE {
      CountNone(s.co, InSleep);
      Kept(s, t, c, c);
    } else {
      var w := TheSleeper(s);
      Kept(s, t, c, w);
    }
  }

  /** Consuming pending wakes, or sleeping for no time. */
  lemma NoSleepKeeps(s: State, c: nat, positive: bool)
    requires Inv(s) && c < |s.co| && s.co[c].Idle? && (s.pending > 0 || !positive)
    ensures Inv(StepCall(s, c, Sleep(positive)))
  {
    var t := StepCall(s, c, Sleep(positive));
    assert forall i :: 0 <= i < |s.co| && SleepOk(s, i) ==> SleepOk(t, i);
  }

  lemma ClaimingKeeps(s: State, c: nat)
    requires Inv(s) && c < |s.co| && s.co[c].Idle?
    ensures Inv(At(s, c, Claim))
  {
    var t := At(s, c, Claim);
    Moved(s.co, c, Claim);
    if s.st == IDLE {
      CountNone(s.co, InSleep);
      Kept(s, t, c, c);
    } else {
      var w := TheSleeper(s);
      Kept(s, t, c, w);
    }
  }

  lemma CallSleepKeeps(s: State, c: nat, positive: bool)
    requires Inv(s) && c < |s.co| && s.co[c].Idle?
    ensures Inv(StepCall(s, c, Sleep(positive)))
  {
    if s.pending > 0 || !positive {
      NoSleepKeeps(s, c, positive);
    } else {
      ClaimingKeeps(s, c);
    }
  }

  lemma FireKeeps(s: State, c: nat)
    requires Inv(s) && c < |s.co|
    ensures Inv(StepFire(s, c))
  {
    var t := StepFire(s, c);
    if t != s {
      var w := TheSleeper(s);
      Moved(s.co, c, t.co[c]);
      assert t.co == s.co[c := t.co[c]];
      Kept(s, t, c, w);
    }
  }

  lemma ResumeKeeps(s: State, c: nat)
    requires Inv(s) && c < |s.co|
    ensures Inv(StepResume(s, c))
  {
    var t := StepResume(s, c);
    if t != s {
      var w := TheSleeper(s);
      assert c == w;
      Moved(s.co, c, t.co[c]);
      Kept(s, t, c, w);
    }
  }

  lemma StepKeepsInv(s: State, m: Move)
    requires Inv(s)
    ensures Inv(Step(s, m))
  {
    if m.c < |s.co| {
      match m.act
      case Fire => FireKeeps(s, m.c);
      case Resume => ResumeKeeps(s, m.c);
      case Continue =>
        if s.co[m.c].Post? {
          PostKeeps(s, m.c);
        } else if s.co[m.c].Defer? {
          DeferKeeps(s, m.c);
        } else if s.co[m.c].Claim? {
          ClaimKeeps(s, m.c);
        } else if InSleep(s.co[m.c]) {
          SleepKeeps(s, m.c);
        }
      case Wake =>
        if s.co[m.c].Idle? { CallWakeKeeps(s, m.c); }
      case Sleep(positive) =>
        if s.co[m.c].Idle? { CallSleepKeeps(s, m.c, positive); }
    }
  }

  // ------------------------------------------------------------ every run

  lemma Reachable(n: nat, moves: seq<Move>)
    ensures Inv(Run(Step, Init(n), moves))
  {
    InitInv(n);
    forall s, m | Inv(s) ensures Inv(Step(s, m)) {
      StepKeepsInv(s, m);
    }
    RunKeeps(Step, Inv, Init(n), moves);
  }

  /** In every interleaving each accepted sleep returns exactly once, at most one
      is under way, and neither a double push, a double resumption nor a lost
      promise ever happens. */
  lemma ResumedExactlyOnce(n: nat, moves: seq<Move>)
    ensures var s := Run(Step, Init(n), moves);
            && s.accepted == s.ended + s.broken + Sleeps(s)
            && Sleeps(s) <= 1
            && forall i :: 0 <= i < |s.co| ==> !s.co[i].Fatal?
  {
    Reachable(n, moves);
  }

  /** Every wake either breaks exactly one sleep or stays counted until a
      sleep_for consumes it. */
  lemma WakesConserved(n: nat, moves: seq<Move>)
    ensures var s := Run(Step, Init(n), moves);
            && s.wakes == s.won + Count(s.co, IsDeferring) + s.pending + s.consumed
            && s.won == s.broken + One(s.st == WOKEN)
  {
    Reachable(n, moves);
  }

  /** A suspended sleeper is never abandoned: unwoken, its node is on the heap or
      just being expired; woken, exactly one resumption is posted or about to be,
      and it is the sleeper's. */
  lemma NeverAbandoned(n: nat, moves: seq<Move>, c: nat)
    requires var s := Run(Step, Init(n), moves); c < |s.co| && s.co[c].Suspended?
    ensures var s := Run(Step, Init(n), moves);
            && s.prom == Of(c)
            && (s.st == PARKED ==> (s.inHeap || s.firing) && Resumptions(s) == 0)
            && (s.st != PARKED ==>
                  s.st == WOKEN && Resumptions(s) == 1 && (Posters(s) == 0 ==> s.posted == multiset{c}))
  {
    Reachable(n, moves);
  }
}
