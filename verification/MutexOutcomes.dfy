/** What the calls of `umutex` come to: who gets the lock, and when the mutex starves. */
module MutexOutcomes {
  // Module Mutex says that nothing bad happens.  Here are the branches that make
  // something happen: try_lock and lock on a free mutex, the waiter that parks, the
  // late waiter that turns starvation mode on, the hand-off that it leads to, and
  // the heir that turns it off.  "Alone" means that nobody else moves meanwhile.
  import opened Interleavings
  import opened Mutex

  function Go(c: nat): Move {
    Move(c, Continue(false))
  }

  // ------------------------------------------------------------- a free mutex

  /** Nobody holds the mutex, waits for it, is being woken or is about to wake. */
  ghost predicate Untouched(s: State) {
    s.permits == 0 && forall i :: 0 <= i < |s.co| ==>
      match s.co[i]
      case Idle => true
      case Load(_, awoke, _) => !awoke
      case Decide(_, _, awoke, _) => !awoke
      case Settle(_) => true
      case Reload => true
      case _ => false
  }

  lemma UntouchedIsZero(s: State)
    requires Inv(s) && Untouched(s)
    ensures s.word == 0
  {
    CountNone(s.co, IsHolding);
    CountNone(s.co, IsParked);
    CountNone(s.co, IsSignal);
    CountNone(s.co, IsWoke);
    CountNone(s.co, IsHandoff);
    CountNone(s.co, IsAwoke);
    Fields(s.word);
  }

  /** In every run try_lock, and lock at its first step, get a mutex that nobody holds or
      waits for, and whoever gets it so found it held by nobody. */
  lemma FreeIsTaken(n: nat, moves: seq<Move>, c: nat, act: Act)
    requires var s := Run(Step, Init(n), moves); c < |s.co| && s.co[c].Idle? && (act.Lock? || act.TryLock?)
    ensures var s := Run(Step, Init(n), moves);
            var t := Step(s, Move(c, act));
            && c < |t.co| && (Untouched(s) ==> t.co[c].Holding?)
            && (t.co[c].Holding? ==> Holders(s) == 0 && Holders(t) == 1)
            && (act.TryLock? && !t.co[c].Holding? ==> t == s)
  {
    Reachable(n, moves);
    var s := Run(Step, Init(n), moves);
    if Untouched(s) {
      UntouchedIsZero(s);
    }
    StepKeepsInv(s, Move(c, act));
    var t := Step(s, Move(c, act));
    assert t.word == s.word || t.word == 1;
  }

  /** In every run lock, alone, gets a mutex that is not held and does not starve, even with
      waiters asleep: it takes three steps at most. */
  lemma LockAlone(n: nat, moves: seq<Move>, c: nat)
    requires var s := Run(Step, Init(n), moves);
             c < |s.co| && s.co[c].Idle? && Holders(s) == 0 && !Starving(s.word)
    ensures var s := Run(Step, Init(n), moves);
            var t := Step(Step(Step(s, Move(c, Lock)), Go(c)), Go(c));
            c < |t.co| && t.co[c].Holding?
  {
    Reachable(n, moves);
    var s := Run(Step, Init(n), moves);
    assert !Locked(s.word);
    var s1 := Step(s, Move(c, Lock));
    if s.word != 0 {
      assert s1.co[c] == Load(false, false, 0) && s1.word == s.word;
      assert Step(s1, Go(c)).co[c] == Decide(s.word, false, false, 0);
      NextWordFields(s.word, false, false);
    }
  }

  // ----------------------------------------------------------- waiting for it

  /** In lock, with the memory of having been woken late. */
  predicate Late(l: Local) {
    (l.Load? || l.Decide?) && l.starving
  }

  predicate InLock(l: Local) { l.Load? || l.Decide? }

  /** A spin that is over, or is not: one step of a locker with a fresh look at a locked
      word. */
  lemma LookAlone(s: State, c: nat)
    requires Inv(s) && c < |s.co| && s.co[c].Decide? && s.co[c].seen == s.word && Locked(s.word)
    ensures var l, t := s.co[c], Step(s, Go(c));
            && Inv(t) && c < |t.co| && Locked(t.word)
            && if CanSpin(l) then t.co[c].Load? && t.co[c].starving == l.starving && t.co[c].iter == l.iter + 1
               else t.co[c] == Parked(l.starving) && Waiters(t.word) == Waiters(s.word) + 1
                    && (Starving(t.word) <==> Starving(s.word) || l.starving)
  {
    StepKeepsInv(s, Go(c));
    var l := s.co[c];
    assert LocalOk(l, s.word);
    NextWordFields(l.seen, l.starving, l.awoke);
    if CanSpin(l) {
      Fields(s.word);
      FieldsOf(true, true, Starving(s.word), Waiters(s.word), OrWoken(s.word));
    }
  }

  lemma LoadAlone(s: State, c: nat)
    requires Inv(s) && c < |s.co| && s.co[c].Load?
    ensures var l, t := s.co[c], Step(s, Go(c));
            Inv(t) && c < |t.co| && t.word == s.word && t.co[c] == Decide(s.word, l.starving, l.awoke, l.iter)
  {
    StepKeepsInv(s, Go(c));
  }

  /** A stale look costs one more step. */
  lemma StaleAlone(s: State, c: nat)
    requires Inv(s) && c < |s.co| && s.co[c].Decide? && s.co[c].seen != s.word
    ensures var l, t := s.co[c], Step(s, Go(c));
            Inv(t) && c < |t.co| && t.word == s.word && t.co[c].Load? && t.co[c].starving == l.starving
  {
    StepKeepsInv(s, Go(c));
    assert LocalOk(s.co[c], s.word);
    NextWordFields(s.co[c].seen, s.co[c].starving, s.co[c].awoke);
  }

  function Spins(l: Local): nat
    requires InLock(l)
  {
    (if l.iter < MAX_SPIN then 2 * (MAX_SPIN - l.iter) else 0) + if l.Load? then 1 else 0
  }

  lemma {:induction false} FreshParks(s: State, c: nat) returns (k: nat)
    requires Inv(s) && c < |s.co| && InLock(s.co[c]) && (s.co[c].Decide? ==> s.co[c].seen == s.word) && Locked(s.word)
    ensures var t := Run(Step, s, Times(Go(c), k));
            && c < |t.co| && t.co[c] == Parked(s.co[c].starving)
            && Locked(t.word) && (s.co[c].starving ==> Starving(t.word))
    decreases Spins(s.co[c])
  {
    var t := Step(s, Go(c));
    if s.co[c].Load? {
      LoadAlone(s, c);
    } else {
      LookAlone(s, c);
    }
    if t.co[c].Parked? {
      k := 0;
    } else {
      k := FreshParks(t, c);
    }
    RunTimes(Step, s, Go(c), k);
    if t.co[c].Parked? {
      RunTimes(Step, t, Go(c), 0);
    }
    k := k + 1;
  }

  /** In every run a locker behind a locked mutex, alone, stops spinning and parks; if it
      was woken late, it leaves the mutex starving. */
  lemma LockerParks(n: nat, moves: seq<Move>, c: nat) returns (k: nat)
    requires var s := Run(Step, Init(n), moves); c < |s.co| && InLock(s.co[c]) && Holders(s) == 1
    ensures var s := Run(Step, Init(n), moves);
            var t := Run(Step, s, Times(Go(c), k));
            && c < |t.co| && t.co[c] == Parked(s.co[c].starving)
            && Locked(t.word) && (s.co[c].starving ==> Starving(t.word))
  {
    Reachable(n, moves);
    var s := Run(Step, Init(n), moves);
    if s.co[c].Decide? && s.co[c].seen != s.word {
      StaleAlone(s, c);
      k := FreshParks(Step(s, Go(c)), c);
      RunTimes(Step, s, Go(c), k);
      k := k + 1;
    } else {
      k := FreshParks(s, c);
    }
  }

  // ------------------------------------------------------- how starving begins

  /** A late locker stays late, until it gets the lock or registers; when it registers,
      the word it leaves starves. */
  lemma LateDecides(s: State, c: nat)
    requires Inv(s) && c < |s.co| && Late(s.co[c]) && s.co[c].Decide?
    ensures var (w, l) := StepDecide(s, s.co[c]);
            Late(l) || l.Holding? || (l == Parked(true) && Starving(w))
  {
    var l := s.co[c];
    assert LocalOk(l, s.word);
    NextWordFields(l.seen, l.starving, l.awoke);
  }

  lemma LateStep(s: State, m: Move, c: nat)
    requires Inv(s) && c < |s.co| && Late(s.co[c])
    ensures var t := Step(s, m);
            && c < |t.co| && (Late(t.co[c]) || t.co[c].Holding? || (t.co[c] == Parked(true) && Starving(t.word)))
  {
    if m.c == c && m.act.Continue? && s.co[c].Decide? {
      LateDecides(s, c);
    }
  }

  lemma {:induction false} LateStays(s: State, moves: seq<Move>, c: nat)
    requires Inv(s) && c < |s.co| && Late(s.co[c])
    requires Throughout(Step, s, moves, (t: State) => c < |t.co| && InLock(t.co[c]))
    ensures var t := Run(Step, s, moves); Inv(t) && c < |t.co| && Late(t.co[c])
    decreases |moves|
  {
    if moves != [] {
      LateStep(s, moves[0], c);
      StepKeepsInv(s, moves[0]);
      LateStays(Step(s, moves[0]), moves[1..], c);
    }
  }

  /** In every run: a coroutine that took its permit late, be it now or on an earlier
      turn, and finds the mutex in normal mode, keeps competing as long as it likes;
      the step by which it registers again, whatever happened in between, leaves
      the word in starvation mode. */
  lemma LateTurnsStarving(n: nat, before: seq<Move>, c: nat, late: bool, between: seq<Move>, m: Move)
    requires var s := Run(Step, Init(n), before);
             c < |s.co| && s.co[c].Woke? && (s.co[c].starving || late) && !Starving(s.word)
    requires var s := Run(Step, Init(n), before);
             Throughout(Step, Step(s, Move(c, Continue(late))), between, (t: State) => c < |t.co| && InLock(t.co[c]))
    ensures var s := Run(Step, Init(n), before);
            var t := Run(Step, Step(s, Move(c, Continue(late))), between);
            var u := Step(t, m);
            && c < |t.co| && c < |u.co| && Late(t.co[c])
            && (u.co[c].Parked? ==> u.co[c].starving && Starving(u.word))
  {
    Reachable(n, before);
    var s := Run(Step, Init(n), before);
    var wake := Move(c, Continue(late));
    StepKeepsInv(s, wake);
    LateStays(Step(s, wake), between, c);
    LateStep(Run(Step, Step(s, wake), between), m, c);
  }

  /** In lock, asleep or awake. */
  predicate Waits(l: Local) {
    l.Load? || l.Decide? || l.Parked? || l.Woke?
  }

  lemma MemoryStep(s: State, m: Move, c: nat)
    requires c < |s.co| && Waits(s.co[c]) && s.co[c].starving
    ensures var t := Step(s, m); c < |t.co| && (Waits(t.co[c]) ==> t.co[c].starving)
  {
  }

  lemma {:induction false} MemoryStays(s: State, moves: seq<Move>, c: nat)
    requires c < |s.co| && Waits(s.co[c]) && s.co[c].starving
    requires Throughout(Step, s, moves, (t: State) => c < |t.co| && Waits(t.co[c]))
    ensures var t := Run(Step, s, moves); c < |t.co| && Waits(t.co[c]) && t.co[c].starving
    decreases |moves|
  {
    if moves != [] {
      assert c < |Step(s, moves[0]).co| && Waits(Step(s, moves[0]).co[c]);
      MemoryStep(s, moves[0], c);
      MemoryStays(Step(s, moves[0]), moves[1..], c);
    }
  }

  /** In every run, once late always late: a locker that was woken late once is late on every
      later turn, through all its sleeps, until it gets the lock. */
  lemma OnceLateAlwaysLate(n: nat, before: seq<Move>, c: nat, after: seq<Move>)
    requires var s := Run(Step, Init(n), before);
             && c < |s.co| && Waits(s.co[c]) && s.co[c].starving
             && Throughout(Step, s, after, (t: State) => c < |t.co| && Waits(t.co[c]))
    ensures var t := Run(Step, Run(Step, Init(n), before), after);
            c < |t.co| && Waits(t.co[c]) && t.co[c].starving
  {
    MemoryStays(Run(Step, Init(n), before), after, c);
  }

  // ---------------------------------------------- what starving leads to

  /** Only a hand-off ends starvation mode or makes a holder: while the mutex starves a
      locker registers at once, */
  lemma StarvingDecides(s: State, c: nat)
    requires Inv(s) && Starving(s.word) && c < |s.co| && s.co[c].Decide?
    ensures var (w, l) := StepDecide(s, s.co[c]); Starving(w) && !l.Holding?
  {
    var l := s.co[c];
    Present(s, c);
    assert LocalOk(l, s.word);
    NextWordFields(l.seen, l.starving, l.awoke);
  }

  /** and an unlock leaves the mode alone. */
  lemma StarvingUnlocks(s: State, c: nat)
    requires Inv(s) && Starving(s.word) && c < |s.co| && s.co[c].Holding?
    ensures Starving(s.word - 1) && !StepUnlock(s.word).Holding?
  {
    Present(s, c);
    Fields(s.word);
    FieldsOf(false, Woken(s.word), true, Waiters(s.word), s.word - 1);
  }

  lemma StarvingStep(s: State, m: Move)
    requires Inv(s) && Starving(s.word) && m.c < |s.co| && !s.co[m.c].Handoff?
    ensures var t := Step(s, m);
            && |t.co| == |s.co| && Starving(t.word)
            && forall i :: 0 <= i < |s.co| && t.co[i].Holding? ==> s.co[i].Holding?
  {
    if s.co[m.c].Decide? {
      StarvingDecides(s, m.c);
    } else if s.co[m.c].Holding? {
      StarvingUnlocks(s, m.c);
    }
  }

  /** A hand-off happens at the k-th move. */
  ghost predicate HandsOffAt(s: State, moves: seq<Move>, k: nat) {
    k < |moves| && var t := After(Step, s, moves, k); moves[k].c < |t.co| && t.co[moves[k].c].Handoff?
  }

  ghost predicate HandsOff(s: State, moves: seq<Move>) {
    exists k: nat :: HandsOffAt(s, moves, k)
  }

  lemma HandsOffLater(s: State, moves: seq<Move>)
    requires moves != [] && HandsOff(Step(s, moves[0]), moves[1..])
    ensures HandsOff(s, moves)
  {
    var k: nat :| HandsOffAt(Step(s, moves[0]), moves[1..], k);
    AfterRest(Step, s, moves, k);
    assert HandsOffAt(s, moves, k + 1);
  }

  lemma SameSize(s: State, m: Move)
    ensures |Step(s, m).co| == |s.co|
  {
  }

  lemma {:induction false} SizeStays(s: State, moves: seq<Move>)
    ensures |Run(Step, s, moves).co| == |s.co|
    decreases |moves|
  {
    if moves != [] {
      SameSize(s, moves[0]);
      SizeStays(Step(s, moves[0]), moves[1..]);
    }
  }

  lemma {:induction false} StarvesOn(s: State, moves: seq<Move>)
    requires Inv(s) && Starving(s.word)
    ensures var t := Run(Step, s, moves);
            && |t.co| == |s.co|
            && (HandsOff(s, moves)
                || (Starving(t.word) && forall i :: 0 <= i < |s.co| && t.co[i].Holding? ==> s.co[i].Holding?))
    decreases |moves|
  {
    if moves != [] {
      var m := moves[0];
      StepKeepsInv(s, m);
      if m.c < |s.co| && !s.co[m.c].Handoff? {
        StarvingStep(s, m);
      }
      if m.c < |s.co| && s.co[m.c].Handoff? {
        SizeStays(s, moves);
        assert After(Step, s, moves, 0) == s;
        assert HandsOffAt(s, moves, 0);
      } else {
        StarvesOn(Step(s, m), moves[1..]);
        if HandsOff(Step(s, m), moves[1..]) {
          SizeStays(s, moves);
          HandsOffLater(s, moves);
        }
      }
    }
  }

  /** Once the mutex starves nobody acquires it, and it goes on starving, until a hand-off,
      in every run. */
  lemma NobodyBarges(n: nat, before: seq<Move>, after: seq<Move>)
    requires Starving(Run(Step, Init(n), before).word)
    ensures var s := Run(Step, Init(n), before);
            var t := Run(Step, s, after);
            && |t.co| == |s.co|
            && (HandsOff(s, after)
                || (Starving(t.word) && forall i :: 0 <= i < |s.co| && t.co[i].Holding? ==> s.co[i].Holding?))
  {
    Reachable(n, before);
    StarvesOn(Run(Step, Init(n), before), after);
  }

  lemma UnlockWord(s: State, h: nat)
    requires Inv(s) && h < |s.co| && s.co[h].Holding? && Starving(s.word)
    ensures s.permits == 0 && StepUnlock(s.word) == Signal
    ensures var w := s.word - 1; Starving(w) && !Locked(w) && Waiters(w) == Waiters(s.word)
  {
    Present(s, h);
    Fields(s.word);
    FieldsOf(false, Woken(s.word), true, Waiters(s.word), s.word - 1);
  }

  /** Unlocking a starving mutex: its one permit. */
  lemma UnlockStarving(s: State, h: nat)
    requires Inv(s) && h < |s.co| && s.co[h].Holding? && Starving(s.word)
    ensures var t := Step(Step(s, Move(h, Unlock)), Go(h));
            Inv(t) && t == State(s.word - 1, 1, s.co[h := Idle]) && Starving(t.word) && !Locked(t.word)
  {
    UnlockWord(s, h);
    var s1 := Step(s, Move(h, Unlock));
    StepKeepsInv(s, Move(h, Unlock));
    StepKeepsInv(s1, Go(h));
    assert s1 == State(s.word - 1, 0, s.co[h := Signal]);
    assert s.co[h := Signal][h := Idle] == s.co[h := Idle];
  }

  /** The heir: a parked coroutine that takes the one permit of a starving mutex. */
  lemma HeirTakes(s: State, w: nat, late: bool)
    requires Inv(s) && w < |s.co| && s.co[w].Parked? && s.permits > 0 && Starving(s.word)
    ensures var t := Step(Step(Step(s, Go(w)), Move(w, Continue(late))), Go(w));
            w < |t.co| && t.co == s.co[w := Holding] && Locked(t.word)
  {
    var s1 := Step(s, Go(w));
    var s2 := Step(s1, Move(w, Continue(late)));
    StepKeepsInv(s, Go(w));
    StepKeepsInv(s1, Move(w, Continue(late)));
    assert s1.word == s.word && s1.co[w].Woke?;
    assert LocalOk(s2.co[w], s2.word);
    assert s2.co[w].Handoff?;
    StepKeepsInv(s2, Go(w));
    Present(Step(s2, Go(w)), w);
  }

  /** In every run the next unlock of a starving mutex makes an heir: any sleeper `w` that
      then takes the permit holds the mutex three steps later, while the unlocker is
      out and nobody else has moved. */
  lemma UnlockMakesHeir(n: nat, moves: seq<Move>, h: nat, w: nat, late: bool)
    requires var s := Run(Step, Init(n), moves);
             h < |s.co| && w < |s.co| && s.co[h].Holding? && s.co[w].Parked? && Starving(s.word)
    ensures var s := Run(Step, Init(n), moves);
            var t := Step(Step(s, Move(h, Unlock)), Go(h));
            var u := Step(Step(Step(t, Go(w)), Move(w, Continue(late))), Go(w));
            && t.permits == 1 && !Locked(t.word) && Starving(t.word)
            && u.co == s.co[h := Idle][w := Holding] && Locked(u.word)
  {
    Reachable(n, moves);
    var s := Run(Step, Init(n), moves);
    UnlockStarving(s, h);
    HeirTakes(Step(Step(s, Move(h, Unlock)), Go(h)), w, late);
  }

  // ------------------------------------------------------- how starving ends

  lemma HeirStep(s: State, m: Move, c: nat)
    requires Inv(s) && Starving(s.word) && c < |s.co| && s.co[c].Handoff? && m.c != c
    ensures var t := Step(s, m); Inv(t) && c < |t.co| && t.co[c] == s.co[c] && Starving(t.word)
  {
    StepKeepsInv(s, m);
    if m.c < |s.co| && !s.co[m.c].Handoff? {
      StarvingStep(s, m);
    } else if m.c < |s.co| {
      CountTwo(s.co, IsHandoff, m.c, c);
      assert false;
    }
  }

  lemma {:induction false} HeirStays(s: State, moves: seq<Move>, c: nat)
    requires Inv(s) && Starving(s.word) && c < |s.co| && s.co[c].Handoff? && forall m :: m in moves ==> m.c != c
    ensures var t := Run(Step, s, moves);
            Inv(t) && c < |t.co| && t.co[c] == s.co[c] && Starving(t.word)
    decreases |moves|
  {
    if moves != [] {
      assert moves[0] in moves && forall m :: m in moves[1..] ==> m in moves;
      HeirStep(s, moves[0], c);
      HeirStays(Step(s, moves[0]), moves[1..], c);
    }
  }

  /** What the two deltas do to the starving bit. */
  lemma DeltaWord(w: int, delta: int)
    requires w >= 0 && !Locked(w) && !Woken(w) && Starving(w)
    requires delta == 1 - 8 - 4 || delta == 1 - 8
    ensures Starving(w + delta) <==> delta == 1 - 8
  {
    Fields(w);
    FieldsOf(true, false, delta == 1 - 8, Waiters(w) - 1, w + delta);
  }

  /** What the heir decides when it looks. */
  lemma HeirLooks(s: State, c: nat, late: bool)
    requires Inv(s) && c < |s.co| && s.co[c].Woke? && Starving(s.word)
    ensures var t := Step(s, Move(c, Continue(late)));
            && Inv(t) && c < |t.co| && t.co[c].Handoff? && t.word == s.word
            && (t.co[c].delta == 1 - 8 <==> (s.co[c].starving || late) && Waiters(s.word) > 1)
  {
    var t := Step(s, Move(c, Continue(late)));
    StepKeepsInv(s, Move(c, Continue(late)));
    assert LocalOk(t.co[c], t.word);
  }

  /** What its hand-off makes of the word. */
  lemma HeirEnds(s: State, c: nat)
    requires Inv(s) && Starving(s.word) && c < |s.co| && s.co[c].Handoff?
    ensures var t := Step(s, Go(c));
            c < |t.co| && t.co[c].Holding? && (Starving(t.word) <==> s.co[c].delta == 1 - 8)
  {
    Present(s, c);
    DeltaWord(s.word, s.co[c].delta);
  }

  /** In every run, the heir of a starving mutex leaves it starving if and only if it was
      late itself and not the last one waiting when it looked, whatever happens
      between its look and its hand-off. */
  lemma StarvationEndsIff(n: nat, before: seq<Move>, c: nat, late: bool, between: seq<Move>)
    requires var s := Run(Step, Init(n), before); c < |s.co| && s.co[c].Woke? && Starving(s.word)
    requires forall m :: m in between ==> m.c != c
    ensures var s := Run(Step, Init(n), before);
            var t := Step(Run(Step, Step(s, Move(c, Continue(late))), between), Go(c));
            && c < |t.co| && t.co[c].Holding?
            && (Starving(t.word) <==> (s.co[c].starving || late) && Waiters(s.word) > 1)
  {
    Reachable(n, before);
    var s := Run(Step, Init(n), before);
    HeirLooks(s, c, late);
    var s1 := Step(s, Move(c, Continue(late)));
    HeirStays(s1, between, c);
    HeirEnds(Run(Step, s1, between), c);
  }
}
