/** `umutex`: a port of Go's sync.Mutex on one packed word and a semaphore. */
module Mutex {
  // Each `Step` performs at most one atomic operation of one coroutine.  The
  // semaphore is the abstract permit counter that module Semaphore justifies:
  // permits are anonymous, so any parked coroutine may take one.
  import opened Interleavings
  import Counter = PermitCounter
  import Lock = OwnerLock

  const MAX_SPIN := 32

  // ---------------------------------------------------------------- the word

  /** The four fields of the packed word; `/` and `%` floor, as the shift and
      mask of a two's-complement word do. */
  predicate Locked(w: int) { w % 2 == 1 }
  predicate Woken(w: int) { w / 2 % 2 == 1 }
  predicate Starving(w: int) { w / 4 % 2 == 1 }
  function Waiters(w: int): int { w / 8 }

  function OrLocked(w: int): int { if Locked(w) then w else w + 1 }
  function OrWoken(w: int): int { if Woken(w) then w else w + 2 }
  function OrStarving(w: int): int { if Starving(w) then w else w + 4 }
  function ClearWoken(w: int): int { if Woken(w) then w - 2 else w }

  /** The fields determine the word. */
  lemma Fields(w: int)
    ensures w == One(Locked(w)) + 2 * One(Woken(w)) + 4 * One(Starving(w)) + 8 * Waiters(w)
  {
    Halve(w);
    Halve(w / 2);
    Halve(w / 4);
    assert w / 2 / 2 == w / 4 && w / 4 / 2 == w / 8;
  }

  lemma Halve(w: int)
    ensures w == One(w % 2 == 1) + 2 * (w / 2)
  {
  }

  lemma FieldsOf(l: bool, k: bool, s: bool, n: int, w: int)
    requires w == One(l) + 2 * One(k) + 4 * One(s) + 8 * n
    ensures Locked(w) == l && Woken(w) == k && Starving(w) == s && Waiters(w) == n
  {
    var lb, kb, sb := One(l), One(k), One(s);
    assert w / 2 == kb + 2 * (sb + 2 * n) by { assert w == 2 * (kb + 2 * (sb + 2 * n)) + lb; }
    assert w / 4 == sb + 2 * n by { assert w == 4 * (sb + 2 * n) + (lb + 2 * kb); }
    assert w / 8 == n by { assert w == 8 * n + (lb + 2 * kb + 4 * sb); }
  }

  // --------------------------------------------------------------- the steps

  datatype Local =
    | Idle
    | Load(starving: bool, awoke: bool, iter: nat)               // about to read the word
    | Decide(seen: int, starving: bool, awoke: bool, iter: nat)   // about to act on the value read
    | Parked(starving: bool)                                     // inside the semaphore's wait
    | Woke(starving: bool)                                       // took a permit, about to read the word
    | Handoff(delta: int)                                        // about to add delta to the word
    | Holding
    | Settle(seen: int)                                           // unlock: about to wake somebody
    | Reload                                                     // unlock: about to read the word again
    | Signal                                                     // unlock: about to signal the semaphore
    | Fatal                                                      // one of the three fatal branches was taken

  datatype State = State(word: int, permits: nat, co: seq<Local>)

  datatype Act = Lock | TryLock | Unlock | Continue(late: bool)

  datatype Move = Move(c: nat, act: Act)

  function Init(n: nat): State {
    State(0, 0, seq(n, _ => Idle))
  }

  /** The word that a locker tries to install over `seen`. */
  function NextWord(seen: int, starving: bool, awoke: bool): int {
    var w := if Starving(seen) then seen else OrLocked(seen);
    var w := if Locked(seen) || Starving(seen) then w + 8 else w;
    var w := if starving && Locked(seen) then OrStarving(w) else w;
    if awoke then ClearWoken(w) else w
  }

  /** The check that precedes the clearing of the woken bit. */
  predicate LostWoken(seen: int, starving: bool, awoke: bool) {
    awoke && !Woken(NextWord(seen, starving, false))
  }

  predicate CanSpin(l: Local)
    requires l.Decide?
  {
    Locked(l.seen) && !Starving(l.seen) && l.iter < MAX_SPIN
  }

  function StepDecide(s: State, l: Local): (int, Local)
    requires l.Decide?
  {
    if CanSpin(l) then
      if !l.awoke && !Woken(l.seen) && Waiters(l.seen) != 0 && s.word == l.seen then
        (OrWoken(l.seen), Load(l.starving, true, l.iter + 1))
      else
        (s.word, Load(l.starving, l.awoke, l.iter + 1))
    else if LostWoken(l.seen, l.starving, l.awoke) then
      (s.word, Fatal)
    else if s.word == l.seen then
      (NextWord(l.seen, l.starving, l.awoke),
       if !Locked(l.seen) && !Starving(l.seen) then Holding else Parked(l.starving))
    else
      (s.word, Load(l.starving, l.awoke, l.iter))
  }

  /** A woken coroutine reads the word: either the lock was handed to it, or it
      competes again, owning the woken bit. */
  function StepWoke(s: State, starving: bool): Local {
    if Starving(s.word) then
      if Locked(s.word) || Woken(s.word) || Waiters(s.word) == 0 then Fatal
      else Handoff(if !starving || Waiters(s.word) == 1 then 1 - 8 - 4 else 1 - 8)
    else
      Decide(s.word, starving, true, 0)
  }

  function StepUnlock(seen: int): Local {
    if seen == 1 then Idle
    else if !Locked(seen) then Fatal
    else if !Starving(seen - 1) then Settle(seen - 1)
    else Signal
  }

  predicate NobodyToWake(seen: int) {
    Waiters(seen) == 0 || Locked(seen) || Woken(seen) || Starving(seen)
  }

  function StepSettle(s: State, seen: int): (int, Local) {
    if NobodyToWake(seen) then (s.word, Idle)
    else if s.word == seen then (OrWoken(seen - 8), Signal)
    else (s.word, Reload)
  }

  function Step(s: State, m: Move): State {
    if m.c >= |s.co| then s else
    match (s.co[m.c], m.act)
    case (Idle, Lock) =>
      if s.word == 0 then At(s, m.c, 1, Holding) else At(s, m.c, s.word, Load(false, false, 0))
    case (Idle, TryLock) =>
      if s.word == 0 then At(s, m.c, 1, Holding) else s
    case (Load(starving, awoke, iter), Continue(_)) =>
      At(s, m.c, s.word, Decide(s.word, starving, awoke, iter))
    case (Decide(_, _, _, _), Continue(_)) =>
      var (w, l) := StepDecide(s, s.co[m.c]);
      At(s, m.c, w, l)
    case (Parked(starving), Continue(_)) =>
      if s.permits == 0 then s
      else At(s, m.c, s.word, Woke(starving)).(permits := s.permits - 1)
    case (Woke(starving), Continue(late)) =>
      At(s, m.c, s.word, StepWoke(s, starving || late))
    case (Handoff(delta), Continue(_)) =>
      At(s, m.c, s.word + delta, Holding)
    case (Holding, Unlock) =>
      At(s, m.c, s.word - 1, StepUnlock(s.word))
    case (Settle(seen), Continue(_)) =>
      var (w, l) := StepSettle(s, seen);
      At(s, m.c, w, l)
    case (Reload, Continue(_)) =>
      At(s, m.c, s.word, Settle(s.word))
    case (Signal, Continue(_)) =>
      At(s, m.c, s.word, Idle).(permits := s.permits + 1)
    case _ => s
  }

  function At(s: State, c: nat, word: int, l: Local): State
    requires c < |s.co|
  {
    s.(word := word, co := s.co[c := l])
  }

  // ---------------------------------------------------------- the invariant

  predicate IsHolding(l: Local) { l.Holding? }
  predicate IsParked(l: Local) { l.Parked? }
  predicate IsSignal(l: Local) { l.Signal? }
  predicate IsWoke(l: Local) { l.Woke? }
  predicate IsHandoff(l: Local) { l.Handoff? }
  predicate IsAwoke(l: Local) { (l.Load? || l.Decide?) && l.awoke }

  /** An unlocker that is bound to wake somebody unless the word changes. */
  predicate IsWaking(l: Local) { l.Reload? || (l.Settle? && !NobodyToWake(l.seen)) }

  ghost function Holders(s: State): nat { Count(s.co, IsHolding) }
  ghost function Sleepers(s: State): nat { Count(s.co, IsParked) }
  ghost function Wakers(s: State): nat { Count(s.co, IsWaking) }

  /** Permits issued or about to be issued. */
  ghost function Issued(s: State): nat { Count(s.co, IsSignal) + s.permits }

  /** Coroutines to which the lock is being handed, when the mutex starves. */
  ghost function Heirs(s: State): nat { Count(s.co, IsWoke) + Count(s.co, IsHandoff) }

  ghost function Tokens(s: State): nat { Issued(s) + Heirs(s) + Count(s.co, IsAwoke) }

  ghost predicate LocalOk(l: Local, word: int) {
    match l
    case Load(starving, awoke, _) => starving ==> awoke
    case Decide(seen, starving, awoke, _) =>
      seen >= 0 && (starving ==> awoke) && (awoke ==> Woken(seen) && !Starving(seen))
    case Handoff(delta) => delta == 1 - 8 - 4 || (delta == 1 - 8 && Waiters(word) >= 2)
    case Settle(seen) => seen >= 0
    case Fatal => false
    case _ => true
  }

  /** The mode the word is in agrees with who owns a token. */
  ghost predicate ModeOk(s: State) {
    if Starving(s.word) then
      && !Woken(s.word) && Waiters(s.word) >= 1
      && Tokens(s) == 1 - One(Locked(s.word))
      && Count(s.co, IsAwoke) == 0
    else
      && Tokens(s) == One(Woken(s.word))
      && Count(s.co, IsHandoff) == 0
  }

  /** The waiter field against the coroutines really parked. */
  ghost predicate WaitersOk(s: State) {
    if Starving(s.word) then Waiters(s.word) == Sleepers(s) + Heirs(s)
    else Waiters(s.word) + Issued(s) == Sleepers(s)
  }

  ghost predicate Inv(s: State) {
    && s.word >= 0
    && Holders(s) == One(Locked(s.word))
    && ModeOk(s)
    && WaitersOk(s)
    && (!Locked(s.word) && Waiters(s.word) > 0 ==> Tokens(s) + Wakers(s) > 0)
    && AllOk(s.co, s.word)
  }

  ghost predicate AllOk(co: seq<Local>, word: int) {
    forall i :: 0 <= i < |co| ==> LocalOk(co[i], word)
  }

  lemma InitInv(n: nat)
    ensures Inv(Init(n))
  {
    var co := Init(n).co;
    CountNone(co, IsHolding);
    CountNone(co, IsParked);
    CountNone(co, IsSignal);
    CountNone(co, IsWoke);
    CountNone(co, IsHandoff);
    CountNone(co, IsAwoke);
  }

  /** How the counts move when coroutine `c` goes to local state `l`. */
  lemma Moved(s: State, c: nat, w: int, l: Local)
    requires c < |s.co|
    ensures var t, o := At(s, c, w, l), s.co[c];
            && Holders(t) == Holders(s) - One(o.Holding?) + One(l.Holding?)
            && Sleepers(t) == Sleepers(s) - One(o.Parked?) + One(l.Parked?)
            && Wakers(t) == Wakers(s) - One(IsWaking(o)) + One(IsWaking(l))
            && Count(t.co, IsSignal) == Count(s.co, IsSignal) - One(o.Signal?) + One(l.Signal?)
            && Count(t.co, IsWoke) == Count(s.co, IsWoke) - One(o.Woke?) + One(l.Woke?)
            && Count(t.co, IsHandoff) == Count(s.co, IsHandoff) - One(o.Handoff?) + One(l.Handoff?)
            && Count(t.co, IsAwoke) == Count(s.co, IsAwoke) - One(IsAwoke(o)) + One(IsAwoke(l))
  {
    CountUpdate(s.co, c, l, IsHolding);
    CountUpdate(s.co, c, l, IsParked);
    CountUpdate(s.co, c, l, IsWaking);
    CountUpdate(s.co, c, l, IsSignal);
    CountUpdate(s.co, c, l, IsWoke);
    CountUpdate(s.co, c, l, IsHandoff);
    CountUpdate(s.co, c, l, IsAwoke);
  }

  /** A coroutine that is counted makes its count positive. */
  lemma Present(s: State, c: nat)
    requires c < |s.co|
    ensures s.co[c].Holding? ==> Holders(s) > 0
    ensures s.co[c].Parked? ==> Sleepers(s) > 0
    ensures s.co[c].Signal? ==> Count(s.co, IsSignal) > 0
    ensures s.co[c].Woke? ==> Count(s.co, IsWoke) > 0
    ensures s.co[c].Handoff? ==> Count(s.co, IsHandoff) > 0
    ensures IsAwoke(s.co[c]) ==> Count(s.co, IsAwoke) > 0
  {
    CountNone(s.co, IsHolding);
    CountNone(s.co, IsParked);
    CountNone(s.co, IsSignal);
    CountNone(s.co, IsWoke);
    CountNone(s.co, IsHandoff);
    CountNone(s.co, IsAwoke);
  }

  /** Nobody's snapshot is spoilt by the move: only a pending hand-off looks at
      the current word, and while one is pending the waiter field only grows. */
  lemma LocalsKept(s: State, c: nat, w: int, l: Local)
    requires Inv(s) && c < |s.co| && LocalOk(l, w)
    requires s.co[c].Handoff? || Waiters(w) >= Waiters(s.word) || !Starving(s.word) || Locked(s.word)
    ensures AllOk(s.co[c := l], w)
  {
    forall i | 0 <= i < |s.co| && i != c ensures LocalOk(s.co[i], w) {
      if s.co[i].Handoff? {
        Present(s, i);
        if s.co[c].Handoff? {
          CountTwo(s.co, IsHandoff, i, c);
        }
      }
    }
  }

  /** The fast path of lock, and try_lock: the word was zero. */
  lemma TakeFree(s: State, c: nat)
    requires Inv(s) && c < |s.co| && s.co[c].Idle? && s.word == 0
    ensures Inv(At(s, c, 1, Holding))
  {
    Moved(s, c, 1, Holding);
    LocalsKept(s, c, 1, Holding);
  }

  /** Steps that leave the word and all counts of tokens alone. */
  lemma Private(s: State, c: nat, l: Local)
    requires Inv(s) && c < |s.co| && LocalOk(l, s.word)
    requires (s.co[c].Idle? && l.Load? && !l.awoke)
          || (s.co[c].Load? && l.Decide? && l.awoke == s.co[c].awoke)
          || (s.co[c].Decide? && l.Load? && l.awoke == s.co[c].awoke)
          || (s.co[c].Settle? && l.Reload?)
          || (s.co[c].Settle? && l.Idle? && NobodyToWake(s.co[c].seen))
          || (s.co[c].Reload? && l == Settle(s.word))
    ensures Inv(At(s, c, s.word, l))
  {
    Moved(s, c, s.word, l);
    LocalsKept(s, c, s.word, l);
  }

  /** A spinner sets the woken bit and thereby owns the token. */
  lemma SpinKeeps(s: State, c: nat, l: Local)
    requires Inv(s) && c < |s.co| && s.co[c].Decide? && !s.co[c].awoke && l.Load? && l.awoke
    requires Locked(s.word) && !Starving(s.word) && !Woken(s.word)
    ensures Inv(At(s, c, OrWoken(s.word), l))
  {
    var w := OrWoken(s.word);
    Fields(s.word);
    FieldsOf(true, true, false, Waiters(s.word), w);
    Moved(s, c, w, l);
    LocalsKept(s, c, w, l);
  }

  /** The fields of the word that a locker installs. */
  lemma NextWordFields(seen: int, starving: bool, awoke: bool)
    requires seen >= 0 && (starving ==> awoke) && (awoke ==> Woken(seen) && !Starving(seen))
    ensures !LostWoken(seen, starving, awoke)
    ensures var w := NextWord(seen, starving, awoke);
            && w >= 0
            && Locked(w) == (Locked(seen) || !Starving(seen))
            && Woken(w) == (Woken(seen) && !awoke)
            && Starving(w) == (Starving(seen) || (starving && Locked(seen)))
            && Waiters(w) == Waiters(seen) + One(Locked(seen) || Starving(seen))
  {
    Fields(seen);
    var l := Locked(seen) || !Starving(seen);
    var n := Waiters(seen) + One(Locked(seen) || Starving(seen));
    var st := Starving(seen) || (starving && Locked(seen));
    var w0 := if Starving(seen) then seen else OrLocked(seen);
    FieldsOf(l, Woken(seen), Starving(seen), Waiters(seen), w0);
    var w1 := if Locked(seen) || Starving(seen) then w0 + 8 else w0;
    FieldsOf(l, Woken(seen), Starving(seen), n, w1);
    var w2 := if starving && Locked(seen) then OrStarving(w1) else w1;
    FieldsOf(l, Woken(seen), st, n, w2);
    FieldsOf(l, Woken(seen) && !awoke, st, n, NextWord(seen, starving, awoke));
  }

  /** A locker's compare-and-swap takes the lock or registers a waiter. */
  lemma InstallKeeps(s: State, c: nat)
    requires Inv(s) && c < |s.co| && s.co[c].Decide? && s.co[c].seen == s.word
    ensures var l := s.co[c];
            var free := !Locked(s.word) && !Starving(s.word);
            Inv(At(s, c, NextWord(s.word, l.starving, l.awoke), if free then Holding else Parked(l.starving)))
  {
    var l := s.co[c];
    var w := NextWord(s.word, l.starving, l.awoke);
    var l' := if !Locked(s.word) && !Starving(s.word) then Holding else Parked(l.starving);
    NextWordFields(s.word, l.starving, l.awoke);
    Present(s, c);
    Moved(s, c, w, l');
    LocalsKept(s, c, w, l');
  }

  lemma DecideKeeps(s: State, c: nat)
    requires Inv(s) && c < |s.co| && s.co[c].Decide?
    ensures var (w, l) := StepDecide(s, s.co[c]); Inv(At(s, c, w, l))
  {
    var l := s.co[c];
    if CanSpin(l) {
      if !l.awoke && !Woken(l.seen) && Waiters(l.seen) != 0 && s.word == l.seen {
        SpinKeeps(s, c, Load(l.starving, true, l.iter + 1));
      } else {
        Private(s, c, Load(l.starving, l.awoke, l.iter + 1));
      }
    } else {
      NextWordFields(l.seen, l.starving, l.awoke);
      if s.word == l.seen {
        InstallKeeps(s, c);
      } else {
        Private(s, c, Load(l.starving, l.awoke, l.iter));
      }
    }
  }

  /** A parked coroutine takes a permit. */
  lemma TakePermitKeeps(s: State, c: nat)
    requires Inv(s) && c < |s.co| && s.co[c].Parked? && s.permits > 0
    ensures Inv(At(s, c, s.word, Woke(s.co[c].starving)).(permits := s.permits - 1))
  {
    Moved(s, c, s.word, Woke(s.co[c].starving));
    LocalsKept(s, c, s.word, Woke(s.co[c].starving));
  }

  lemma WokeKeeps(s: State, c: nat, starving: bool)
    requires Inv(s) && c < |s.co| && s.co[c].Woke?
    ensures Inv(At(s, c, s.word, StepWoke(s, starving)))
  {
    Present(s, c);
    var l := StepWoke(s, starving);
    Moved(s, c, s.word, l);
    LocalsKept(s, c, s.word, l);
  }

  /** The hand-off sets the locked bit and takes one waiter off, without a
      borrow from the waiter field or into it. */
  lemma HandoffKeeps(s: State, c: nat)
    requires Inv(s) && c < |s.co| && s.co[c].Handoff?
    ensures Inv(At(s, c, s.word + s.co[c].delta, Holding))
  {
    Present(s, c);
    var w := s.word + s.co[c].delta;
    Fields(s.word);
    FieldsOf(true, false, s.co[c].delta == 1 - 8, Waiters(s.word) - 1, w);
    Moved(s, c, w, Holding);
    LocalsKept(s, c, w, Holding);
  }

  /** The unlocker of a starving mutex is about to signal; otherwise it is about to look
      for somebody to wake, or has nobody to wake. */
  lemma UnlockCounts(s: State, c: nat, w: int, l: Local)
    requires Inv(s) && c < |s.co| && s.co[c].Holding? && w >= 0
    requires Locked(s.word) && !Locked(w) && Woken(w) == Woken(s.word) && Starving(w) == Starving(s.word)
    requires Waiters(w) == Waiters(s.word)
    requires if Starving(w) then l == Signal else l == Settle(w) || (l == Idle && Waiters(w) == 0)
    ensures Inv(At(s, c, w, l))
  {
    Present(s, c);
    Moved(s, c, w, l);
    LocalsKept(s, c, w, l);
  }

  lemma UnlockKeeps(s: State, c: nat)
    requires Inv(s) && c < |s.co| && s.co[c].Holding?
    ensures Inv(At(s, c, s.word - 1, StepUnlock(s.word)))
  {
    Present(s, c);
    Fields(s.word);
    FieldsOf(false, Woken(s.word), Starving(s.word), Waiters(s.word), s.word - 1);
    UnlockCounts(s, c, s.word - 1, StepUnlock(s.word));
  }

  /** The unlocker takes one waiter off and owns the woken bit until it has signalled. */
  lemma SettleCounts(s: State, c: nat, w: int)
    requires Inv(s) && c < |s.co| && s.co[c].Settle? && w >= 0 && !NobodyToWake(s.word)
    requires !Locked(w) && Woken(w) && !Starving(w) && Waiters(w) == Waiters(s.word) - 1
    ensures Inv(At(s, c, w, Signal))
  {
    Moved(s, c, w, Signal);
    LocalsKept(s, c, w, Signal);
  }

  /** The word an unlocker installs to wake somebody. */
  lemma SettleWord(w: int)
    requires w >= 0 && !NobodyToWake(w)
    ensures var u := OrWoken(w - 8);
            u >= 0 && !Locked(u) && Woken(u) && !Starving(u) && Waiters(u) == Waiters(w) - 1
  {
    Fields(w);
    FieldsOf(false, false, false, Waiters(w) - 1, w - 8);
    FieldsOf(false, true, false, Waiters(w) - 1, OrWoken(w - 8));
  }

  lemma SettleKeeps(s: State, c: nat)
    requires Inv(s) && c < |s.co| && s.co[c].Settle?
    ensures var (w, l) := StepSettle(s, s.co[c].seen); Inv(At(s, c, w, l))
  {
    var seen := s.co[c].seen;
    if NobodyToWake(seen) {
      Private(s, c, Idle);
    } else if s.word == seen {
      SettleWord(seen);
      SettleCounts(s, c, OrWoken(seen - 8));
    } else {
      Private(s, c, Reload);
    }
  }

  lemma SignalKeeps(s: State, c: nat)
    requires Inv(s) && c < |s.co| && s.co[c].Signal?
    ensures Inv(At(s, c, s.word, Idle).(permits := s.permits + 1))
  {
    Moved(s, c, s.word, Idle);
    LocalsKept(s, c, s.word, Idle);
  }

  lemma LockerKeeps(s: State, m: Move)
    requires Inv(s) && m.c < |s.co| && m.act.Continue?
    requires var l := s.co[m.c]; l.Load? || l.Decide? || l.Parked? || l.Woke? || l.Handoff?
    ensures Inv(Step(s, m))
  {
    match s.co[m.c]
    case Load(starving, awoke, iter) =>
      Present(s, m.c);
      Private(s, m.c, Decide(s.word, starving, awoke, iter));
    case Decide(_, _, _, _) => DecideKeeps(s, m.c);
    case Parked(_) =>
      if s.permits > 0 { TakePermitKeeps(s, m.c); }
    case Woke(starving) => WokeKeeps(s, m.c, starving || m.act.late);
    case Handoff(_) => HandoffKeeps(s, m.c);
  }

  lemma UnlockerKeeps(s: State, m: Move)
    requires Inv(s) && m.c < |s.co| && m.act.Continue?
    requires var l := s.co[m.c]; l.Settle? || l.Reload? || l.Signal?
    ensures Inv(Step(s, m))
  {
    match s.co[m.c]
    case Settle(_) => SettleKeeps(s, m.c);
    case Reload => Private(s, m.c, Settle(s.word));
    case Signal => SignalKeeps(s, m.c);
  }

  lemma CallKeeps(s: State, m: Move)
    requires Inv(s) && m.c < |s.co| && !m.act.Continue?
    ensures Inv(Step(s, m))
  {
    if s.co[m.c].Idle? && !m.act.Unlock? {
      if s.word == 0 {
        TakeFree(s, m.c);
      } else if m.act.Lock? {
        Private(s, m.c, Load(false, false, 0));
      }
    } else if s.co[m.c].Holding? && m.act.Unlock? {
      UnlockKeeps(s, m.c);
    }
  }

  lemma StepKeepsInv(s: State, m: Move)
    requires Inv(s)
    ensures Inv(Step(s, m))
  {
    if m.c >= |s.co| {
    } else if !m.act.Continue? {
      CallKeeps(s, m);
    } else if var l := s.co[m.c]; l.Settle? || l.Reload? || l.Signal? {
      UnlockerKeeps(s, m);
    } else if !s.co[m.c].Idle? && !s.co[m.c].Holding? && !s.co[m.c].Fatal? {
      LockerKeeps(s, m);
    }
  }

  // ------------------------------------------------------------ every run

  lemma Reachable(n: nat, moves: seq<Move>)
    ensures Inv(Run(Step, Init(n), moves))
    ensures |Run(Step, Init(n), moves).co| == n
  {
    var inv := (s: State) => Inv(s) && |s.co| == n;
    InitInv(n);
    forall s, m | inv(s) ensures inv(Step(s, m)) {
      StepKeepsInv(s, m);
    }
    RunKeeps(Step, inv, Init(n), moves);
  }

  /** In every interleaving of any number of coroutines at most one holds the
      mutex, one does exactly when the locked bit is set, and no fatal branch is
      ever taken. */
  lemma MutualExclusion(n: nat, moves: seq<Move>)
    ensures var s := Run(Step, Init(n), moves);
            && (forall i, j :: 0 <= i < |s.co| && 0 <= j < |s.co| && s.co[i].Holding? && s.co[j].Holding? ==> i == j)
            && (Locked(s.word) <==> exists i :: 0 <= i < |s.co| && s.co[i].Holding?)
            && (forall i :: 0 <= i < |s.co| ==> !s.co[i].Fatal?)
  {
    Reachable(n, moves);
    var s := Run(Step, Init(n), moves);
    CountNone(s.co, IsHolding);
    forall i, j | 0 <= i < |s.co| && 0 <= j < |s.co| && s.co[i].Holding? && s.co[j].Holding? ensures i == j {
      if i != j { CountTwo(s.co, IsHolding, i, j); }
    }
  }

  /** The packed word stays a clean record: no field borrows from another, the
      waiter field never exceeds the population (so fewer than 2^28 coroutines
      cannot overflow a 32-bit word), and the starving bit excludes the woken bit
      and an empty waiter field. */
  lemma WordInBounds(n: nat, moves: seq<Move>)
    ensures var s := Run(Step, Init(n), moves);
            && 0 <= Waiters(s.word) <= n
            && 0 <= s.word < 8 * (n + 1)
            && (Starving(s.word) ==> !Woken(s.word) && Waiters(s.word) >= 1)
  {
    Reachable(n, moves);
    var s := Run(Step, Init(n), moves);
    Fields(s.word);
    OneOf(s);
  }

  predicate Anybody(l: Local) { l.Parked? || l.Woke? || l.Handoff? }

  /** Parked coroutines and heirs are different coroutines. */
  lemma OneOf(s: State)
    ensures Sleepers(s) + Heirs(s) <= |s.co|
  {
    var a, b, d := Members(s.co, IsParked), Members(s.co, IsWoke), Members(s.co, IsHandoff);
    assert a !! b && (a + b) !! d;
    assert Members(s.co, Anybody) == a + b + d;
    CountBound(s.co, Anybody);
  }

  /** Waiters are never stranded: with the mutex free and a waiter registered,
      some coroutine or permit is on its way to wake one, and at most one token
      is ever in circulation. */
  lemma NeverStrands(n: nat, moves: seq<Move>)
    ensures var s := Run(Step, Init(n), moves);
            && Tokens(s) <= 1
            && (!Locked(s.word) && Waiters(s.word) > 0 ==> Tokens(s) == 1 || Wakers(s) > 0)
  {
    Reachable(n, moves);
  }

  /** In starvation mode nobody barges: in every run, whoever becomes the holder is the one
      heir, woken while the lock was free; it takes the lock and one waiter off, and
      nobody else is on the way. */
  lemma StarvingOnlyHandsOff(n: nat, moves: seq<Move>, m: Move, i: nat)
    requires var s := Run(Step, Init(n), moves);
             Starving(s.word) && i < |s.co| && !s.co[i].Holding? && i < |Step(s, m).co| && Step(s, m).co[i].Holding?
    ensures var s := Run(Step, Init(n), moves);
            && i == m.c && s.co[i].Handoff? && Holders(s) == 0 && Heirs(s) == Tokens(s) == 1
            && Locked(Step(s, m).word) && Waiters(Step(s, m).word) == Waiters(s.word) - 1
            && Holders(Step(s, m)) == 1 && Tokens(Step(s, m)) == 0
  {
    Reachable(n, moves);
    var s := Run(Step, Init(n), moves);
    HandsOff(s, m, i);
  }

  lemma HandsOff(s: State, m: Move, i: nat)
    requires Inv(s) && Starving(s.word) && i < |s.co| && !s.co[i].Holding?
    requires i < |Step(s, m).co| && Step(s, m).co[i].Holding?
    ensures i == m.c && s.co[i].Handoff? && Holders(s) == 0 && Heirs(s) == Tokens(s) == 1
    ensures Locked(Step(s, m).word) && Waiters(Step(s, m).word) == Waiters(s.word) - 1
    ensures Holders(Step(s, m)) == 1 && Tokens(Step(s, m)) == 0
  {
    assert i == m.c && s.co[i].Handoff?;
    Present(s, i);
    Fields(s.word);
    FieldsOf(true, false, s.co[i].delta == 1 - 8, Waiters(s.word) - 1, s.word + s.co[i].delta);
    Moved(s, i, s.word + s.co[i].delta, Holding);
  }

  /** When everybody has either left or sleeps and no permit is on offer, nobody
      sleeps and the word is back to zero. */
  lemma QuietMeansFree(n: nat, moves: seq<Move>)
    ensures var s := Run(Step, Init(n), moves);
            s.permits == 0 && (forall i :: 0 <= i < |s.co| ==> s.co[i].Idle? || s.co[i].Parked?)
            ==> s.word == 0 && forall i :: 0 <= i < |s.co| ==> s.co[i].Idle?
  {
    Reachable(n, moves);
    var s := Run(Step, Init(n), moves);
    if s.permits == 0 && forall i :: 0 <= i < |s.co| ==> s.co[i].Idle? || s.co[i].Parked? {
      CountNone(s.co, IsHolding);
      CountNone(s.co, IsParked);
      CountNone(s.co, IsWaking);
      CountNone(s.co, IsSignal);
      CountNone(s.co, IsWoke);
      CountNone(s.co, IsHandoff);
      CountNone(s.co, IsAwoke);
      Fields(s.word);
    }
  }

  // ------------------------------------------------- the semaphore it stands on

  function PhaseOf(l: Local): Counter.Phase {
    if l.Parked? then Counter.Wanting else Counter.Out
  }

  /** The counting semaphore as the mutex sees it. */
  function Permits(s: State): Counter.State {
    Counter.State(s.permits, false, Phases(s.co, PhaseOf))
  }

  /** What a step of the mutex does to its semaphore the counting semaphore, and so `usema`,
      can do. */
  lemma MovesCounter(s: State, m: Move) returns (abs: seq<Counter.Move>)
    ensures Counter.Block(Permits(s), m.c, abs)
    ensures Permits(Step(s, m)) == Run(Counter.Step, Permits(s), abs)
  {
    abs := [];
    if m.c < |s.co| {
      var t := Step(s, m);
      assert t.co == s.co[m.c := t.co[m.c]];
      PhaseUpdate(s.co, PhaseOf, m.c, t.co[m.c]);
      abs := Counter.UserMoves(Permits(s), Permits(t), m.c);
    }
  }

  /** And whatever the counting semaphore can do for a parked coroutine, a step of the mutex
      takes up: nothing else moves. */
  lemma CounterServes(s: State, c: nat, late: bool)
    requires Counter.Enabled(Permits(s), Counter.Take(c))
    ensures var t := Step(s, Move(c, Continue(late)));
            && Permits(t) == Run(Counter.Step, Permits(s), [Counter.Take(c), Counter.Return(c)])
            && t.word == s.word
  {
    var t := Step(s, Move(c, Continue(late)));
    PhaseUpdate(s.co, PhaseOf, c, t.co[c]);
    Counter.TakeReturn(Permits(s), c);
  }

  // ---------------------------------------------------- the lock it stands for

  function LockPhase(l: Local): Lock.Phase {
    match l
    case Holding => Lock.Holding
    case Idle | Settle(_) | Reload | Signal => Lock.Out
    case _ => Lock.Wanting
  }

  /** The mutex as its users see it. */
  function AsLock(s: State): Lock.State {
    Lock.State(Locked(s.word), Phases(s.co, LockPhase))
  }

  /** The locked bit follows the holders. */
  lemma BitMoves(s: State, t: State, c: nat, l: Local)
    requires Inv(s) && Inv(t) && c < |s.co| && t.co == s.co[c := l]
    ensures if l.Holding? && !s.co[c].Holding? then !Locked(s.word) && Locked(t.word)
            else if s.co[c].Holding? && !l.Holding? then !Locked(t.word)
            else Locked(t.word) == Locked(s.word)
  {
    CountUpdate(s.co, c, l, IsHolding);
    Present(s, c);
  }

  /** Nobody leaves lock without the mutex, or unlock with it. */
  predicate Onward(o: Local, l: Local) {
    && (LockPhase(o).Wanting? ==> !LockPhase(l).Out?)
    && (LockPhase(o).Holding? ==> !LockPhase(l).Wanting?)
  }

  lemma DecideOnward(s: State, l: Local)
    requires l.Decide?
    ensures Onward(l, StepDecide(s, l).1)
  {
  }

  lemma OthersOnward(s: State, c: nat, act: Act)
    requires c < |s.co| && !s.co[c].Decide? && !s.co[c].Holding?
    ensures var t := Step(s, Move(c, act)); c < |t.co| && t.co == s.co[c := t.co[c]] && Onward(s.co[c], t.co[c])
  {
  }

  lemma PhaseMoves(s: State, m: Move)
    requires Inv(s) && Inv(Step(s, m)) && m.c < |s.co|
    ensures var t := Step(s, m); m.c < |t.co| && t.co == s.co[m.c := t.co[m.c]] && Onward(s.co[m.c], t.co[m.c])
  {
    if s.co[m.c].Decide? {
      DecideOnward(s, s.co[m.c]);
    } else if s.co[m.c].Holding? {
      var t := Step(s, m);
      assert LocalOk(t.co[m.c], t.word);
    } else {
      OthersOnward(s, m.c, m.act);
    }
  }

  /** Every atomic operation of the mutex is one block of the owner lock. */
  lemma StepRefinesLock(s: State, m: Move) returns (abs: seq<Lock.Move>)
    requires Inv(s)
    ensures Lock.Block(AsLock(s), m.c, abs) && AsLock(Step(s, m)) == Run(Lock.Step, AsLock(s), abs)
  {
    abs := [];
    if m.c < |s.co| {
      var t := Step(s, m);
      StepKeepsInv(s, m);
      PhaseMoves(s, m);
      BitMoves(s, t, m.c, t.co[m.c]);
      PhaseUpdate(s.co, LockPhase, m.c, t.co[m.c]);
      abs := Lock.UserMoves(AsLock(s), AsLock(t), m.c);
    }
  }

  ghost predicate Explains(s: State, t: State, c: nat, abs: seq<Lock.Move>) {
    Lock.Block(AsLock(s), c, abs) && AsLock(t) == Run(Lock.Step, AsLock(s), abs)
  }

  /** Every run of the mutex is a run of the owner lock, operation by operation. */
  lemma {:induction false} RunRefinesLock(s: State, moves: seq<Move>) returns (blocks: seq<seq<Lock.Move>>)
    requires Inv(s)
    ensures |blocks| == |moves|
    ensures forall k :: 0 <= k < |moves| ==>
              Explains(After(Step, s, moves, k), After(Step, s, moves, k + 1), moves[k].c, blocks[k])
    ensures AsLock(Run(Step, s, moves)) == Run(Lock.Step, AsLock(s), Joined(blocks))
    decreases |moves|
  {
    blocks := [];
    if moves != [] {
      var first := StepRefinesLock(s, moves[0]);
      StepKeepsInv(s, moves[0]);
      var rest := RunRefinesLock(Step(s, moves[0]), moves[1..]);
      blocks := [first] + rest;
      forall k | 0 <= k < |moves|
        ensures Explains(After(Step, s, moves, k), After(Step, s, moves, k + 1), moves[k].c, blocks[k])
      {
        AfterRest(Step, s, moves, k);
        if k > 0 {
          AfterRest(Step, s, moves, k - 1);
        }
      }
      RunMore(Lock.Step, AsLock(s), first, Joined(rest));
    }
  }

  /** So it is from the beginning. */
  lemma IsOwnerLock(n: nat, moves: seq<Move>) returns (blocks: seq<seq<Lock.Move>>)
    ensures |blocks| == |moves|
    ensures forall k :: 0 <= k < |moves| ==>
              Explains(After(Step, Init(n), moves, k), After(Step, Init(n), moves, k + 1), moves[k].c, blocks[k])
    ensures AsLock(Run(Step, Init(n), moves))
         == Run(Lock.Step, Lock.State(false, seq(n, _ => Lock.Out)), Joined(blocks))
  {
    InitInv(n);
    assert Phases(Init(n).co, LockPhase) == seq(n, _ => Lock.Out);
    blocks := RunRefinesLock(Init(n), moves);
  }
}
