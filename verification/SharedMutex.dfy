/** `ushared_mutex` (the compiled variant): a port of Go's sync.RWMutex. */
module SharedMutex {
  // A reader count, a countdown, two semaphores and a mutex among writers.  Each
  // `Step` performs one atomic operation of one coroutine.  The writer mutex and the
  // semaphores are the abstractions that modules Mutex and Semaphore justify: an
  // owner bit, and anonymous permit counts.
  import opened Collections
  import opened Interleavings
  import Counter = PermitCounter
  import Lock = OwnerLock

  /** Subtracted from the reader count by a registered writer. */
  const MAX_READERS := 0x4000_0000

  datatype Local =
    | Idle
    // lock
    | WantWriter           // about to lock the writer mutex
    | Announce             // owns it; about to subtract MAX_READERS
    | Settle(r: int)       // announced over r readers; about to add r to the countdown
    | AwaitReaders         // about to take a writer permit
    | Writing              // in the exclusive section
    // unlock
    | Admit(k: nat)        // about to issue k reader permits, then to free the writer mutex
    // try_lock
    | TryAnnounce          // owns the writer mutex; about to compare-and-swap the reader count
    | BackOff              // about to free the writer mutex
    // lock_shared, try_lock_shared
    | AwaitWriter          // about to take a reader permit
    | TryEnter(seen: int)  // about to compare-and-swap the reader count
    | Reading              // in the shared section
    // unlock_shared
    | CountDown            // about to decrement the countdown
    | ReleaseWriter        // about to issue the writer permit
    | Fatal

  datatype State = State(
    owned: bool,           // the writer mutex
    readers: int,
    readerWait: int,
    readerPermits: nat,
    writerPermits: nat,
    co: seq<Local>)

  datatype Act = Lock | TryLock | LockShared | TryLockShared | Unlock | Continue(spurious: bool)

  datatype Move = Move(c: nat, act: Act)

  function Init(n: nat): State {
    State(false, 0, 0, 0, 0, seq(n, _ => Idle))
  }

  // --------------------------------------------------------------- the steps

  function At(s: State, c: nat, l: Local): State
    requires c < |s.co|
  {
    s.(co := s.co[c := l])
  }

  function StepWriter(s: State, c: nat): State
    requires c < |s.co|
  {
    match s.co[c]
    case WantWriter =>
      if s.owned then s else At(s, c, Announce).(owned := true)
    case Announce =>
      At(s, c, if s.readers == 0 then Writing else Settle(s.readers)).(readers := s.readers - MAX_READERS)
    case Settle(r) =>
      At(s, c, if s.readerWait != -r then AwaitReaders else Writing).(readerWait := s.readerWait + r)
    case AwaitReaders =>
      if s.writerPermits == 0 then s else At(s, c, Writing).(writerPermits := s.writerPermits - 1)
    case TryAnnounce =>
      if s.readers == 0 then At(s, c, Writing).(readers := -MAX_READERS) else At(s, c, BackOff)
    case BackOff =>
      At(s, c, Idle).(owned := false)
    case Admit(k) =>
      if k > 0 then At(s, c, Admit(k - 1)).(readerPermits := s.readerPermits + 1)
      else At(s, c, Idle).(owned := false)
    case _ => s
  }

  function StepReader(s: State, c: nat, spurious: bool): State
    requires c < |s.co|
  {
    match s.co[c]
    case AwaitWriter =>
      if s.readerPermits == 0 then s else At(s, c, Reading).(readerPermits := s.readerPermits - 1)
    case TryEnter(seen) =>
      if seen < 0 then At(s, c, Idle)
      else if s.readers == seen && !spurious then At(s, c, Reading).(readers := seen + 1)
      else At(s, c, TryEnter(s.readers))
    case CountDown =>
      At(s, c, if s.readerWait == 1 then ReleaseWriter else Idle).(readerWait := s.readerWait - 1)
    case ReleaseWriter =>
      At(s, c, Idle).(writerPermits := s.writerPermits + 1)
    case _ => s
  }

  function StepUnlock(s: State, c: nat): State
    requires c < |s.co|
  {
    match s.co[c]
    case Writing =>
      At(s, c, if s.readers >= 0 then Fatal
               else Admit(if s.readers + MAX_READERS > 0 then s.readers + MAX_READERS else 0))
        .(readers := s.readers + MAX_READERS)
    case Reading =>
      At(s, c, if s.readers > 0 then Idle else if s.readers == 0 then Fatal else CountDown)
        .(readers := s.readers - 1)
    case _ => s
  }

  function StepCall(s: State, c: nat, act: Act): State
    requires c < |s.co|
  {
    match act
    case Lock => At(s, c, WantWriter)
    case TryLock => if s.owned then s else At(s, c, TryAnnounce).(owned := true)
    case LockShared =>
      At(s, c, if s.readers < 0 then AwaitWriter else Reading).(readers := s.readers + 1)
    case TryLockShared => At(s, c, TryEnter(s.readers))
    case _ => s
  }

  function Step(s: State, m: Move): State {
    if m.c >= |s.co| then s
    else if m.act.Unlock? then StepUnlock(s, m.c)
    else if !m.act.Continue? then (if s.co[m.c].Idle? then StepCall(s, m.c, m.act) else s)
    else if IsWriter(s.co[m.c]) then StepWriter(s, m.c)
    else StepReader(s, m.c, m.act.spurious)
  }

  // ---------------------------------------------------------- the invariant

  predicate IsWriter(l: Local) {
    || l.WantWriter? || l.Announce? || l.Settle? || l.AwaitReaders? || l.Writing? || l.Admit?
    || l.TryAnnounce? || l.BackOff?
  }

  predicate Owns(l: Local) { IsWriter(l) && !l.WantWriter? }
  predicate Announced(l: Local) { l.Settle? || l.AwaitReaders? || l.Writing? }
  predicate IsReading(l: Local) { l.Reading? }
  predicate IsQueued(l: Local) { l.AwaitWriter? }
  predicate IsCounting(l: Local) { l.CountDown? }
  predicate IsReleasing(l: Local) { l.ReleaseWriter? }

  ghost function Owners(s: State): nat { Count(s.co, Owns) }
  ghost function Announcers(s: State): nat { Count(s.co, Announced) }
  ghost function Active(s: State): nat { Count(s.co, IsReading) }
  ghost function Queued(s: State): nat { Count(s.co, IsQueued) }

  /** Reader permits issued to queued readers and not yet taken. */
  ghost function Granted(s: State): nat { s.readerPermits }

  /** Readers that the announced writer still has to wait for. */
  ghost function Outstanding(s: State): nat { Active(s) + Granted(s) + Count(s.co, IsCounting) }

  /** Writer permits issued or about to be issued. */
  ghost function Releases(s: State): nat { Count(s.co, IsReleasing) + s.writerPermits }

  /** What the coroutine that owns the writer mutex knows. */
  ghost predicate OwnerOk(s: State, l: Local) {
    match l
    case Settle(r) =>
      r > 0 && s.readerWait == Outstanding(s) - r && Outstanding(s) <= r && Releases(s) == 0 && Granted(s) <= Queued(s)
    case AwaitReaders =>
      s.readerWait == Outstanding(s) && Releases(s) == (if s.readerWait == 0 then 1 else 0) && Granted(s) <= Queued(s)
    case Writing =>
      s.readerWait == 0 && Outstanding(s) == 0 && Releases(s) == 0
    case Admit(k) =>
      Calm(s) && Granted(s) + k == Queued(s)
    case _ =>
      Calm(s) && Granted(s) == Queued(s)
  }

  /** No countdown is under way. */
  ghost predicate Calm(s: State) {
    s.readerWait == 0 && Count(s.co, IsCounting) == 0 && Releases(s) == 0
  }

  ghost predicate OwnersOk(s: State) {
    && Owners(s) == One(s.owned)
    && (forall i :: 0 <= i < |s.co| && Owns(s.co[i]) ==> OwnerOk(s, s.co[i]))
    && (!s.owned ==> Calm(s) && Granted(s) == Queued(s))
  }

  /** Fewer than 2^30 readers inside or queued. */
  ghost predicate Few(s: State) {
    Active(s) + Queued(s) < MAX_READERS
  }

  ghost predicate Inv(s: State) {
    && Few(s)
    && s.readers == Active(s) + Queued(s) - MAX_READERS * Announcers(s)
    && OwnersOk(s)
    && forall i :: 0 <= i < |s.co| ==> !s.co[i].Fatal?
  }

  lemma InitInv(n: nat)
    ensures Inv(Init(n))
  {
    var co := Init(n).co;
    CountNone(co, Owns);
    CountNone(co, Announced);
    CountNone(co, IsReading);
    CountNone(co, IsQueued);
    CountNone(co, IsCounting);
    CountNone(co, IsReleasing);
  }

  lemma Moved(s: State, c: nat, l: Local)
    requires c < |s.co|
    ensures var t, o := At(s, c, l), s.co[c];
            && Owners(t) == Owners(s) - One(Owns(o)) + One(Owns(l))
            && Announcers(t) == Announcers(s) - One(Announced(o)) + One(Announced(l))
            && Active(t) == Active(s) - One(o.Reading?) + One(l.Reading?)
            && Queued(t) == Queued(s) - One(o.AwaitWriter?) + One(l.AwaitWriter?)
            && Count(t.co, IsCounting) == Count(s.co, IsCounting) - One(o.CountDown?) + One(l.CountDown?)
            && Count(t.co, IsReleasing) == Count(s.co, IsReleasing) - One(o.ReleaseWriter?) + One(l.ReleaseWriter?)
  {
    CountUpdate(s.co, c, l, Owns);
    CountUpdate(s.co, c, l, Announced);
    CountUpdate(s.co, c, l, IsReading);
    CountUpdate(s.co, c, l, IsQueued);
    CountUpdate(s.co, c, l, IsCounting);
    CountUpdate(s.co, c, l, IsReleasing);
  }

  predicate InShared(l: Local) { l.Reading? || l.AwaitWriter? }

  /** Counts bounded by the population, and the announcer is the owner. */
  lemma Facts(s: State, c: nat)
    requires c < |s.co|
    ensures Active(s) + Queued(s) <= |s.co|
    ensures Announcers(s) <= Owners(s)
    ensures Owns(s.co[c]) ==> Owners(s) > 0
    ensures Announced(s.co[c]) ==> Announcers(s) > 0
    ensures s.co[c].Reading? ==> Active(s) > 0
    ensures s.co[c].AwaitWriter? ==> Queued(s) > 0
    ensures s.co[c].CountDown? ==> Count(s.co, IsCounting) > 0
    ensures s.co[c].ReleaseWriter? ==> Count(s.co, IsReleasing) > 0
    ensures Owners(s) == 1 && Owns(s.co[c]) ==> Announcers(s) == One(Announced(s.co[c]))
  {
    var a, b := Members(s.co, IsReading), Members(s.co, IsQueued);
    assert a !! b && a + b == Members(s.co, InShared);
    CountBound(s.co, InShared);
    SubsetCard(Members(s.co, Announced), Members(s.co, Owns));
    CountNone(s.co, Owns);
    CountNone(s.co, Announced);
    CountNone(s.co, IsReading);
    CountNone(s.co, IsQueued);
    CountNone(s.co, IsCounting);
    CountNone(s.co, IsReleasing);
    if Owners(s) == 1 && Owns(s.co[c]) && !Announced(s.co[c]) && Announcers(s) > 0 {
      var d :| 0 <= d < |s.co| && Announced(s.co[d]);
      CountTwo(s.co, Owns, c, d);
    }
  }

  /** A step of the owner of the writer mutex: nobody else owns it. */
  lemma OwnerMoves(s: State, t: State, c: nat, l: Local)
    requires Inv(s) && c < |s.co| && t.co == s.co[c := l] && Owns(s.co[c])
    requires t.owned == Owns(l) && (Owns(l) ==> OwnerOk(t, l)) && (!Owns(l) ==> Calm(t) && Granted(t) == Queued(t))
    ensures OwnersOk(t)
  {
    Facts(s, c);
    Moved(s, c, l);
    forall i | 0 <= i < |t.co| && Owns(t.co[i]) ensures OwnerOk(t, t.co[i]) {
      if i != c {
        CountTwo(s.co, Owns, i, c);
      }
    }
  }

  lemma TheOwner(s: State) returns (w: nat)
    requires Inv(s) && s.owned
    ensures w < |s.co| && Owns(s.co[w]) && OwnerOk(s, s.co[w])
    ensures Announcers(s) == One(Announced(s.co[w]))
  {
    CountNone(s.co, Owns);
    w :| 0 <= w < |s.co| && Owns(s.co[w]);
    Facts(s, w);
  }

  /** A step of somebody else, after which what the owner knows still holds. */
  lemma OtherMoves(s: State, t: State, c: nat, l: Local, w: nat)
    requires Inv(s) && s.owned && t.owned && c < |s.co| && t.co == s.co[c := l] && !Owns(s.co[c]) && !Owns(l)
    requires w < |s.co| && Owns(s.co[w]) && OwnerOk(t, s.co[w])
    ensures OwnersOk(t)
  {
    Moved(s, c, l);
    forall i | 0 <= i < |t.co| && Owns(t.co[i]) ensures OwnerOk(t, t.co[i]) {
      if i != w {
        CountTwo(s.co, Owns, i, w);
      }
    }
  }

  lemma NobodyMoves(s: State, t: State, c: nat, l: Local)
    requires Inv(s) && !s.owned && !t.owned && c < |s.co| && t.co == s.co[c := l] && !Owns(s.co[c]) && !Owns(l)
    requires Calm(t) && Granted(t) == Queued(t)
    ensures OwnersOk(t)
  {
    Moved(s, c, l);
    CountNone(t.co, Owns);
  }

  lemma NotFatal(s: State, c: nat, l: Local)
    requires c < |s.co| && !l.Fatal? && forall i :: 0 <= i < |s.co| ==> !s.co[i].Fatal?
    ensures forall i :: 0 <= i < |s.co| ==> !At(s, c, l).co[i].Fatal?
  {
  }

  /** The accounts after the owner's step to `l`, as it knows them. */
  ghost predicate Accounted(t: State, l: Local) {
    && Few(t) && t.readers == Active(t) + Queued(t) - MAX_READERS * Announcers(t) && t.owned == Owns(l)
    && if Owns(l) then OwnerOk(t, l) else Calm(t) && Granted(t) == Queued(t)
  }

  lemma AnnounceCounts(s: State, c: nat)
    requires Inv(s) && c < |s.co| && (s.co[c].Announce? || s.co[c].TryAnnounce?)
    ensures var t := StepWriter(s, c); c < |t.co| && Accounted(t, t.co[c])
  {
    Facts(s, c);
    Moved(s, c, StepWriter(s, c).co[c]);
    assert OwnerOk(s, s.co[c]);
  }

  lemma CountdownCounts(s: State, c: nat)
    requires Inv(s) && c < |s.co| && (s.co[c].Settle? || s.co[c].AwaitReaders?)
    ensures var t := StepWriter(s, c); c < |t.co| && Accounted(t, t.co[c])
  {
    Facts(s, c);
    Moved(s, c, StepWriter(s, c).co[c]);
    assert OwnerOk(s, s.co[c]);
  }

  lemma LeaveCounts(s: State, c: nat)
    requires Inv(s) && c < |s.co| && (s.co[c].Writing? || s.co[c].Admit? || s.co[c].BackOff?)
    ensures var t := StepWriter(s, c); c < |t.co| && Accounted(t, t.co[c])
  {
    Facts(s, c);
    if !s.co[c].Writing? {
      Moved(s, c, StepWriter(s, c).co[c]);
    }
    assert OwnerOk(s, s.co[c]);
  }

  lemma WriterMovesOnlyItself(s: State, c: nat)
    requires c < |s.co| && Owns(s.co[c])
    ensures var t := StepWriter(s, c); c < |t.co| && t.co == s.co[c := t.co[c]] && !t.co[c].Fatal?
  {
  }

  lemma WriterKeeps(s: State, c: nat)
    requires Inv(s) && c < |s.co| && Owns(s.co[c])
    ensures Inv(StepWriter(s, c))
  {
    var t := StepWriter(s, c);
    WriterMovesOnlyItself(s, c);
    if s.co[c].Announce? || s.co[c].TryAnnounce? {
      AnnounceCounts(s, c);
    } else if s.co[c].Settle? || s.co[c].AwaitReaders? {
      CountdownCounts(s, c);
    } else {
      LeaveCounts(s, c);
    }
    NotFatal(s, c, t.co[c]);
    OwnerMoves(s, t, c, t.co[c]);
  }

  lemma AcquireKeeps(s: State, c: nat, l: Local)
    requires Inv(s) && c < |s.co| && !s.owned
    requires (s.co[c].WantWriter? || s.co[c].Idle?) && (l.Announce? || l.TryAnnounce?)
    ensures Inv(At(s, c, l).(owned := true))
  {
    var t := At(s, c, l).(owned := true);
    Moved(s, c, l);
    forall i | 0 <= i < |t.co| && Owns(t.co[i]) ensures OwnerOk(t, t.co[i]) {
      Facts(s, i);
    }
  }

  lemma UnlockKeeps(s: State, c: nat)
    requires Inv(s) && c < |s.co| && s.co[c].Writing?
    ensures Inv(StepUnlock(s, c))
  {
    var t := StepUnlock(s, c);
    Facts(s, c);
    Moved(s, c, t.co[c]);
    assert OwnerOk(s, s.co[c]);
    assert !t.co[c].Fatal?;
    OwnerMoves(s, t, c, t.co[c]);
  }

  /** How a coroutine that does not own the writer mutex changes the counts. */
  ghost predicate Harmless(s: State, t: State) {
    && t.owned == s.owned && Announcers(t) == Announcers(s)
    && Releases(t) == Releases(s) + One(t.readerWait == 0 && s.readerWait == 1)
    && (s.readerWait != t.readerWait ==> Outstanding(s) > 0)
    && if Announcers(s) > 0 then
         && Outstanding(t) - Outstanding(s) == t.readerWait - s.readerWait
         && s.readerWait - 1 <= t.readerWait <= s.readerWait
         && Granted(t) <= Granted(s)
         && Queued(t) - Queued(s) >= Granted(t) - Granted(s)
       else
         && t.readerWait == s.readerWait
         && Count(t.co, IsCounting) == Count(s.co, IsCounting)
         && Queued(t) - Queued(s) == Granted(t) - Granted(s)
  }

  lemma HarmlessKeeps(s: State, t: State, c: nat, l: Local)
    requires Inv(s) && c < |s.co| && t.co == s.co[c := l] && !Owns(s.co[c]) && !Owns(l)
    requires Harmless(s, t)
    ensures OwnersOk(t)
  {
    if s.owned {
      var w := TheOwner(s);
      OtherMoves(s, t, c, l, w);
    } else {
      Facts(s, c);
      NobodyMoves(s, t, c, l);
    }
  }

  /** While nobody has announced, no countdown is under way. */
  lemma CalmUnlessAnnounced(s: State)
    requires Inv(s)
    ensures Announcers(s) <= 1
    ensures Announcers(s) == 0 ==> Calm(s)
    ensures Count(s.co, IsReleasing) > 0 ==> Announcers(s) > 0
  {
    if s.owned {
      var w := TheOwner(s);
    } else if |s.co| > 0 {
      Facts(s, 0);
    } else {
      CountBound(s.co, Announced);
    }
  }

  lemma UnlockSharedKeeps(s: State, c: nat)
    requires Inv(s) && c < |s.co| && s.co[c].Reading?
    ensures Inv(StepUnlock(s, c))
  {
    var t := StepUnlock(s, c);
    Facts(s, c);
    CalmUnlessAnnounced(s);
    Moved(s, c, t.co[c]);
    assert !t.co[c].Fatal?;
    HarmlessKeeps(s, t, c, t.co[c]);
  }

  lemma ReaderMovesOnlyItself(s: State, c: nat, spurious: bool)
    requires c < |s.co| && !IsWriter(s.co[c]) && !s.co[c].Fatal?
    ensures var t := StepReader(s, c, spurious);
            t.co == s.co[c := t.co[c]] && !IsWriter(t.co[c]) && !t.co[c].Fatal?
  {
  }

  /** What a reader's step does to the counts, given that it moves only itself. */
  lemma ReaderIsHarmless(s: State, c: nat, spurious: bool)
    requires Inv(s) && c < |s.co| && !IsWriter(s.co[c])
    requires var t := StepReader(s, c, spurious); t.co == s.co[c := t.co[c]]
    ensures var t := StepReader(s, c, spurious);
            Harmless(s, t) && t.readers == Active(t) + Queued(t) - MAX_READERS * Announcers(t)
  {
    Facts(s, c);
    CalmUnlessAnnounced(s);
    Moved(s, c, StepReader(s, c, spurious).co[c]);
  }

  lemma ReaderKeeps(s: State, c: nat, spurious: bool)
    requires Inv(s) && c < |s.co| && !IsWriter(s.co[c]) && Few(StepReader(s, c, spurious))
    ensures Inv(StepReader(s, c, spurious))
  {
    var t := StepReader(s, c, spurious);
    ReaderMovesOnlyItself(s, c, spurious);
    ReaderIsHarmless(s, c, spurious);
    NotFatal(s, c, t.co[c]);
    HarmlessKeeps(s, t, c, t.co[c]);
  }

  lemma CallIsHarmless(s: State, c: nat, act: Act)
    requires Inv(s) && c < |s.co| && s.co[c].Idle? && !act.TryLock? && Few(StepCall(s, c, act))
    ensures var t := StepCall(s, c, act);
            && t.co == s.co[c := t.co[c]] && !Owns(t.co[c]) && !t.co[c].Fatal?
            && Harmless(s, t) && t.readers == Active(t) + Queued(t) - MAX_READERS * Announcers(t)
  {
    Facts(s, c);
    CalmUnlessAnnounced(s);
    Moved(s, c, StepCall(s, c, act).co[c]);
  }

  lemma CallKeeps(s: State, c: nat, act: Act)
    requires Inv(s) && c < |s.co| && s.co[c].Idle? && Few(StepCall(s, c, act))
    ensures Inv(StepCall(s, c, act))
  {
    var t := StepCall(s, c, act);
    if act.TryLock? {
      if !s.owned { AcquireKeeps(s, c, TryAnnounce); }
    } else {
      CallIsHarmless(s, c, act);
      NotFatal(s, c, t.co[c]);
      HarmlessKeeps(s, t, c, t.co[c]);
    }
  }

  lemma StepKeepsInv(s: State, m: Move)
    requires Inv(s) && Few(Step(s, m))
    ensures Inv(Step(s, m))
  {
    if m.c >= |s.co| {
    } else if m.act.Unlock? {
      if s.co[m.c].Writing? { UnlockKeeps(s, m.c); } else if s.co[m.c].Reading? { UnlockSharedKeeps(s, m.c); }
    } else if !m.act.Continue? {
      if s.co[m.c].Idle? { CallKeeps(s, m.c, m.act); }
    } else if s.co[m.c].WantWriter? {
      if !s.owned { AcquireKeeps(s, m.c, Announce); }
    } else if IsWriter(s.co[m.c]) {
      WriterKeeps(s, m.c);
    } else {
      ReaderKeeps(s, m.c, m.act.spurious);
    }
  }

  // ------------------------------------------------------------ every run

  /** A run with fewer than 2^30 readers at any time. */
  ghost predicate FewReaders(s: State, moves: seq<Move>)
    decreases |moves|
  {
    Few(s) && (moves != [] ==> FewReaders(Step(s, moves[0]), moves[1..]))
  }

  lemma {:induction false} RunInv(s: State, moves: seq<Move>)
    requires Inv(s) && FewReaders(s, moves)
    ensures Inv(Run(Step, s, moves))
    decreases |moves|
  {
    if moves != [] {
      StepKeepsInv(s, moves[0]);
      RunInv(Step(s, moves[0]), moves[1..]);
    }
  }

  /** Fewer coroutines than that are never too many readers. */
  lemma {:induction false} FewCoroutines(s: State, moves: seq<Move>)
    requires |s.co| < MAX_READERS
    ensures FewReaders(s, moves)
    decreases |moves|
  {
    if s.co == [] {
      CountBound(s.co, IsReading);
      CountBound(s.co, IsQueued);
    } else {
      Facts(s, 0);
    }
    if moves != [] {
      FewCoroutines(Step(s, moves[0]), moves[1..]);
    }
  }

  lemma Reachable(n: nat, moves: seq<Move>)
    requires FewReaders(Init(n), moves)
    ensures Inv(Run(Step, Init(n), moves))
  {
    InitInv(n);
    RunInv(Init(n), moves);
  }

  /** In every interleaving with fewer than 2^30 readers at any time a writer in its section
      excludes every reader and every other writer, although a late reader may
      take the permit of an earlier one; and no fatal branch is taken. */
  lemma WriterExcludesAll(n: nat, moves: seq<Move>)
    requires FewReaders(Init(n), moves)
    ensures var s := Run(Step, Init(n), moves);
            && (forall i, j :: 0 <= i < |s.co| && 0 <= j < |s.co| && s.co[i].Writing? && i != j ==>
                  !s.co[j].Reading? && !s.co[j].Writing?)
            && (forall i :: 0 <= i < |s.co| ==> !s.co[i].Fatal?)
  {
    Reachable(n, moves);
    var s := Run(Step, Init(n), moves);
    forall i, j | 0 <= i < |s.co| && 0 <= j < |s.co| && s.co[i].Writing? && i != j
      ensures !s.co[j].Reading? && !s.co[j].Writing?
    {
      assert OwnerOk(s, s.co[i]);
      CountNone(s.co, IsReading);
      Facts(s, i);
      if s.co[j].Writing? { CountTwo(s.co, Owns, i, j); }
    }
  }

  /** The two counters are exact: the reader count is the readers inside plus the
      readers queued, lowered while a writer is announced; the countdown of an
      announced writer is the readers inside, the permits granted and the readers
      between their two decrements, and it is zero without such a writer. */
  lemma CountersExact(n: nat, moves: seq<Move>)
    requires FewReaders(Init(n), moves)
    ensures var s := Run(Step, Init(n), moves);
            && s.readers == Active(s) + Queued(s) - MAX_READERS * Announcers(s)
            && -MAX_READERS <= s.readers < MAX_READERS
            && Announcers(s) <= 1
            && (Announcers(s) == 0 ==> s.readerWait == 0)
            && (forall i :: 0 <= i < |s.co| && (s.co[i].AwaitReaders? || s.co[i].Writing?) ==>
                  s.readerWait == Outstanding(s))
            && (forall i :: 0 <= i < |s.co| && s.co[i].Settle? ==> s.readerWait + s.co[i].r == Outstanding(s))
  {
    Reachable(n, moves);
    var s := Run(Step, Init(n), moves);
    CalmUnlessAnnounced(s);
    forall i | 0 <= i < |s.co| && (s.co[i].AwaitReaders? || s.co[i].Writing?) ensures s.readerWait == Outstanding(s) {
      assert OwnerOk(s, s.co[i]);
    }
    forall i | 0 <= i < |s.co| && s.co[i].Settle? ensures s.readerWait + s.co[i].r == Outstanding(s) {
      assert OwnerOk(s, s.co[i]);
    }
  }

  /** A coroutine that waits for what is not there. */
  predicate Stuck(s: State, l: Local) {
    match l
    case WantWriter => s.owned
    case AwaitReaders => s.writerPermits == 0
    case AwaitWriter => s.readerPermits == 0
    case _ => false
  }

  /** Nobody is left behind: when everybody has either left or waits in vain,
      nobody waits at all. */
  lemma NoDeadlock(n: nat, moves: seq<Move>)
    requires FewReaders(Init(n), moves)
    ensures var s := Run(Step, Init(n), moves);
            (forall i :: 0 <= i < |s.co| ==> s.co[i].Idle? || Stuck(s, s.co[i]))
            ==> !s.owned && s.readers == 0 && forall i :: 0 <= i < |s.co| ==> s.co[i].Idle?
  {
    Reachable(n, moves);
    var s := Run(Step, Init(n), moves);
    if forall i :: 0 <= i < |s.co| ==> s.co[i].Idle? || Stuck(s, s.co[i]) {
      CountNone(s.co, IsReading);
      CountNone(s.co, IsCounting);
      CountNone(s.co, IsReleasing);
      CountNone(s.co, IsQueued);
      CountNone(s.co, Announced);
      if s.owned {
        var w := TheOwner(s);
      }
    }
  }

  // ------------------------------------------------ the semaphores it stands on

  function ReaderPhase(l: Local): Counter.Phase {
    if l.AwaitWriter? then Counter.Wanting else Counter.Out
  }

  /** The readers' semaphore. */
  function ReaderSema(s: State): Counter.State {
    Counter.State(s.readerPermits, false, Phases(s.co, ReaderPhase))
  }

  function WriterPhase(l: Local): Counter.Phase {
    if l.AwaitReaders? then Counter.Wanting else Counter.Out
  }

  /** The writer's semaphore. */
  function WriterSema(s: State): Counter.State {
    Counter.State(s.writerPermits, false, Phases(s.co, WriterPhase))
  }

  /** A step of `c` that both semaphores can follow. */
  ghost predicate Follows(s: State, t: State, c: nat) {
    Counter.UserMove(ReaderSema(s), ReaderSema(t), c) && Counter.UserMove(WriterSema(s), WriterSema(t), c)
  }

  lemma Moves(s: State, t: State, c: nat, l: Local)
    requires c < |s.co| && t.co == s.co[c := l]
    requires Counter.Change(s.co[c].AwaitWriter?, l.AwaitWriter?, s.readerPermits, t.readerPermits, false, false)
    requires Counter.Change(s.co[c].AwaitReaders?, l.AwaitReaders?, s.writerPermits, t.writerPermits, false, false)
    ensures Follows(s, t, c)
  {
    PhaseUpdate(s.co, ReaderPhase, c, l);
    PhaseUpdate(s.co, WriterPhase, c, l);
  }

  lemma WriterFollows(s: State, c: nat)
    requires c < |s.co|
    ensures Follows(s, StepWriter(s, c), c)
  {
    var t := StepWriter(s, c);
    Moves(s, t, c, t.co[c]);
  }

  lemma ReaderFollows(s: State, c: nat, spurious: bool)
    requires c < |s.co|
    ensures Follows(s, StepReader(s, c, spurious), c)
  {
    var t := StepReader(s, c, spurious);
    Moves(s, t, c, t.co[c]);
  }

  lemma StepFollows(s: State, m: Move)
    requires m.c < |s.co|
    ensures Follows(s, Step(s, m), m.c)
  {
    if !m.act.Unlock? && m.act.Continue? {
      if IsWriter(s.co[m.c]) {
        WriterFollows(s, m.c);
      } else {
        ReaderFollows(s, m.c, m.act.spurious);
      }
    } else {
      var t := Step(s, m);
      Moves(s, t, m.c, t.co[m.c]);
    }
  }

  /** What a step of the lock does to its two semaphores the counting semaphore, and so
      `usema`, can do. */
  lemma MovesCounters(s: State, m: Move) returns (readers: seq<Counter.Move>, writers: seq<Counter.Move>)
    ensures Counter.Block(ReaderSema(s), m.c, readers) && Counter.Block(WriterSema(s), m.c, writers)
    ensures ReaderSema(Step(s, m)) == Run(Counter.Step, ReaderSema(s), readers)
    ensures WriterSema(Step(s, m)) == Run(Counter.Step, WriterSema(s), writers)
  {
    readers, writers := [], [];
    if m.c < |s.co| {
      StepFollows(s, m);
      readers := Counter.UserMoves(ReaderSema(s), ReaderSema(Step(s, m)), m.c);
      writers := Counter.UserMoves(WriterSema(s), WriterSema(Step(s, m)), m.c);
    }
  }

  /** And whatever the counting semaphores can do for a queued reader or an announced writer,
      a step of the lock takes up: nothing else moves. */
  lemma CountersServe(s: State, c: nat, spurious: bool)
    ensures var t, moves := Step(s, Move(c, Continue(spurious))), [Counter.Take(c), Counter.Return(c)];
            && (Counter.Enabled(ReaderSema(s), Counter.Take(c)) ==>
                  ReaderSema(t) == Run(Counter.Step, ReaderSema(s), moves) && WriterSema(t) == WriterSema(s))
            && (Counter.Enabled(WriterSema(s), Counter.Take(c)) ==>
                  WriterSema(t) == Run(Counter.Step, WriterSema(s), moves) && ReaderSema(t) == ReaderSema(s))
  {
    if c < |s.co| {
      var t := Step(s, Move(c, Continue(spurious)));
      PhaseUpdate(s.co, ReaderPhase, c, t.co[c]);
      PhaseUpdate(s.co, WriterPhase, c, t.co[c]);
      if Counter.Enabled(ReaderSema(s), Counter.Take(c)) {
        Counter.TakeReturn(ReaderSema(s), c);
      }
      if Counter.Enabled(WriterSema(s), Counter.Take(c)) {
        Counter.TakeReturn(WriterSema(s), c);
      }
    }
  }

  // --------------------------------------------------- the mutex it stands on

  function LockPhase(l: Local): Lock.Phase {
    if l.WantWriter? then Lock.Wanting else if Owns(l) then Lock.Holding else Lock.Out
  }

  /** The mutex among writers. */
  function WriterMutex(s: State): Lock.State {
    Lock.State(s.owned, Phases(s.co, LockPhase))
  }

  lemma LockMoves(s: State, t: State, c: nat, l: Local)
    requires c < |s.co| && t.co == s.co[c := l]
    requires Lock.Change(LockPhase(s.co[c]), LockPhase(l), s.owned, t.owned)
    ensures Lock.UserMove(WriterMutex(s), WriterMutex(t), c)
  {
    PhaseUpdate(s.co, LockPhase, c, l);
  }

  lemma LockCalls(s: State, c: nat, act: Act)
    requires c < |s.co| && s.co[c].Idle?
    ensures Lock.UserMove(WriterMutex(s), WriterMutex(StepCall(s, c, act)), c)
  {
    var t := StepCall(s, c, act);
    LockMoves(s, t, c, t.co[c]);
  }

  lemma LockUnlocks(s: State, c: nat)
    requires Inv(s) && c < |s.co|
    ensures Lock.UserMove(WriterMutex(s), WriterMutex(StepUnlock(s, c)), c)
  {
    var t := StepUnlock(s, c);
    Facts(s, c);
    LockMoves(s, t, c, t.co[c]);
  }

  lemma LockWrites(s: State, c: nat)
    requires c < |s.co|
    ensures Lock.UserMove(WriterMutex(s), WriterMutex(StepWriter(s, c)), c)
  {
    var t := StepWriter(s, c);
    LockMoves(s, t, c, t.co[c]);
  }

  lemma LockReads(s: State, c: nat, spurious: bool)
    requires c < |s.co| && !IsWriter(s.co[c])
    ensures Lock.UserMove(WriterMutex(s), WriterMutex(StepReader(s, c, spurious)), c)
  {
    var t := StepReader(s, c, spurious);
    LockMoves(s, t, c, t.co[c]);
  }

  lemma StepLocks(s: State, m: Move)
    requires Inv(s) && m.c < |s.co|
    ensures Lock.UserMove(WriterMutex(s), WriterMutex(Step(s, m)), m.c)
  {
    if m.act.Unlock? {
      LockUnlocks(s, m.c);
    } else if !m.act.Continue? {
      if s.co[m.c].Idle? { LockCalls(s, m.c, m.act); } else { LockMoves(s, s, m.c, s.co[m.c]); }
    } else if IsWriter(s.co[m.c]) {
      LockWrites(s, m.c);
    } else {
      LockReads(s, m.c, m.act.spurious);
    }
  }

  /** Each step of the lock is one block of the mutex among writers. */
  lemma MovesLock(s: State, m: Move) returns (abs: seq<Lock.Move>)
    requires Inv(s)
    ensures Lock.Block(WriterMutex(s), m.c, abs) && WriterMutex(Step(s, m)) == Run(Lock.Step, WriterMutex(s), abs)
  {
    abs := [];
    if m.c < |s.co| {
      StepLocks(s, m);
      abs := Lock.UserMoves(WriterMutex(s), WriterMutex(Step(s, m)), m.c);
    }
  }

  /** And whenever the mutex is free, a writer that wants it has a step that takes it. */
  lemma LockServes(s: State, c: nat, spurious: bool)
    requires Lock.Enabled(WriterMutex(s), Lock.Acquire(c))
    ensures var t := Step(s, Move(c, Continue(spurious)));
            && WriterMutex(t) == Run(Lock.Step, WriterMutex(s), [Lock.Acquire(c)])
            && t == s.(owned := true, co := t.co)
  {
    PhaseUpdate(s.co, LockPhase, c, Announce);
    RunOne(Lock.Step, WriterMutex(s), Lock.Acquire(c));
  }
}
