/** The buffered `uchan<T, Size>`: a queue, a mutex and two semaphores. */
module Channel {
  // One semaphore counts free space and one counts items; both are killed by
  // `close`.  The mutex and the semaphores are the abstractions that modules Mutex
  // and Semaphore justify: an owner, and a permit count with a killed flag after
  // which a wait may also return empty-handed.
  import opened Interleavings
  import Counter = PermitCounter
  import Lock = OwnerLock

  datatype Local<T> =
    | Idle
    // send
    | AwaitSpace(x: T)
    | WantSend(x: T, permit: bool)     // about to lock
    | Sending(x: T, permit: bool)      // locked: about to append, or to die on a closed channel
    | Sent                             // locked: about to unlock
    | NoteItem                         // about to signal the item semaphore
    // receive
    | AwaitItem
    | WantReceive(permit: bool)        // about to lock
    | Receiving(permit: bool)          // locked: about to take the front
    | Received                         // locked: about to unlock and succeed
    | Missed                           // locked: about to unlock and fail
    | NoteSpace                        // about to signal the space semaphore
    // close
    | KillItems
    | KillSpace

  datatype State<T> = State(
    owned: bool,            // the mutex
    items: seq<T>,
    full: nat,
    space: nat,
    closed: bool,
    fullKilled: bool,
    spaceKilled: bool,
    terminated: bool,       // a send on a closed channel, or a second kill, ends the process
    accepted: seq<T>,       // items appended, in lock order
    delivered: seq<T>,      // items taken, in lock order
    misses: nat,            // receives that returned false
    co: seq<Local<T>>)

  /** `empty`: a wait on a killed semaphore may return without a permit. */
  datatype Act<T> = Send(x: T) | Receive | Close | Continue(empty: bool)

  datatype Move<T> = Move(c: nat, act: Act<T>)

  function Init<T>(size: nat, n: nat): State<T> {
    State(false, [], 0, size, false, false, false, false, [], [], 0, seq(n, _ => Idle))
  }

  // --------------------------------------------------------------- the steps

  function At<T>(s: State<T>, c: nat, l: Local<T>): State<T>
    requires c < |s.co|
  {
    s.(co := s.co[c := l])
  }

  function TakeSpacePermit<T>(s: State<T>, c: nat, x: T, empty: bool): State<T>
    requires c < |s.co|
  {
    if empty then (if s.spaceKilled then At(s, c, WantSend(x, false)) else s)
    else if s.space > 0 then At(s, c, WantSend(x, true)).(space := s.space - 1)
    else s
  }

  function StepSend<T>(s: State<T>, c: nat, empty: bool): State<T>
    requires c < |s.co|
  {
    match s.co[c]
    case AwaitSpace(x) => TakeSpacePermit(s, c, x, empty)
    case WantSend(x, permit) =>
      if s.owned then s else At(s, c, Sending(x, permit)).(owned := true)
    case Sending(x, _) =>
      if s.closed then s.(terminated := true)
      else At(s, c, Sent).(items := s.items + [x], accepted := s.accepted + [x])
    case Sent =>
      At(s, c, NoteItem).(owned := false)
    case NoteItem =>
      At(s, c, Idle).(full := s.full + 1)
    case _ => s
  }

  function TakeItemPermit<T>(s: State<T>, c: nat, empty: bool): State<T>
    requires c < |s.co|
  {
    if empty then (if s.fullKilled then At(s, c, WantReceive(false)) else s)
    else if s.full > 0 then At(s, c, WantReceive(true)).(full := s.full - 1)
    else s
  }

  function TakeFront<T>(s: State<T>, c: nat): State<T>
    requires c < |s.co|
  {
    if s.items == [] then At(s, c, Missed)
    else At(s, c, Received).(items := s.items[1..], delivered := s.delivered + [s.items[0]])
  }

  function StepReceive<T>(s: State<T>, c: nat, empty: bool): State<T>
    requires c < |s.co|
  {
    match s.co[c]
    case AwaitItem => TakeItemPermit(s, c, empty)
    case WantReceive(permit) =>
      if s.owned then s else At(s, c, Receiving(permit)).(owned := true)
    case Receiving(_) => TakeFront(s, c)
    case Received =>
      At(s, c, NoteSpace).(owned := false)
    case Missed =>
      At(s, c, Idle).(owned := false, misses := s.misses + 1)
    case NoteSpace =>
      At(s, c, Idle).(space := s.space + 1)
    case _ => s
  }

  function StepClose<T>(s: State<T>, c: nat): State<T>
    requires c < |s.co|
  {
    match s.co[c]
    case KillItems =>
      if s.fullKilled then s.(terminated := true) else At(s, c, KillSpace).(fullKilled := true)
    case KillSpace =>
      if s.spaceKilled then s.(terminated := true) else At(s, c, Idle).(spaceKilled := true)
    case _ => s
  }

  predicate IsSend<T>(l: Local<T>) {
    l.AwaitSpace? || l.WantSend? || l.Sending? || l.Sent? || l.NoteItem?
  }

  predicate IsClose<T>(l: Local<T>) { l.KillItems? || l.KillSpace? }

  function Step<T>(s: State<T>, m: Move<T>): State<T> {
    if m.c >= |s.co| || s.terminated then s else
    match m.act
    case Send(x) => if s.co[m.c].Idle? then At(s, m.c, AwaitSpace(x)) else s
    case Receive => if s.co[m.c].Idle? then At(s, m.c, AwaitItem) else s
    case Close => if s.co[m.c].Idle? then At(s, m.c, KillItems).(closed := true) else s
    case Continue(empty) =>
      if IsSend(s.co[m.c]) then StepSend(s, m.c, empty)
      else if IsClose(s.co[m.c]) then StepClose(s, m.c)
      else StepReceive(s, m.c, empty)
  }

  // ---------------------------------------------------------- the invariant

  /** A sender that holds a space permit and has not appended yet. */
  predicate HoldsSpace<T>(l: Local<T>) { (l.WantSend? || l.Sending?) && l.permit }

  /** A sender that appended and has not announced its item yet. */
  predicate OwesItem<T>(l: Local<T>) { l.Sent? || l.NoteItem? }

  /** A receiver that holds an item permit and has not looked yet. */
  predicate HoldsItem<T>(l: Local<T>) { (l.WantReceive? || l.Receiving?) && l.permit }

  /** A receiver that took an item and has not announced the space yet. */
  predicate OwesSpace<T>(l: Local<T>) { l.Received? || l.NoteSpace? }

  predicate IsLocked<T>(l: Local<T>) {
    l.Sending? || l.Sent? || l.Receiving? || l.Received? || l.Missed?
  }

  ghost predicate LocalOk<T>(s: State<T>, l: Local<T>) {
    match l
    case WantSend(_, permit) => permit || s.spaceKilled
    case Sending(_, permit) => permit || s.spaceKilled
    case WantReceive(permit) => permit || s.fullKilled
    case Receiving(permit) => permit || s.fullKilled
    case Missed => s.fullKilled
    case KillItems => s.closed
    case KillSpace => s.closed
    case _ => true
  }

  ghost predicate Inv<T>(size: nat, s: State<T>) {
    && s.delivered + s.items == s.accepted
    && s.space + Count(s.co, HoldsSpace) + |s.items| + Count(s.co, OwesSpace) == size
    && (!s.fullKilled ==> |s.items| == s.full + Count(s.co, OwesItem) + Count(s.co, HoldsItem))
    && Count(s.co, IsLocked) == One(s.owned)
    && (s.spaceKilled || s.fullKilled ==> s.closed)
    && (s.misses > 0 ==> s.fullKilled)
    && forall i :: 0 <= i < |s.co| ==> LocalOk(s, s.co[i])
  }

  lemma InitInv<T>(size: nat, n: nat)
    ensures Inv(size, Init<T>(size, n))
  {
    var co := Init<T>(size, n).co;
    CountNone(co, HoldsSpace);
    CountNone(co, OwesSpace);
    CountNone(co, OwesItem);
    CountNone(co, HoldsItem);
    CountNone(co, IsLocked);
  }

  lemma Moved<T>(co: seq<Local<T>>, c: nat, l: Local<T>)
    requires c < |co|
    ensures Count(co[c := l], HoldsSpace) == Count(co, HoldsSpace) - One(HoldsSpace(co[c])) + One(HoldsSpace(l))
    ensures Count(co[c := l], OwesSpace) == Count(co, OwesSpace) - One(OwesSpace(co[c])) + One(OwesSpace(l))
    ensures Count(co[c := l], OwesItem) == Count(co, OwesItem) - One(OwesItem(co[c])) + One(OwesItem(l))
    ensures Count(co[c := l], HoldsItem) == Count(co, HoldsItem) - One(HoldsItem(co[c])) + One(HoldsItem(l))
    ensures Count(co[c := l], IsLocked) == Count(co, IsLocked) - One(IsLocked(co[c])) + One(IsLocked(l))
  {
    CountUpdate(co, c, l, HoldsSpace);
    CountUpdate(co, c, l, OwesSpace);
    CountUpdate(co, c, l, OwesItem);
    CountUpdate(co, c, l, HoldsItem);
    CountUpdate(co, c, l, IsLocked);
  }

  /** Flags only rise, so what a coroutine knows stays true. */
  lemma LocalsKept<T>(s: State<T>, t: State<T>, c: nat, l: Local<T>)
    requires c < |s.co| && t.co == s.co[c := l] && LocalOk(t, l)
    requires forall i :: 0 <= i < |s.co| ==> LocalOk(s, s.co[i])
    requires (s.closed ==> t.closed) && (s.fullKilled ==> t.fullKilled) && (s.spaceKilled ==> t.spaceKilled)
    ensures forall i :: 0 <= i < |t.co| ==> LocalOk(t, t.co[i])
  {
  }

  lemma AppendKeeps<T>(size: nat, s: State<T>, c: nat)
    requires Inv(size, s) && c < |s.co| && s.co[c].Sending? && !s.closed
    ensures Inv(size, StepSend(s, c, false))
  {
    var t := StepSend(s, c, false);
    Moved(s.co, c, Sent);
    LocalsKept(s, t, c, Sent);
    assert s.delivered + (s.items + [s.co[c].x]) == s.delivered + s.items + [s.co[c].x];
  }

  /** Taking a space permit, or getting by without one after close. */
  lemma SpaceKeeps<T>(size: nat, s: State<T>, c: nat, empty: bool)
    requires Inv(size, s) && c < |s.co| && s.co[c].AwaitSpace?
    ensures Inv(size, TakeSpacePermit(s, c, s.co[c].x, empty))
  {
    var t, l := TakeSpacePermit(s, c, s.co[c].x, empty), WantSend(s.co[c].x, !empty);
    if t != s {
      Moved(s.co, c, l);
      LocalsKept(s, t, c, l);
    }
  }

  /** Taking the mutex. */
  lemma EnterKeeps<T>(size: nat, s: State<T>, c: nat, empty: bool)
    requires Inv(size, s) && c < |s.co| && s.co[c].WantSend?
    ensures Inv(size, StepSend(s, c, empty))
  {
    var t := StepSend(s, c, empty);
    Moved(s.co, c, t.co[c]);
    assert LocalOk(s, s.co[c]) && t.co == s.co[c := t.co[c]];
    LocalsKept(s, t, c, t.co[c]);
  }

  /** Leaving the mutex, and announcing the item. */
  lemma AnnounceKeeps<T>(size: nat, s: State<T>, c: nat, empty: bool)
    requires Inv(size, s) && c < |s.co| && (s.co[c].Sent? || s.co[c].NoteItem?)
    ensures Inv(size, StepSend(s, c, empty))
  {
    var t := StepSend(s, c, empty);
    Moved(s.co, c, t.co[c]);
    CountNone(s.co, IsLocked);
    assert t.co == s.co[c := t.co[c]];
    LocalsKept(s, t, c, t.co[c]);
  }

  lemma SendKeeps<T>(size: nat, s: State<T>, c: nat, empty: bool)
    requires Inv(size, s) && c < |s.co| && IsSend(s.co[c])
    ensures Inv(size, StepSend(s, c, empty))
  {
    match s.co[c] {
      case AwaitSpace(_) => SpaceKeeps(size, s, c, empty);
      case WantSend(_, _) => EnterKeeps(size, s, c, empty);
      case Sending(_, _) => if !s.closed { AppendKeeps(size, s, c); }
      case _ => AnnounceKeeps(size, s, c, empty);
    }
  }

  lemma TakeKeeps<T>(size: nat, s: State<T>, c: nat)
    requires Inv(size, s) && c < |s.co| && s.co[c].Receiving?
    ensures Inv(size, TakeFront(s, c))
  {
    if s.items == [] {
      MissKeeps(size, s, c);
    } else {
      Moved(s.co, c, Received);
      LocalsKept(s, TakeFront(s, c), c, Received);
      assert s.delivered + [s.items[0]] + s.items[1..] == s.delivered + s.items;
    }
  }

  /** An empty queue: the receiver has no permit, so the channel is closed. */
  lemma MissKeeps<T>(size: nat, s: State<T>, c: nat)
    requires Inv(size, s) && c < |s.co| && s.co[c].Receiving? && s.items == []
    ensures Inv(size, At(s, c, Missed))
  {
    Moved(s.co, c, Missed);
    CountNone(s.co, HoldsItem);
    assert LocalOk(s, s.co[c]);
    LocalsKept(s, At(s, c, Missed), c, Missed);
  }

  lemma ReceiveKeeps<T>(size: nat, s: State<T>, c: nat, empty: bool)
    requires Inv(size, s) && c < |s.co| && !IsSend(s.co[c]) && !IsClose(s.co[c])
    ensures Inv(size, StepReceive(s, c, empty))
  {
    if s.co[c].Receiving? {
      TakeKeeps(size, s, c);
    } else if s.co[c].AwaitItem? {
      AwaitKeeps(size, s, c, empty);
    } else if s.co[c].WantReceive? {
      EntryKeeps(size, s, c, empty);
    } else if s.co[c].NoteSpace? {
      NoteKeeps(size, s, c, empty);
    } else if !s.co[c].Idle? {
      LeaveKeeps(size, s, c, empty);
    }
  }

  /** Leaving the mutex. */
  lemma LeaveKeeps<T>(size: nat, s: State<T>, c: nat, empty: bool)
    requires Inv(size, s) && c < |s.co| && (s.co[c].Received? || s.co[c].Missed?)
    ensures Inv(size, StepReceive(s, c, empty))
  {
    var l := if s.co[c].Received? then NoteSpace else Idle;
    Moved(s.co, c, l);
    CountNone(s.co, IsLocked);
    assert LocalOk(s, s.co[c]);
    LocalsKept(s, StepReceive(s, c, empty), c, l);
  }

  /** Announcing the space. */
  lemma NoteKeeps<T>(size: nat, s: State<T>, c: nat, empty: bool)
    requires Inv(size, s) && c < |s.co| && s.co[c].NoteSpace?
    ensures Inv(size, StepReceive(s, c, empty))
  {
    Moved(s.co, c, Idle);
    LocalsKept(s, StepReceive(s, c, empty), c, Idle);
  }

  /** Taking an item permit, or getting by without one after close. */
  lemma AwaitKeeps<T>(size: nat, s: State<T>, c: nat, empty: bool)
    requires Inv(size, s) && c < |s.co| && s.co[c].AwaitItem?
    ensures Inv(size, TakeItemPermit(s, c, empty))
  {
    var t := TakeItemPermit(s, c, empty);
    if t != s {
      Moved(s.co, c, WantReceive(!empty));
      LocalsKept(s, t, c, WantReceive(!empty));
    }
  }

  lemma EntryKeeps<T>(size: nat, s: State<T>, c: nat, empty: bool)
    requires Inv(size, s) && c < |s.co| && s.co[c].WantReceive?
    ensures Inv(size, StepReceive(s, c, empty))
  {
    var t := StepReceive(s, c, empty);
    Moved(s.co, c, t.co[c]);
    assert LocalOk(s, s.co[c]) && t.co == s.co[c := t.co[c]];
    LocalsKept(s, t, c, t.co[c]);
  }

  lemma CloseKeeps<T>(size: nat, s: State<T>, c: nat)
    requires Inv(size, s) && c < |s.co| && IsClose(s.co[c])
    ensures Inv(size, StepClose(s, c))
  {
    var t := StepClose(s, c);
    Moved(s.co, c, t.co[c]);
    assert t.co == s.co[c := t.co[c]];
    LocalsKept(s, t, c, t.co[c]);
  }

  lemma CallKeeps<T>(size: nat, s: State<T>, c: nat, l: Local<T>, closing: bool)
    requires Inv(size, s) && c < |s.co| && s.co[c].Idle? && (l.AwaitSpace? || l.AwaitItem? || (l.KillItems? && closing))
    ensures Inv(size, At(s, c, l).(closed := s.closed || closing))
  {
    Moved(s.co, c, l);
    LocalsKept(s, At(s, c, l).(closed := s.closed || closing), c, l);
  }

  lemma StepKeepsInv<T>(size: nat, s: State<T>, m: Move<T>)
    requires Inv(size, s)
    ensures Inv(size, Step(s, m))
  {
    if m.c >= |s.co| || s.terminated {
    } else if m.act.Continue? {
      if IsSend(s.co[m.c]) {
        SendKeeps(size, s, m.c, m.act.empty);
      } else if IsClose(s.co[m.c]) {
        CloseKeeps(size, s, m.c);
      } else {
        ReceiveKeeps(size, s, m.c, m.act.empty);
      }
    } else if s.co[m.c].Idle? {
      match m.act
      case Send(x) => CallKeeps(size, s, m.c, AwaitSpace(x), false);
      case Receive => CallKeeps(size, s, m.c, AwaitItem, false);
      case Close => CallKeeps(size, s, m.c, KillItems, true);
    }
  }

  // ------------------------------------------------------------ every run

  lemma Reachable<T(!new)>(size: nat, n: nat, moves: seq<Move<T>>)
    ensures Inv(size, Run(Step, Init<T>(size, n), moves))
  {
    var inv := (s: State<T>) => Inv(size, s);
    InitInv<T>(size, n);
    forall s, m | inv(s) ensures inv(Step(s, m)) {
      StepKeepsInv(size, s, m);
    }
    RunKeeps(Step, inv, Init<T>(size, n), moves);
  }

  /** In every interleaving, before, during and after close, what was delivered
      followed by what is queued is exactly what was accepted, in lock order, and
      the queue never outgrows its size. */
  lemma FirstInFirstOut<T(!new)>(size: nat, n: nat, moves: seq<Move<T>>)
    ensures var s := Run(Step, Init<T>(size, n), moves);
            s.delivered + s.items == s.accepted && |s.items| <= size
  {
    Reachable(size, n, moves);
  }

  /** A receive fails only on a channel that has been closed, and so does the
      wait that lets it fail: one that holds an item permit of an open channel
      finds an item. */
  lemma NoFalseMiss<T(!new)>(size: nat, n: nat, moves: seq<Move<T>>)
    ensures var s := Run(Step, Init<T>(size, n), moves);
            && (s.misses > 0 ==> s.closed)
            && (!s.closed ==> forall i :: 0 <= i < |s.co| ==>
                  !s.co[i].Missed? && (s.co[i].Receiving? || s.co[i].WantReceive? ==> s.items != []))
  {
    Reachable(size, n, moves);
    var s := Run(Step, Init<T>(size, n), moves);
    CountNone(s.co, HoldsItem);
    assert forall i :: 0 <= i < |s.co| ==> LocalOk(s, s.co[i]);
  }

  /** Whoever is about to fail saw an empty queue and still holds the mutex. */
  ghost predicate MissedOk<T>(s: State<T>) {
    forall i :: 0 <= i < |s.co| && s.co[i].Missed? ==> s.items == []
  }

  lemma SendKeepsMissed<T>(s: State<T>, c: nat, empty: bool)
    requires MissedOk(s) && Count(s.co, IsLocked) <= 1 && c < |s.co| && IsSend(s.co[c])
    ensures MissedOk(StepSend(s, c, empty))
  {
    if s.co[c].Sending? {
      forall i | 0 <= i < |s.co| ensures !s.co[i].Missed? {
        if s.co[i].Missed? {
          CountTwo(s.co, IsLocked, i, c);
        }
      }
    }
  }

  lemma TakeKeepsMissed<T>(s: State<T>, c: nat)
    requires MissedOk(s) && c < |s.co|
    ensures MissedOk(TakeFront(s, c))
  {
    var t := TakeFront(s, c);
    forall i | 0 <= i < |t.co| && t.co[i].Missed? ensures t.items == [] {
      assert i != c ==> s.co[i].Missed?;
    }
  }

  lemma PlainKeepsMissed<T>(s: State<T>, t: State<T>, c: nat, l: Local<T>)
    requires MissedOk(s) && c < |s.co| && t.co == s.co[c := l] && t.items == s.items && !l.Missed?
    ensures MissedOk(t)
  {
  }

  lemma PermitKeepsMissed<T>(s: State<T>, c: nat, empty: bool)
    requires MissedOk(s) && c < |s.co| && s.co[c].AwaitItem?
    ensures MissedOk(TakeItemPermit(s, c, empty))
  {
    var t := TakeItemPermit(s, c, empty);
    if t != s { PlainKeepsMissed(s, t, c, WantReceive(!empty)); }
  }

  lemma LeaveKeepsMissed<T>(s: State<T>, c: nat, empty: bool)
    requires MissedOk(s) && c < |s.co| && (s.co[c].Received? || s.co[c].Missed? || s.co[c].NoteSpace?)
    ensures MissedOk(StepReceive(s, c, empty))
  {
    PlainKeepsMissed(s, StepReceive(s, c, empty), c, if s.co[c].Received? then NoteSpace else Idle);
  }

  lemma ReceiveKeepsMissed<T>(s: State<T>, c: nat, empty: bool)
    requires MissedOk(s) && c < |s.co| && !IsSend(s.co[c]) && !IsClose(s.co[c])
    ensures MissedOk(StepReceive(s, c, empty))
  {
    if s.co[c].Receiving? {
      TakeKeepsMissed(s, c);
    } else if s.co[c].AwaitItem? {
      PermitKeepsMissed(s, c, empty);
    } else if s.co[c].WantReceive? {
      if !s.owned { PlainKeepsMissed(s, StepReceive(s, c, empty), c, Receiving(s.co[c].permit)); }
    } else if !s.co[c].Idle? {
      LeaveKeepsMissed(s, c, empty);
    }
  }

  lemma StepKeepsMissed<T>(s: State<T>, m: Move<T>)
    requires MissedOk(s) && Count(s.co, IsLocked) <= 1
    ensures MissedOk(Step(s, m))
  {
    if m.c < |s.co| && !s.terminated && m.act.Continue? {
      if IsSend(s.co[m.c]) {
        SendKeepsMissed(s, m.c, m.act.empty);
      } else if !IsClose(s.co[m.c]) {
        ReceiveKeepsMissed(s, m.c, m.act.empty);
      }
    }
  }

  /** In every interleaving a receive fails only on a closed channel from which every
      item ever accepted has been delivered. */
  lemma MissMeansDrained<T(!new)>(size: nat, n: nat, moves: seq<Move<T>>, i: nat)
    ensures var s := Run(Step, Init<T>(size, n), moves);
            i < |s.co| && s.co[i].Missed? ==> s.closed && s.delivered == s.accepted
  {
    var inv := (s: State<T>) => Inv(size, s) && MissedOk(s);
    InitInv<T>(size, n);
    forall s, m | inv(s) ensures inv(Step(s, m)) {
      StepKeepsInv(size, s, m);
      StepKeepsMissed(s, m);
    }
    RunKeeps(Step, inv, Init<T>(size, n), moves);
    var s := Run(Step, Init<T>(size, n), moves);
    if i < |s.co| && s.co[i].Missed? {
      assert LocalOk(s, s.co[i]);
      assert s.delivered + [] == s.delivered;
    }
  }

  function Go<T>(c: nat): Move<T> {
    Move(c, Continue(true))
  }

  lemma OwnerMoves<T>(s: State<T>, d: nat)
    requires !s.terminated && d < |s.co| && IsLocked(s.co[d])
    ensures Step(s, Go(d)) != s
  {
    assert Step(s, Go(d)).terminated || Step(s, Go(d)).co[d] != s.co[d];
  }

  /** After close nobody waits for ever: in every run, whoever is in a call can take its next
      step, or waits for the mutex and its owner can. */
  lemma CloseUnblocks<T(!new)>(size: nat, n: nat, moves: seq<Move<T>>, c: nat)
    requires var s := Run(Step, Init<T>(size, n), moves);
             s.fullKilled && s.spaceKilled && !s.terminated && c < |s.co| && !s.co[c].Idle?
    ensures var s := Run(Step, Init<T>(size, n), moves);
            Step(s, Go(c)) != s || exists d :: 0 <= d < |s.co| && IsLocked(s.co[d]) && Step(s, Go(d)) != s
  {
    var s := Run(Step, Init<T>(size, n), moves);
    Reachable(size, n, moves);
    if s.co[c].WantSend? || s.co[c].WantReceive? {
      if s.owned {
        CountNone(s.co, IsLocked);
        var d :| 0 <= d < |s.co| && IsLocked(s.co[d]);
        OwnerMoves(s, d);
      } else {
        assert Step(s, Go(c)).owned;
      }
    } else if IsLocked(s.co[c]) {
      OwnerMoves(s, c);
    } else {
      assert Step(s, Go(c)).terminated || Step(s, Go(c)).co[c] != s.co[c];
    }
  }

  /** A receive by `c`, from its call to its return. */
  function Round<T>(c: nat): seq<Move<T>> {
    [Move(c, Receive)] + ([Go(c)] + ([Go(c)] + ([Go(c)] + ([Go(c)] + ([Go(c)] + [])))))
  }

  predicate Drainable<T>(s: State<T>, c: nat) {
    s.fullKilled && !s.terminated && !s.owned && c < |s.co| && s.co[c].Idle?
  }

  lemma RunRound<T>(s: State<T>, c: nat)
    ensures Run(Step, s, Round(c))
         == Step(Step(Step(Step(Step(Step(s, Move(c, Receive)), Go(c)), Go(c)), Go(c)), Go(c)), Go(c))
  {
    var g: Move<T> := Go(c);
    var s1 := Step(s, Move(c, Receive));
    var s2 := Step(s1, g);
    var s3 := Step(s2, g);
    var s4 := Step(s3, g);
    RunCons(Step, s, Move(c, Receive), [g] + ([g] + ([g] + ([g] + ([g] + [])))));
    RunCons(Step, s1, g, [g] + ([g] + ([g] + ([g] + []))));
    RunCons(Step, s2, g, [g] + ([g] + ([g] + [])));
    RunCons(Step, s3, g, [g] + ([g] + []));
    RunCons(Step, s4, g, [g] + []);
    RunCons(Step, Step(s4, g), g, []);
  }

  /** The way into the queue: no permit is needed any more. */
  lemma ReceiveGoesIn<T>(s: State<T>, c: nat)
    requires Drainable(s, c)
    ensures Step(Step(Step(s, Move(c, Receive)), Go(c)), Go(c)) == At(s, c, Receiving(false)).(owned := true)
  {
    var s1 := Step(s, Move(c, Receive));
    assert s1 == At(s, c, AwaitItem);
    assert Step(s1, Go(c)) == At(s, c, WantReceive(false));
  }

  /** The way out with the oldest item. */
  lemma ReceiveLeaves<T>(s: State<T>, c: nat)
    requires c < |s.co| && s.co[c].Receiving? && !s.terminated && s.items != []
    ensures Step(Step(Step(s, Go(c)), Go(c)), Go(c))
         == At(s, c, Idle).(owned := false, space := s.space + 1, items := s.items[1..],
                            delivered := s.delivered + [s.items[0]])
  {
    var s1 := Step(s, Go(c));
    assert s1 == At(s, c, Received).(items := s.items[1..], delivered := s.delivered + [s.items[0]]);
    assert Step(s1, Go(c)) == At(s1, c, NoteSpace).(owned := false);
  }

  /** With the mutex free, a receive on a closed channel gets the oldest item. */
  lemma RoundTakes<T>(s: State<T>, c: nat)
    requires Drainable(s, c) && s.items != []
    ensures Run(Step, s, Round(c))
         == s.(space := s.space + 1, items := s.items[1..], delivered := s.delivered + [s.items[0]])
  {
    RunRound(s, c);
    ReceiveGoesIn(s, c);
    var t := At(s, c, Receiving(false)).(owned := true);
    ReceiveLeaves(t, c);
    assert At(t, c, Idle).co == s.co;
  }

  /** Close loses nothing: whoever receives again and again on a closed channel gets
      every item that was accepted, in order, and misses none. */
  lemma {:induction false} CloseLosesNothing<T>(s: State<T>, c: nat) returns (moves: seq<Move<T>>)
    requires Drainable(s, c)
    ensures var t := Run(Step, s, moves);
            Drainable(t, c) && t.items == [] && t.delivered == s.delivered + s.items
            && t.accepted == s.accepted && t.misses == s.misses
    decreases |s.items|
  {
    if s.items == [] {
      moves := [];
      assert s.delivered + s.items == s.delivered;
    } else {
      RoundTakes(s, c);
      var t := Run(Step, s, Round(c));
      var rest := CloseLosesNothing(t, c);
      moves := Round(c) + rest;
      RunMore(Step, s, Round(c), rest);
      assert s.delivered + [s.items[0]] + s.items[1..] == s.delivered + s.items;
    }
  }

  /** Everybody rests or waits in vain. */
  ghost predicate Quiet<T>(s: State<T>) {
    forall i :: 0 <= i < |s.co| ==>
      s.co[i].Idle? || (s.co[i].AwaitSpace? && s.space == 0) || (s.co[i].AwaitItem? && s.full == 0)
  }

  /** Quiet and open: when nobody is on the move, a sender still waits only for a
      full queue and a receiver only for an empty one. */
  lemma QuietChannel<T(!new)>(size: nat, n: nat, moves: seq<Move<T>>)
    ensures var s := Run(Step, Init<T>(size, n), moves);
            !s.closed && Quiet(s)
            ==> && ((exists i :: 0 <= i < |s.co| && s.co[i].AwaitSpace?) ==> |s.items| == size)
                && ((exists i :: 0 <= i < |s.co| && s.co[i].AwaitItem?) ==> s.items == [])
  {
    Reachable(size, n, moves);
    var s := Run(Step, Init<T>(size, n), moves);
    if !s.closed && Quiet(s) {
      CountNone(s.co, HoldsSpace);
      CountNone(s.co, OwesSpace);
      CountNone(s.co, OwesItem);
      CountNone(s.co, HoldsItem);
    }
  }

  // ------------------------------------------------ the semaphores it stands on

  function ItemPhase<T>(l: Local<T>): Counter.Phase {
    if l.AwaitItem? then Counter.Wanting else Counter.Out
  }

  /** The semaphore that counts items. */
  function ItemSema<T>(s: State<T>): Counter.State {
    Counter.State(s.full, s.fullKilled, Phases(s.co, ItemPhase))
  }

  function SpacePhase<T>(l: Local<T>): Counter.Phase {
    if l.AwaitSpace? then Counter.Wanting else Counter.Out
  }

  /** The semaphore that counts free space. */
  function SpaceSema<T>(s: State<T>): Counter.State {
    Counter.State(s.space, s.spaceKilled, Phases(s.co, SpacePhase))
  }

  /** A step of `c` that both semaphores can follow. */
  ghost predicate Follows<T>(s: State<T>, t: State<T>, c: nat) {
    Counter.UserMove(ItemSema(s), ItemSema(t), c) && Counter.UserMove(SpaceSema(s), SpaceSema(t), c)
  }

  lemma Moves<T>(s: State<T>, t: State<T>, c: nat, l: Local<T>)
    requires c < |s.co| && t.co == s.co[c := l]
    requires Counter.Change(s.co[c].AwaitItem?, l.AwaitItem?, s.full, t.full, s.fullKilled, t.fullKilled)
    requires Counter.Change(s.co[c].AwaitSpace?, l.AwaitSpace?, s.space, t.space, s.spaceKilled, t.spaceKilled)
    ensures Follows(s, t, c)
  {
    PhaseUpdate(s.co, ItemPhase, c, l);
    PhaseUpdate(s.co, SpacePhase, c, l);
  }

  lemma Stays<T>(s: State<T>, c: nat)
    requires c < |s.co|
    ensures Follows(s, s, c) && Follows(s, s.(terminated := true), c)
  {
    assert s.co == s.co[c := s.co[c]];
    Moves(s, s, c, s.co[c]);
    Moves(s, s.(terminated := true), c, s.co[c]);
  }

  lemma SpaceFollows<T>(s: State<T>, c: nat, empty: bool)
    requires c < |s.co| && s.co[c].AwaitSpace?
    ensures Follows(s, TakeSpacePermit(s, c, s.co[c].x, empty), c)
  {
    var t := TakeSpacePermit(s, c, s.co[c].x, empty);
    if t == s { Stays(s, c); } else { Moves(s, t, c, WantSend(s.co[c].x, !empty)); }
  }

  lemma ItemFollows<T>(s: State<T>, c: nat, empty: bool)
    requires c < |s.co| && s.co[c].AwaitItem?
    ensures Follows(s, TakeItemPermit(s, c, empty), c)
  {
    var t := TakeItemPermit(s, c, empty);
    if t == s { Stays(s, c); } else { Moves(s, t, c, WantReceive(!empty)); }
  }

  lemma FrontFollows<T>(s: State<T>, c: nat)
    requires c < |s.co| && s.co[c].Receiving?
    ensures Follows(s, TakeFront(s, c), c)
  {
    Moves(s, TakeFront(s, c), c, if s.items == [] then Missed else Received);
  }

  lemma SendEnters<T>(s: State<T>, c: nat, empty: bool)
    requires c < |s.co| && (s.co[c].WantSend? || s.co[c].Sending?)
    ensures Follows(s, StepSend(s, c, empty), c)
  {
    var t, l := StepSend(s, c, empty), s.co[c];
    Stays(s, c);
    if t.co != s.co {
      Moves(s, t, c, if l.WantSend? then Sending(l.x, l.permit) else Sent);
    }
  }

  lemma SendEnds<T>(s: State<T>, c: nat, empty: bool)
    requires c < |s.co| && (s.co[c].Sent? || s.co[c].NoteItem?)
    ensures Follows(s, StepSend(s, c, empty), c)
  {
    Moves(s, StepSend(s, c, empty), c, if s.co[c].Sent? then NoteItem else Idle);
  }

  lemma SendFollows<T>(s: State<T>, c: nat, empty: bool)
    requires c < |s.co| && IsSend(s.co[c])
    ensures Follows(s, StepSend(s, c, empty), c)
  {
    if s.co[c].AwaitSpace? {
      SpaceFollows(s, c, empty);
    } else if s.co[c].WantSend? || s.co[c].Sending? {
      SendEnters(s, c, empty);
    } else {
      SendEnds(s, c, empty);
    }
  }

  lemma ReceiveEnters<T>(s: State<T>, c: nat, empty: bool)
    requires c < |s.co| && s.co[c].WantReceive?
    ensures Follows(s, StepReceive(s, c, empty), c)
  {
    Stays(s, c);
    if !s.owned {
      Moves(s, StepReceive(s, c, empty), c, Receiving(s.co[c].permit));
    }
  }

  lemma ReceiveEnds<T>(s: State<T>, c: nat, empty: bool)
    requires c < |s.co| && (s.co[c].Received? || s.co[c].Missed? || s.co[c].NoteSpace?)
    ensures Follows(s, StepReceive(s, c, empty), c)
  {
    Moves(s, StepReceive(s, c, empty), c, if s.co[c].Received? then NoteSpace else Idle);
  }

  lemma ReceiveFollows<T>(s: State<T>, c: nat, empty: bool)
    requires c < |s.co| && !IsSend(s.co[c]) && !IsClose(s.co[c])
    ensures Follows(s, StepReceive(s, c, empty), c)
  {
    if s.co[c].AwaitItem? {
      ItemFollows(s, c, empty);
    } else if s.co[c].Receiving? {
      FrontFollows(s, c);
    } else if s.co[c].WantReceive? {
      ReceiveEnters(s, c, empty);
    } else if s.co[c].Idle? {
      Stays(s, c);
    } else {
      ReceiveEnds(s, c, empty);
    }
  }

  lemma CloseFollows<T>(s: State<T>, c: nat)
    requires c < |s.co|
    ensures Follows(s, StepClose(s, c), c)
  {
    var t := StepClose(s, c);
    Moves(s, t, c, t.co[c]);
  }

  lemma CallFollows<T>(s: State<T>, m: Move<T>)
    requires m.c < |s.co| && (!m.act.Continue? || s.terminated)
    ensures Follows(s, Step(s, m), m.c)
  {
    var t := Step(s, m);
    if t == s {
      Stays(s, m.c);
    } else {
      Moves(s, t, m.c, if m.act.Send? then AwaitSpace(m.act.x) else if m.act.Receive? then AwaitItem else KillItems);
    }
  }

  lemma StepFollows<T>(s: State<T>, m: Move<T>)
    requires m.c < |s.co|
    ensures Follows(s, Step(s, m), m.c)
  {
    if !m.act.Continue? || s.terminated {
      CallFollows(s, m);
    } else if IsSend(s.co[m.c]) {
      SendFollows(s, m.c, m.act.empty);
    } else if IsClose(s.co[m.c]) {
      CloseFollows(s, m.c);
    } else {
      ReceiveFollows(s, m.c, m.act.empty);
    }
  }

  /** What a step of the channel does to its two semaphores the counting semaphore, and
      so `usema`, can do. */
  lemma MovesCounters<T>(s: State<T>, m: Move<T>) returns (items: seq<Counter.Move>, space: seq<Counter.Move>)
    ensures Counter.Block(ItemSema(s), m.c, items) && Counter.Block(SpaceSema(s), m.c, space)
    ensures ItemSema(Step(s, m)) == Run(Counter.Step, ItemSema(s), items)
    ensures SpaceSema(Step(s, m)) == Run(Counter.Step, SpaceSema(s), space)
  {
    items, space := [], [];
    if m.c < |s.co| {
      StepFollows(s, m);
      items := Counter.UserMoves(ItemSema(s), ItemSema(Step(s, m)), m.c);
      space := Counter.UserMoves(SpaceSema(s), SpaceSema(Step(s, m)), m.c);
    }
  }

  /** A permit handed out, or a waiter turned away, by one of the two semaphores. */
  predicate Outcome(a: Counter.State, c: nat, m: Counter.Move) {
    (m == Counter.Take(c) || m == Counter.Dismiss(c)) && Counter.Enabled(a, m)
  }

  /** And whatever the counting semaphores can do for a waiting sender or receiver, a kill
      included, a step of the channel takes up: nothing else moves. */
  lemma ItemsServe<T>(s: State<T>, c: nat, m: Counter.Move)
    requires !s.terminated && Outcome(ItemSema(s), c, m)
    ensures var t := Step(s, Move(c, Continue(m.Dismiss?)));
            && ItemSema(t) == Run(Counter.Step, ItemSema(s), [m, Counter.Return(c)]) && SpaceSema(t) == SpaceSema(s)
            && t == s.(full := t.full, co := t.co)
  {
    var l := WantReceive(m.Take?);
    PhaseUpdate(s.co, ItemPhase, c, l);
    PhaseUpdate(s.co, SpacePhase, c, l);
    if m.Take? { Counter.TakeReturn(ItemSema(s), c); } else { Counter.RefuseReturn(ItemSema(s), c, m); }
  }

  lemma SpaceServes<T>(s: State<T>, c: nat, m: Counter.Move)
    requires !s.terminated && Outcome(SpaceSema(s), c, m)
    ensures var t := Step(s, Move(c, Continue(m.Dismiss?)));
            && SpaceSema(t) == Run(Counter.Step, SpaceSema(s), [m, Counter.Return(c)]) && ItemSema(t) == ItemSema(s)
            && t == s.(space := t.space, co := t.co)
  {
    assert SpaceSema(s).phase[c] == SpacePhase(s.co[c]);
    var l := WantSend(s.co[c].x, m.Take?);
    PhaseUpdate(s.co, ItemPhase, c, l);
    PhaseUpdate(s.co, SpacePhase, c, l);
    if m.Take? { Counter.TakeReturn(SpaceSema(s), c); } else { Counter.RefuseReturn(SpaceSema(s), c, m); }
  }

  // --------------------------------------------------- the mutex it stands on

  function LockPhase<T>(l: Local<T>): Lock.Phase {
    if l.WantSend? || l.WantReceive? then Lock.Wanting else if IsLocked(l) then Lock.Holding else Lock.Out
  }

  function TheMutex<T>(s: State<T>): Lock.State {
    Lock.State(s.owned, Phases(s.co, LockPhase))
  }

  lemma LockMoves<T>(s: State<T>, t: State<T>, c: nat, l: Local<T>)
    requires c < |s.co| && t.co == s.co[c := l]
    requires Lock.Change(LockPhase(s.co[c]), LockPhase(l), s.owned, t.owned)
    ensures Lock.UserMove(TheMutex(s), TheMutex(t), c)
  {
    PhaseUpdate(s.co, LockPhase, c, l);
  }

  lemma LockStays<T>(s: State<T>, t: State<T>, c: nat)
    requires c < |s.co| && t.co == s.co && t.owned == s.owned
    ensures Lock.UserMove(TheMutex(s), TheMutex(t), c)
  {
    assert s.co == s.co[c := s.co[c]];
    LockMoves(s, t, c, s.co[c]);
  }

  lemma LockSends<T>(s: State<T>, c: nat, empty: bool)
    requires c < |s.co| && IsSend(s.co[c])
    ensures Lock.UserMove(TheMutex(s), TheMutex(StepSend(s, c, empty)), c)
  {
    var t := StepSend(s, c, empty);
    match s.co[c]
    case AwaitSpace(x) =>
      if t == s { LockStays(s, t, c); } else { LockMoves(s, t, c, WantSend(x, !empty)); }
    case WantSend(x, permit) =>
      if s.owned { LockStays(s, t, c); } else { LockMoves(s, t, c, Sending(x, permit)); }
    case Sending(_, _) =>
      if s.closed { LockStays(s, t, c); } else { LockMoves(s, t, c, Sent); }
    case Sent => LockMoves(s, t, c, NoteItem);
    case NoteItem => LockMoves(s, t, c, Idle);
  }

  lemma LockReceiveBegins<T>(s: State<T>, c: nat, empty: bool)
    requires c < |s.co| && (s.co[c].AwaitItem? || s.co[c].WantReceive? || s.co[c].Receiving?)
    ensures Lock.UserMove(TheMutex(s), TheMutex(StepReceive(s, c, empty)), c)
  {
    var t := StepReceive(s, c, empty);
    match s.co[c]
    case AwaitItem =>
      if t == s { LockStays(s, t, c); } else { LockMoves(s, t, c, WantReceive(!empty)); }
    case WantReceive(permit) =>
      if s.owned { LockStays(s, t, c); } else { LockMoves(s, t, c, Receiving(permit)); }
    case Receiving(_) => LockMoves(s, t, c, if s.items == [] then Missed else Received);
  }

  lemma LockReceiveEnds<T>(s: State<T>, c: nat, empty: bool)
    requires c < |s.co| && (s.co[c].Received? || s.co[c].Missed? || s.co[c].NoteSpace?)
    ensures Lock.UserMove(TheMutex(s), TheMutex(StepReceive(s, c, empty)), c)
  {
    LockMoves(s, StepReceive(s, c, empty), c, if s.co[c].Received? then NoteSpace else Idle);
  }

  lemma LockReceives<T>(s: State<T>, c: nat, empty: bool)
    requires c < |s.co| && !IsSend(s.co[c]) && !IsClose(s.co[c])
    ensures Lock.UserMove(TheMutex(s), TheMutex(StepReceive(s, c, empty)), c)
  {
    if s.co[c].Idle? {
      LockStays(s, s, c);
    } else if s.co[c].AwaitItem? || s.co[c].WantReceive? || s.co[c].Receiving? {
      LockReceiveBegins(s, c, empty);
    } else {
      LockReceiveEnds(s, c, empty);
    }
  }

  lemma LockCloses<T>(s: State<T>, c: nat)
    requires c < |s.co| && IsClose(s.co[c])
    ensures Lock.UserMove(TheMutex(s), TheMutex(StepClose(s, c)), c)
  {
    var t := StepClose(s, c);
    if t.terminated && t.co == s.co {
      LockStays(s, t, c);
    } else {
      LockMoves(s, t, c, if s.co[c].KillItems? then KillSpace else Idle);
    }
  }

  lemma LockCalls<T>(s: State<T>, m: Move<T>)
    requires m.c < |s.co| && (!m.act.Continue? || s.terminated)
    ensures Lock.UserMove(TheMutex(s), TheMutex(Step(s, m)), m.c)
  {
    var t := Step(s, m);
    if t == s {
      LockStays(s, t, m.c);
    } else {
      var l := if m.act.Send? then AwaitSpace(m.act.x) else if m.act.Receive? then AwaitItem else KillItems;
      LockMoves(s, t, m.c, l);
    }
  }

  lemma StepLocks<T>(s: State<T>, m: Move<T>)
    requires m.c < |s.co|
    ensures Lock.UserMove(TheMutex(s), TheMutex(Step(s, m)), m.c)
  {
    if !m.act.Continue? || s.terminated {
      LockCalls(s, m);
    } else if IsSend(s.co[m.c]) {
      LockSends(s, m.c, m.act.empty);
    } else if IsClose(s.co[m.c]) {
      LockCloses(s, m.c);
    } else {
      LockReceives(s, m.c, m.act.empty);
    }
  }

  /** Each step of the channel is one block of its mutex. */
  lemma MovesLock<T>(s: State<T>, m: Move<T>) returns (abs: seq<Lock.Move>)
    ensures Lock.Block(TheMutex(s), m.c, abs) && TheMutex(Step(s, m)) == Run(Lock.Step, TheMutex(s), abs)
  {
    abs := [];
    if m.c < |s.co| {
      StepLocks(s, m);
      abs := Lock.UserMoves(TheMutex(s), TheMutex(Step(s, m)), m.c);
    }
  }

  /** And whenever the mutex is free, whoever wants it has a step that takes it. */
  lemma LockServes<T>(s: State<T>, c: nat)
    requires !s.terminated && Lock.Enabled(TheMutex(s), Lock.Acquire(c))
    ensures var t := Step(s, Go(c));
            && TheMutex(t) == Run(Lock.Step, TheMutex(s), [Lock.Acquire(c)])
            && t == s.(owned := true, co := t.co)
  {
    assert TheMutex(s).phase[c] == LockPhase(s.co[c]);
    var t := Step(s, Go(c));
    PhaseUpdate(s.co, LockPhase, c, t.co[c]);
    RunOne(Lock.Step, TheMutex(s), Lock.Acquire(c));
  }
}
