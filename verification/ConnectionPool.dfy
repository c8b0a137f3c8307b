/** `upool`: connections handed out under a limited number of permits. */
module ConnectionPool {
  // Idle connections are closed by a reaper, and all are given up by `Close`.  Each
  // `Step` is one critical section under `mtx`, one operation on the permit semaphore
  // (an abstract counter: module Semaphore), or the end of a connect.
  import opened Collections
  import opened Interleavings
  import Counter = PermitCounter

  type Connection = nat

  datatype Local =
    | Idle
    // Acquire
    | Waiting                   // registered; about to take a permit
    | Granted                   // has a permit; about to look for an idle connection
    | Connecting
    | Inserting(c: Connection)  // connected; about to enter it in `all`
    | Refunding                 // failed; about to give the permit back
    | Lent(c: Connection)       // returned to the caller, not yet released
    // Release
    | Signalling                // the connection is back; about to give the permit back
    // Close
    | Closing                   // closed; about to issue the permits of the waiters

  datatype State = State(
    max: nat, minIdle: nat,
    permits: nat,
    pending: int,               // pending_permit_waits
    closed: bool,
    wakes: nat,                 // permits that Close has still to issue
    idle: seq<Connection>,
    all: set<Connection>,
    next: Connection,           // a connection never made before
    shut: set<Connection>,      // connections that were closed
    co: seq<Local>)

  datatype Act = Acquire | Release(broken: bool) | Connected(ok: bool) | Close | Reap | Continue

  datatype Move = Move(c: nat, act: Act)

  /** A configured size of 0 counts as 1. */
  function Init(size: nat, minIdle: nat, n: nat): State {
    var max := if size == 0 then 1 else size;
    State(max, minIdle, max, 0, false, 0, [], {}, 0, {}, seq(n, _ => Idle))
  }

  // --------------------------------------------------------------- the steps

  function At(s: State, c: nat, l: Local): State
    requires c < |s.co|
  {
    s.(co := s.co[c := l])
  }

  function StepGranted(s: State, c: nat): State
    requires c < |s.co|
  {
    var t := s.(pending := s.pending - 1);
    if s.closed then At(t, c, Idle)
    else if s.idle != [] then At(t, c, Lent(s.idle[0])).(idle := s.idle[1..])
    else At(t, c, Connecting)
  }

  function StepConnected(s: State, c: nat, ok: bool): State
    requires c < |s.co|
  {
    if ok then At(s, c, Inserting(s.next)).(next := s.next + 1) else At(s, c, Refunding)
  }

  function StepInsert(s: State, c: nat, conn: Connection): State
    requires c < |s.co|
  {
    if s.closed then At(s, c, Refunding).(shut := s.shut + {conn})
    else At(s, c, Lent(conn)).(all := s.all + {conn})
  }

  function StepRelease(s: State, c: nat, conn: Connection, broken: bool): State
    requires c < |s.co|
  {
    var t := At(s, c, Signalling);
    if !broken && !s.closed then t.(idle := s.idle + [conn])
    else t.(all := s.all - {conn}, shut := s.shut + {conn})
  }

  function StepClose(s: State, c: nat): State
    requires c < |s.co|
  {
    if s.closed then s
    else At(s, c, Closing).(closed := true, wakes := if s.pending < 0 then 0 else s.pending,
                            shut := s.shut + s.all, all := {}, idle := [])
  }

  function StepReap(s: State): State {
    if !s.closed && |s.idle| > s.minIdle && s.idle != [] then
      s.(idle := s.idle[1..], all := s.all - {s.idle[0]}, shut := s.shut + {s.idle[0]})
    else s
  }

  function StepIdle(s: State, c: nat, act: Act): State
    requires c < |s.co|
  {
    match act
    case Acquire => if s.closed then s else At(s, c, Waiting).(pending := s.pending + 1)
    case Close => StepClose(s, c)
    case Reap => StepReap(s)
    case _ => s
  }

  function StepGo(s: State, c: nat): State
    requires c < |s.co|
  {
    match s.co[c]
    case Waiting => if s.permits > 0 then At(s, c, Granted).(permits := s.permits - 1) else s
    case Granted => StepGranted(s, c)
    case Inserting(conn) => StepInsert(s, c, conn)
    case Refunding => At(s, c, Idle).(permits := s.permits + 1)
    case Signalling => At(s, c, Idle).(permits := s.permits + 1)
    case Closing => if s.wakes > 0 then s.(permits := s.permits + 1, wakes := s.wakes - 1) else At(s, c, Idle)
    case _ => s
  }

  function Step(s: State, m: Move): State {
    if m.c >= |s.co| then s
    else if s.co[m.c].Idle? then StepIdle(s, m.c, m.act)
    else if m.act.Continue? then StepGo(s, m.c)
    else if s.co[m.c].Connecting? && m.act.Connected? then StepConnected(s, m.c, m.act.ok)
    else if s.co[m.c].Lent? && m.act.Release? then StepRelease(s, m.c, s.co[m.c].c, m.act.broken)
    else s
  }

  // ------------------------------------------------------------- the accounts

  predicate IsWaiting(l: Local) { l.Waiting? }
  predicate IsGranted(l: Local) { l.Granted? }
  predicate InUse(l: Local) { l.Connecting? || l.Inserting? || l.Lent? }
  predicate OwesPermit(l: Local) { l.Refunding? || l.Signalling? }

  datatype Tally = Tally(waiting: nat, granted: nat, inUse: nat, owed: nat)

  ghost function Tallied(co: seq<Local>): Tally {
    Tally(Count(co, IsWaiting), Count(co, IsGranted), Count(co, InUse), Count(co, OwesPermit))
  }

  /** The counts after a coroutine went from `a` to `b`. */
  predicate Shifted(t: Tally, u: Tally, a: Local, b: Local) {
    && u.waiting == t.waiting - One(IsWaiting(a)) + One(IsWaiting(b))
    && u.granted == t.granted - One(IsGranted(a)) + One(IsGranted(b))
    && u.inUse == t.inUse - One(InUse(a)) + One(InUse(b))
    && u.owed == t.owed - One(OwesPermit(a)) + One(OwesPermit(b))
  }

  lemma TallyUpdate(co: seq<Local>, c: nat, l: Local)
    requires c < |co|
    ensures Shifted(Tallied(co), Tallied(co[c := l]), co[c], l)
  {
    CountUpdate(co, c, l, IsWaiting);
    CountUpdate(co, c, l, IsGranted);
    CountUpdate(co, c, l, InUse);
    CountUpdate(co, c, l, OwesPermit);
  }

  /** Where every permit is, and how many connections there are. */
  predicate Accounts(s: State, t: Tally) {
    && s.pending == t.waiting + t.granted
    && if s.closed then
         && s.idle == []
         && s.permits + s.wakes + t.inUse + t.owed == s.max + t.waiting
         && t.inUse + t.owed <= s.max
       else
         && s.wakes == 0
         && s.permits + t.granted + t.inUse + t.owed == s.max
         && |s.idle| + t.inUse <= s.max
  }

  lemma StepMoved(s: State, m: Move)
    requires m.c < |s.co|
    ensures |Step(s, m).co| == |s.co|
    ensures Shifted(Tallied(s.co), Tallied(Step(s, m).co), s.co[m.c], Step(s, m).co[m.c])
  {
    var t := Step(s, m);
    assert t.co == s.co[m.c := t.co[m.c]];
    TallyUpdate(s.co, m.c, t.co[m.c]);
  }

  lemma GrantedAccounts(s: State, c: nat, t: Tally, u: Tally)
    requires c < |s.co| && s.co[c].Granted? && Accounts(s, t) && Shifted(t, u, s.co[c], StepGranted(s, c).co[c])
    ensures Accounts(StepGranted(s, c), u)
  {
  }

  lemma IdleAccounts(s: State, c: nat, act: Act, t: Tally, u: Tally)
    requires c < |s.co| && s.co[c].Idle? && Accounts(s, t) && Shifted(t, u, Idle, StepIdle(s, c, act).co[c])
    ensures Accounts(StepIdle(s, c, act), u)
  {
  }

  lemma GoAccounts(s: State, c: nat, t: Tally, u: Tally)
    requires c < |s.co| && Accounts(s, t) && Shifted(t, u, s.co[c], StepGo(s, c).co[c])
    ensures Accounts(StepGo(s, c), u)
  {
    if s.co[c].Granted? {
      GrantedAccounts(s, c, t, u);
    }
  }

  lemma MoveAccounts(s: State, m: Move, t: Tally, u: Tally)
    requires m.c < |s.co| && Accounts(s, t) && |Step(s, m).co| == |s.co|
    requires Shifted(t, u, s.co[m.c], Step(s, m).co[m.c])
    ensures Accounts(Step(s, m), u)
  {
    if s.co[m.c].Idle? {
      IdleAccounts(s, m.c, m.act, t, u);
    } else if m.act.Continue? {
      GoAccounts(s, m.c, t, u);
    }
  }

  lemma StepAccounts(s: State, m: Move)
    requires Accounts(s, Tallied(s.co))
    ensures Accounts(Step(s, m), Tallied(Step(s, m).co))
  {
    if m.c < |s.co| {
      StepMoved(s, m);
      MoveAccounts(s, m, Tallied(s.co), Tallied(Step(s, m).co));
    }
  }

  // --------------------------------------------------------- the connections

  predicate Holds(l: Local, conn: Connection) {
    (l.Lent? || l.Inserting?) && l.c == conn
  }

  /** Nobody else has the connection of coroutine `c`, and nobody can get it. */
  ghost predicate HeldOk(s: State, c: nat)
    requires c < |s.co|
  {
    s.co[c].Lent? || s.co[c].Inserting? ==>
      var conn := s.co[c].c;
      && conn < s.next && conn !in s.idle
      && (s.co[c].Lent? && !s.closed ==> conn in s.all)
      && (s.co[c].Inserting? ==> conn !in s.all && conn !in s.shut)
      && OnlyHolder(s.co, c, conn)
  }

  ghost predicate OnlyHolder(co: seq<Local>, c: nat, conn: Connection) {
    forall d :: 0 <= d < |co| && d != c ==> !Holds(co[d], conn)
  }

  ghost predicate HasHolder(co: seq<Local>, conn: Connection, inserting: bool) {
    exists c :: 0 <= c < |co| && Holds(co[c], conn) && co[c].Inserting? == inserting
  }

  /** Every connection ever made is idle, lent, being entered or shut. */
  ghost predicate KnownOk(s: State, conn: Connection) {
    && (conn in s.all ==> conn in s.idle || HasHolder(s.co, conn, false))
    && (conn < s.next && conn !in s.shut ==> conn in s.all || HasHolder(s.co, conn, true))
  }

  ghost predicate SetsOk(s: State) {
    && Distinct(s.idle)
    && (forall conn :: conn in s.idle ==> conn in s.all)
    && (forall conn :: conn in s.all ==> conn < s.next && conn !in s.shut)
    && (forall conn :: conn in s.shut ==> conn < s.next)
    && (s.closed ==> s.all == {} && s.idle == [])
  }

  ghost predicate Connections(s: State) {
    && SetsOk(s)
    && (forall c :: 0 <= c < |s.co| ==> HeldOk(s, c))
    && (forall conn :: KnownOk(s, conn))
  }

  lemma HolderStays(co: seq<Local>, c: nat, l: Local, conn: Connection, inserting: bool)
    requires c < |co| && HasHolder(co, conn, inserting) && !Holds(co[c], conn)
    ensures HasHolder(co[c := l], conn, inserting)
  {
    var d :| 0 <= d < |co| && Holds(co[d], conn) && co[d].Inserting? == inserting;
    assert Holds(co[c := l][d], conn);
  }

  lemma KnownStays(s: State, t: State, c: nat, l: Local, conn: Connection)
    requires c < |s.co| && t.co == s.co[c := l] && KnownOk(s, conn) && !Holds(s.co[c], conn)
    requires (conn in t.all <==> conn in s.all) && (conn in t.idle <==> conn in s.idle)
    requires (conn in t.shut <==> conn in s.shut) && (conn < t.next ==> conn < s.next)
    ensures KnownOk(t, conn)
  {
    if HasHolder(s.co, conn, false) { HolderStays(s.co, c, l, conn, false); }
    if HasHolder(s.co, conn, true) { HolderStays(s.co, c, l, conn, true); }
  }

  /** A step that moves no connection. */
  lemma PlainConnections(s: State, t: State, c: nat, l: Local)
    requires Connections(s) && c < |s.co| && !s.co[c].Lent? && !s.co[c].Inserting? && !l.Lent? && !l.Inserting?
    requires t.co == s.co[c := l] && t.idle == s.idle && t.all == s.all
    requires t.next == s.next && t.shut == s.shut && t.closed == s.closed
    ensures Connections(t)
  {
    forall d | 0 <= d < |t.co| ensures HeldOk(t, d) {
      assert HeldOk(s, d);
    }
    forall conn ensures KnownOk(t, conn) {
      assert KnownOk(s, conn);
      KnownStays(s, t, c, l, conn);
    }
  }

  lemma TakeIdleConnections(s: State, c: nat)
    requires Connections(s) && c < |s.co| && s.co[c].Granted? && !s.closed && s.idle != []
    ensures Connections(StepGranted(s, c))
  {
    var t, taken := StepGranted(s, c), s.idle[0];
    var l := Lent(taken);
    assert s.idle == [taken] + t.idle;
    assert taken in s.idle && taken !in t.idle;
    forall e | 0 <= e < |s.co| ensures !Holds(s.co[e], taken) {
      assert HeldOk(s, e);
    }
    forall d | 0 <= d < |t.co| ensures HeldOk(t, d) {
      assert HeldOk(s, d);
    }
    forall conn ensures KnownOk(t, conn) {
      assert KnownOk(s, conn);
      if conn == taken {
        assert Holds(t.co[c], conn);
      } else {
        KnownStays(s, t, c, l, conn);
      }
    }
  }

  lemma ConnectedConnections(s: State, c: nat)
    requires Connections(s) && c < |s.co| && s.co[c].Connecting?
    ensures Connections(StepConnected(s, c, true))
  {
    var t := StepConnected(s, c, true);
    forall e | 0 <= e < |s.co| ensures !Holds(s.co[e], s.next) {
      assert HeldOk(s, e);
    }
    forall d | 0 <= d < |t.co| ensures HeldOk(t, d) {
      assert HeldOk(s, d);
    }
    forall conn ensures KnownOk(t, conn) {
      assert KnownOk(s, conn);
      if conn == s.next {
        assert Holds(t.co[c], conn);
      } else {
        KnownStays(s, t, c, Inserting(s.next), conn);
      }
    }
  }

  lemma InsertConnections(s: State, c: nat)
    requires Connections(s) && c < |s.co| && s.co[c].Inserting?
    ensures Connections(StepInsert(s, c, s.co[c].c))
  {
    var made := s.co[c].c;
    var t := StepInsert(s, c, made);
    assert HeldOk(s, c);
    forall d | 0 <= d < |t.co| ensures HeldOk(t, d) {
      assert HeldOk(s, d);
    }
    forall conn ensures KnownOk(t, conn) {
      assert KnownOk(s, conn);
      if conn == made {
        assert !s.closed ==> Holds(t.co[c], conn);
      } else {
        KnownStays(s, t, c, t.co[c], conn);
      }
    }
  }

  lemma ReleaseConnections(s: State, c: nat, broken: bool)
    requires Connections(s) && c < |s.co| && s.co[c].Lent?
    ensures Connections(StepRelease(s, c, s.co[c].c, broken))
  {
    var back := s.co[c].c;
    var t := StepRelease(s, c, back, broken);
    assert HeldOk(s, c);
    forall d | 0 <= d < |t.co| ensures HeldOk(t, d) {
      assert HeldOk(s, d);
    }
    forall conn ensures KnownOk(t, conn) {
      assert KnownOk(s, conn);
      if conn != back {
        KnownStays(s, t, c, Signalling, conn);
      } else {
        assert t.idle != s.idle ==> t.idle[|s.idle|] == back;
      }
    }
  }

  lemma CloseConnections(s: State, c: nat)
    requires Connections(s) && c < |s.co| && s.co[c].Idle? && !s.closed
    ensures Connections(StepClose(s, c))
  {
    var t := StepClose(s, c);
    forall d | 0 <= d < |t.co| ensures HeldOk(t, d) {
      assert HeldOk(s, d);
    }
    forall conn ensures KnownOk(t, conn) {
      assert KnownOk(s, conn);
      if HasHolder(s.co, conn, true) { HolderStays(s.co, c, Closing, conn, true); }
    }
  }

  lemma ReapConnections(s: State)
    requires Connections(s)
    ensures Connections(StepReap(s))
  {
    var t := StepReap(s);
    if t != s {
      assert s.idle == [s.idle[0]] + t.idle;
      forall d | 0 <= d < |t.co| ensures HeldOk(t, d) {
        assert HeldOk(s, d);
      }
      forall conn ensures KnownOk(t, conn) {
        assert KnownOk(s, conn);
      }
    }
  }

  lemma IdleConnections(s: State, c: nat, act: Act)
    requires Connections(s) && c < |s.co| && s.co[c].Idle?
    ensures Connections(StepIdle(s, c, act))
  {
    match act {
      case Acquire => if !s.closed { PlainConnections(s, StepIdle(s, c, act), c, Waiting); }
      case Close => if !s.closed { CloseConnections(s, c); }
      case Reap => ReapConnections(s);
      case _ =>
    }
  }

  lemma GoConnections(s: State, c: nat)
    requires Connections(s) && c < |s.co|
    ensures Connections(StepGo(s, c))
  {
    var t := StepGo(s, c);
    match s.co[c] {
      case Waiting => if s.permits > 0 { PlainConnections(s, t, c, Granted); }
      case Granted =>
        if s.closed { PlainConnections(s, t, c, Idle); }
        else if s.idle != [] { TakeIdleConnections(s, c); }
        else { PlainConnections(s, t, c, Connecting); }
      case Inserting(conn) => InsertConnections(s, c);
      case Refunding => PlainConnections(s, t, c, Idle);
      case Signalling => PlainConnections(s, t, c, Idle);
      case Closing => PlainConnections(s, t, c, t.co[c]);
      case _ =>
    }
  }

  lemma StepConnections(s: State, m: Move)
    requires Connections(s)
    ensures Connections(Step(s, m))
  {
    if m.c < |s.co| {
      if s.co[m.c].Idle? {
        IdleConnections(s, m.c, m.act);
      } else if m.act.Continue? {
        GoConnections(s, m.c);
      } else if s.co[m.c].Connecting? && m.act.Connected? {
        if m.act.ok { ConnectedConnections(s, m.c); } else { PlainConnections(s, Step(s, m), m.c, Refunding); }
      } else if s.co[m.c].Lent? && m.act.Release? {
        ReleaseConnections(s, m.c, m.act.broken);
      }
    }
  }

  // ------------------------------------------------------------ the theorems

  ghost predicate Inv(s: State) {
    Accounts(s, Tallied(s.co)) && Connections(s)
  }

  lemma InitInv(size: nat, minIdle: nat, n: nat)
    ensures Inv(Init(size, minIdle, n))
  {
    var s := Init(size, minIdle, n);
    CountNone(s.co, IsWaiting);
    CountNone(s.co, IsGranted);
    CountNone(s.co, InUse);
    CountNone(s.co, OwesPermit);
  }

  lemma Reachable(size: nat, minIdle: nat, n: nat, moves: seq<Move>)
    ensures Inv(Run(Step, Init(size, minIdle, n), moves))
  {
    InitInv(size, minIdle, n);
    forall s, m | Inv(s) ensures Inv(Step(s, m)) {
      StepAccounts(s, m);
      StepConnections(s, m);
    }
    RunKeeps(Step, Inv, Init(size, minIdle, n), moves);
  }

  /** Until Close, the free permits and those of every phase that holds one add up to
      the size of the pool, and no more connections exist than that. */
  lemma PermitsConserved(size: nat, minIdle: nat, n: nat, moves: seq<Move>)
    ensures var s := Run(Step, Init(size, minIdle, n), moves);
            !s.closed ==>
              && s.permits + Count(s.co, IsGranted) + Count(s.co, InUse) + Count(s.co, OwesPermit) == s.max
              && |s.idle| + Count(s.co, InUse) <= s.max
              && s.pending == Count(s.co, IsWaiting) + Count(s.co, IsGranted)
  {
    Reachable(size, minIdle, n, moves);
  }

  /** Until Close, `all` is exactly the idle connections and those lent, no connection
      is lent twice or lent while idle, and none that is lent or idle has been shut. */
  lemma AllIsIdleAndLent(size: nat, minIdle: nat, n: nat, moves: seq<Move>, conn: Connection, c: nat, d: nat)
    ensures var s := Run(Step, Init(size, minIdle, n), moves);
            !s.closed ==>
              && (conn in s.all <==> conn in s.idle || HasHolder(s.co, conn, false))
              && (conn in s.all ==> conn !in s.shut)
              && (c < |s.co| && d < |s.co| && Holds(s.co[c], conn) ==>
                    conn !in s.idle && (Holds(s.co[d], conn) ==> c == d))
  {
    Reachable(size, minIdle, n, moves);
    var s := Run(Step, Init(size, minIdle, n), moves);
    assert KnownOk(s, conn);
    forall e | 0 <= e < |s.co| && Holds(s.co[e], conn)
      ensures conn !in s.idle && (s.co[e].Lent? && !s.closed ==> conn in s.all) && OnlyHolder(s.co, e, conn)
    {
      assert HeldOk(s, e);
    }
  }

  /** After Close nobody who has registered stays without a permit: those available and
      those still to be issued are enough for all who wait, and when no coroutine but
      the waiting ones is inside, they can all go on at once. */
  lemma NobodyBlockedByClose(size: nat, minIdle: nat, n: nat, moves: seq<Move>)
    ensures var s := Run(Step, Init(size, minIdle, n), moves);
            s.closed ==>
              && s.permits + s.wakes >= Count(s.co, IsWaiting)
              && s.permits + s.wakes + Count(s.co, InUse) + Count(s.co, OwesPermit) == s.max + Count(s.co, IsWaiting)
  {
    Reachable(size, minIdle, n, moves);
  }

  /** After Close the pool keeps no connection: every one made is shut, but for one that
      is still being entered, and that one is shut at the next step. */
  lemma ClosedPoolKeepsNothing(size: nat, minIdle: nat, n: nat, moves: seq<Move>, conn: Connection)
    ensures var s := Run(Step, Init(size, minIdle, n), moves);
            s.closed ==>
              && s.idle == [] && s.all == {}
              && (conn < s.next && conn !in s.shut ==>
                    exists c :: 0 <= c < |s.co| && s.co[c] == Inserting(conn)
                                && conn in Step(s, Move(c, Continue)).shut)
  {
    Reachable(size, minIdle, n, moves);
    var s := Run(Step, Init(size, minIdle, n), moves);
    if s.closed && conn < s.next && conn !in s.shut {
      assert KnownOk(s, conn);
      var c :| 0 <= c < |s.co| && Holds(s.co[c], conn) && s.co[c].Inserting? == true;
      assert s.co[c] == Inserting(conn);
      assert conn in Step(s, Move(c, Continue)).shut;
    }
  }

  /** The reaper leaves `minIdle` idle connections and touches none that is lent. */
  lemma ReaperSpares(s: State, c: nat)
    requires Inv(s) && c < |s.co| && s.co[c].Idle?
    ensures var t := Step(s, Move(c, Reap));
            && t.co == s.co && t.permits == s.permits
            && |t.idle| >= (if |s.idle| < s.minIdle then |s.idle| else s.minIdle)
            && forall d, conn :: 0 <= d < |s.co| && s.co[d] == Lent(conn) && conn !in s.shut ==> conn !in t.shut
  {
    var t := Step(s, Move(c, Reap));
    forall d, conn | 0 <= d < |s.co| && s.co[d] == Lent(conn) && conn !in s.shut ensures conn !in t.shut {
      assert HeldOk(s, d);
    }
  }

  // ---------------------------------------------------------- from here on

  /** Closed, and in nobody's hands. */
  ghost predicate Gone(s: State, conn: Connection) {
    Inv(s) && conn in s.shut && forall c :: 0 <= c < |s.co| ==> !Holds(s.co[c], conn)
  }

  /** Connections come into hands from the idle list or fresh from the server. */
  lemma NobodyTakes(s: State, m: Move, conn: Connection)
    requires conn !in s.idle && conn < s.next && forall c :: 0 <= c < |s.co| ==> !Holds(s.co[c], conn)
    ensures forall c :: 0 <= c < |Step(s, m).co| ==> !Holds(Step(s, m).co[c], conn)
  {
    if m.c < |s.co| && s.co[m.c].Granted? && s.idle != [] {
      assert s.idle[0] in s.idle;
    }
  }

  lemma ShutForGood(s: State, m: Move, conn: Connection)
    requires conn in s.shut
    ensures conn in Step(s, m).shut
  {
  }

  lemma GoneStays(s: State, m: Move, conn: Connection)
    requires Gone(s, conn)
    ensures Gone(Step(s, m), conn)
  {
    StepAccounts(s, m);
    StepConnections(s, m);
    ShutForGood(s, m, conn);
    NobodyTakes(s, m, conn);
  }

  /** A connection that is released broken is never handed out again, whatever
      happens afterwards. */
  lemma BrokenNeverLentAgain(s: State, c: nat, moves: seq<Move>)
    requires Inv(s) && c < |s.co| && s.co[c].Lent?
    ensures var conn, t := s.co[c].c, Run(Step, Step(s, Move(c, Release(true))), moves);
            conn !in t.idle && forall d :: 0 <= d < |t.co| ==> !Holds(t.co[d], conn)
  {
    var conn, m := s.co[c].c, Move(c, Release(true));
    assert HeldOk(s, c);
    StepAccounts(s, m);
    StepConnections(s, m);
    var gone := (t: State) => Gone(t, conn);
    forall t, n | gone(t) ensures gone(Step(t, n)) {
      GoneStays(t, n, conn);
    }
    RunKeeps(Step, gone, Step(s, m), moves);
  }

  ghost predicate OnlyLentIn(s: State, holders: set<int>) {
    s.closed && forall c :: 0 <= c < |s.co| && s.co[c].Lent? ==> c in holders
  }

  /** Once the pool is closed every Acquire returns empty-handed: who holds a connection
      held it before. */
  lemma NothingLentAfterClose(s: State, moves: seq<Move>)
    requires s.closed
    ensures var t := Run(Step, s, moves);
            t.closed && forall c :: 0 <= c < |t.co| && t.co[c].Lent? ==> c < |s.co| && s.co[c].Lent?
  {
    var holders := set c | 0 <= c < |s.co| && s.co[c].Lent?;
    var inv := (t: State) => OnlyLentIn(t, holders);
    forall t, m | inv(t) ensures inv(Step(t, m)) {
      ClosedStep(t, m, holders);
    }
    RunKeeps(Step, inv, s, moves);
  }

  lemma ClosedStep(s: State, m: Move, holders: set<int>)
    requires OnlyLentIn(s, holders)
    ensures OnlyLentIn(Step(s, m), holders)
  {
  }

  // ------------------------------------------------- the semaphore it stands on

  function PhaseOf(l: Local): Counter.Phase {
    if l.Waiting? then Counter.Wanting else Counter.Out
  }

  /** The counting semaphore as the pool sees it. */
  function Permits(s: State): Counter.State {
    Counter.State(s.permits, false, Phases(s.co, PhaseOf))
  }

  /** What a step of the pool does to its semaphore the counting semaphore, and so `usema`,
      can do. */
  lemma MovesCounter(s: State, m: Move) returns (abs: seq<Counter.Move>)
    ensures Counter.Block(Permits(s), m.c, abs)
    ensures Permits(Step(s, m)) == Run(Counter.Step, Permits(s), abs)
  {
    abs := [];
    if m.c < |s.co| {
      var t := Step(s, m);
      assert t.co == s.co[m.c := t.co[m.c]];
      PhaseUpdate(s.co, PhaseOf, m.c, t.co[m.c]);
      abs := Counter.UserMoves(Permits(s), Permits(t), m.c);
    }
  }

  /** And whatever the counting semaphore can do for a waiting Acquire, a step of the pool
      takes up: nothing else moves. */
  lemma CounterServes(s: State, c: nat)
    requires Counter.Enabled(Permits(s), Counter.Take(c))
    ensures var t := Step(s, Move(c, Continue));
            && Permits(t) == Run(Counter.Step, Permits(s), [Counter.Take(c), Counter.Return(c)])
            && t == s.(permits := t.permits, co := t.co)
  {
    var t := Step(s, Move(c, Continue));
    PhaseUpdate(s.co, PhaseOf, c, t.co[c]);
    Counter.TakeReturn(Permits(s), c);
  }
}
