/** What the calls of `upool` come to: who gets which connection, and where it goes. */
module PoolOutcomes {
  // Module ConnectionPool keeps the accounts.  Here is that an Acquire gets a
  // connection whenever it can, that a sound connection is used again, and that the
  // reaper and Close do their work.  "Alone" means that nobody else moves meanwhile.
  import opened Collections
  import opened Interleavings
  import opened ConnectionPool

  function Go(c: nat): Move {
    Move(c, Continue)
  }

  // -------------------------------------------------------------- Acquire

  /** An Acquire that has its permit, and has not failed. */
  predicate Served(l: Local) {
    l.Granted? || l.Connecting? || l.Inserting? || l.Lent?
  }

  /** The moves that may end it otherwise than with a connection, or end its use. */
  predicate Spoils(c: nat, m: Move) {
    m == Move(c, Connected(false)) || (m.c == c && m.act.Release?)
  }

  lemma ServedStep(s: State, m: Move, c: nat)
    requires !s.closed && c < |s.co| && Served(s.co[c]) && !Spoils(c, m)
    ensures var t := Step(s, m);
            c < |t.co| && Served(t.co[c]) && (s.co[c].Lent? ==> t.co[c] == s.co[c])
  {
  }

  lemma {:induction false} ServedOn(s: State, moves: seq<Move>, c: nat)
    requires c < |s.co| && Served(s.co[c]) && Throughout(Step, s, moves, (t: State) => !t.closed)
    requires forall m :: m in moves ==> !Spoils(c, m)
    ensures var t := Run(Step, s, moves);
            c < |t.co| && Served(t.co[c]) && (s.co[c].Lent? ==> t.co[c] == s.co[c])
    decreases |moves|
  {
    if moves != [] {
      assert moves[0] in moves && forall m :: m in moves[1..] ==> m in moves;
      ServedStep(s, moves[0], c);
      ServedOn(Step(s, moves[0]), moves[1..], c);
    }
  }

  /** In every run, as long as the pool is open, an Acquire that has taken its permit does
      not end without a connection unless its own connect fails, and once it has its
      connection it keeps that one until it releases it. */
  lemma PermitMeansConnection(n: nat, size: nat, minIdle: nat, before: seq<Move>, c: nat, after: seq<Move>)
    requires var s := Run(Step, Init(size, minIdle, n), before);
             c < |s.co| && Served(s.co[c]) && Throughout(Step, s, after, (t: State) => !t.closed)
    requires forall m :: m in after ==> !Spoils(c, m)
    ensures var s := Run(Step, Init(size, minIdle, n), before);
            var t := Run(Step, s, after);
            c < |t.co| && Served(t.co[c]) && (s.co[c].Lent? ==> t.co[c] == s.co[c])
  {
    ServedOn(Run(Step, Init(size, minIdle, n), before), after, c);
  }

  /** In every run an Acquire of an open pool with a permit on offer, alone, gets the
      connection idle for longest if there is one, and makes a new one if and only if
      there is none. */
  lemma AcquireAlone(n: nat, size: nat, minIdle: nat, moves: seq<Move>, c: nat)
    requires var s := Run(Step, Init(size, minIdle, n), moves);
             c < |s.co| && s.co[c].Idle? && !s.closed && s.permits > 0
    ensures var s := Run(Step, Init(size, minIdle, n), moves);
            var s1 := Step(Step(Step(s, Move(c, Acquire)), Go(c)), Go(c));
            && c < |s1.co|
            && if s.idle != [] then
                 s1 == s.(co := s.co[c := Lent(s.idle[0])], permits := s.permits - 1, idle := s.idle[1..])
               else
                 var t := Step(Step(s1, Move(c, Connected(true))), Go(c));
                 && s1.co[c].Connecting?
                 && t == s.(co := s.co[c := Lent(s.next)], permits := s.permits - 1,
                            all := s.all + {s.next}, next := s.next + 1)
                 && s.next !in s.all && s.next !in s.shut
  {
    Reachable(size, minIdle, n, moves);
    var s := Run(Step, Init(size, minIdle, n), moves);
    GetsPermit(s, c);
    var g := Step(Step(s, Move(c, Acquire)), Go(c));
    if s.idle == [] {
      Connects(g, c);
    }
  }

  /** In every run the limits are those configured, but that a size of 0 counts as 1, so
      that a fresh pool serves its first Acquire whatever was configured. */
  lemma LimitsStay(n: nat, size: nat, minIdle: nat, moves: seq<Move>)
    ensures var s := Run(Step, Init(size, minIdle, n), moves);
            && s.minIdle == minIdle && (if size == 0 then s.max == 1 else s.max == size)
            && Init(size, minIdle, n).permits == s.max > 0
  {
    var max := if size == 0 then 1 else size;
    var same := (s: State) => s.max == max && s.minIdle == minIdle;
    forall s, m | same(s) ensures same(Step(s, m)) {
      KeepsLimits(s, m);
    }
    RunKeeps(Step, same, Init(size, minIdle, n), moves);
  }

  lemma KeepsLimits(s: State, m: Move)
    ensures Step(s, m).max == s.max && Step(s, m).minIdle == s.minIdle
  {
  }

  lemma GetsPermit(s: State, c: nat)
    requires c < |s.co| && s.co[c].Idle? && !s.closed && s.permits > 0
    ensures Step(Step(s, Move(c, Acquire)), Go(c))
         == s.(co := s.co[c := Granted], permits := s.permits - 1, pending := s.pending + 1)
  {
    assert s.co[c := Waiting][c := Granted] == s.co[c := Granted];
  }

  lemma Connects(g: State, c: nat)
    requires c < |g.co| && g.co[c].Granted? && !g.closed && g.idle == []
    ensures Step(Step(Step(g, Go(c)), Move(c, Connected(true))), Go(c))
         == g.(co := g.co[c := Lent(g.next)], pending := g.pending - 1, all := g.all + {g.next}, next := g.next + 1)
  {
    assert g.co[c := Connecting][c := Inserting(g.next)] == g.co[c := Inserting(g.next)];
    assert g.co[c := Inserting(g.next)][c := Lent(g.next)] == g.co[c := Lent(g.next)];
  }

  /** In every run a connect that fails, or ends after Close, gives its permit back, and the
      connection made too late is shut. */
  lemma FailureGivesBack(n: nat, size: nat, minIdle: nat, moves: seq<Move>, c: nat, ok: bool)
    requires var s := Run(Step, Init(size, minIdle, n), moves);
             c < |s.co| && s.co[c].Connecting? && (ok ==> s.closed)
    ensures var s := Run(Step, Init(size, minIdle, n), moves);
            var s1 := Step(s, Move(c, Connected(ok)));
            var t := Step(if ok then Step(s1, Go(c)) else s1, Go(c));
            t == s.(co := s.co[c := Idle], permits := s.permits + 1, next := if ok then s.next + 1 else s.next,
                    shut := if ok then s.shut + {s.next} else s.shut)
  {
    var s := Run(Step, Init(size, minIdle, n), moves);
    assert s.co[c := Inserting(s.next)][c := Refunding][c := Idle] == s.co[c := Idle];
    assert s.co[c := Refunding][c := Idle] == s.co[c := Idle];
  }

  /** In every run a waiter of a closed pool that gets one of the permits of Close, alone,
      returns empty-handed. */
  lemma ClosedAlone(n: nat, size: nat, minIdle: nat, moves: seq<Move>, c: nat)
    requires var s := Run(Step, Init(size, minIdle, n), moves);
             c < |s.co| && s.co[c].Waiting? && s.closed && s.permits > 0
    ensures var s := Run(Step, Init(size, minIdle, n), moves);
            Step(Step(s, Go(c)), Go(c))
            == s.(co := s.co[c := Idle], permits := s.permits - 1, pending := s.pending - 1)
  {
    var s := Run(Step, Init(size, minIdle, n), moves);
    assert s.co[c := Granted][c := Idle] == s.co[c := Idle];
  }

  // -------------------------------------------------------------- Release

  /** A release, alone: a sound connection of an open pool goes to the end of the idle ones,
      any other is shut; the permit comes back either way. */
  lemma ReleaseAlone(s: State, c: nat, broken: bool)
    requires c < |s.co| && s.co[c].Lent?
    ensures var conn, t := s.co[c].c, Step(Step(s, Move(c, Release(broken))), Go(c));
            && t.co == s.co[c := Idle] && t.permits == s.permits + 1 && t.closed == s.closed && t.next == s.next
            && if !broken && !s.closed then t.idle == s.idle + [conn] && t.all == s.all && t.shut == s.shut
               else t.idle == s.idle && t.all == s.all - {conn} && t.shut == s.shut + {conn}
  {
    assert s.co[c := Signalling][c := Idle] == s.co[c := Idle];
  }

  /** An idle connection stays idle until it is lent, the reaper takes the one idle for
      longest of too many, or the pool is closed, in every run. */
  lemma IdleLeaves(n: nat, size: nat, minIdle: nat, moves: seq<Move>, m: Move, conn: Connection)
    requires var s := Run(Step, Init(size, minIdle, n), moves); conn in s.idle
    ensures var s := Run(Step, Init(size, minIdle, n), moves);
            var t := Step(s, m);
            || conn in t.idle
            || (m.c < |t.co| && t.co[m.c] == Lent(conn))
            || (m.act.Reap? && |s.idle| > s.minIdle && conn == s.idle[0] && conn in t.shut)
            || (!s.closed && t.closed && conn in t.shut)
  {
    Reachable(size, minIdle, n, moves);
    var s := Run(Step, Init(size, minIdle, n), moves);
    var i :| 0 <= i < |s.idle| && s.idle[i] == conn;
    assert i > 0 ==> s.idle[1..][i - 1] == conn;
    assert conn in s.idle + (if m.c < |s.co| && s.co[m.c].Lent? then [s.co[m.c].c] else []);
  }

  /** In every run a sound connection released to an open pool with none idle is the one
      that the next Acquire, alone, gets. */
  lemma RecycledAlone(n: nat, size: nat, minIdle: nat, moves: seq<Move>, c: nat, d: nat)
    requires var s := Run(Step, Init(size, minIdle, n), moves);
             && c < |s.co| && s.co[c].Lent? && !s.closed && s.idle == []
             && d < |s.co| && (d == c || s.co[d].Idle?)
    ensures var s := Run(Step, Init(size, minIdle, n), moves);
            var r := Step(Step(s, Move(c, Release(false))), Go(c));
            var t := Step(Step(Step(r, Move(d, Acquire)), Go(d)), Go(d));
            d < |t.co| && t.co[d] == Lent(s.co[c].c) && t.permits == s.permits
  {
    var s := Run(Step, Init(size, minIdle, n), moves);
    ReleaseAlone(s, c, false);
    var r := Step(Step(s, Move(c, Release(false))), Go(c));
    GetsPermit(r, d);
    var g := Step(Step(r, Move(d, Acquire)), Go(d));
    assert g.idle == [s.co[c].c];
  }

  // --------------------------------------------------- the reaper and Close

  function SetOf(conns: seq<Connection>): set<Connection> {
    set conn | conn in conns
  }

  lemma ReapStep(s: State, c: nat)
    requires c < |s.co| && s.co[c].Idle? && !s.closed && s.minIdle < |s.idle|
    ensures Step(s, Move(c, Reap))
         == s.(idle := s.idle[1..], all := s.all - {s.idle[0]}, shut := s.shut + {s.idle[0]})
  {
  }

  lemma FirstOf(conns: seq<Connection>, k: nat)
    requires 0 < k <= |conns|
    ensures SetOf(conns[..k]) == {conns[0]} + SetOf(conns[1..][..k - 1]) && conns[1..][k - 1..] == conns[k..]
  {
    assert conns[..k] == [conns[0]] + conns[1..][..k - 1];
  }

  /** The reaper shuts the connections idle for longest, one at a time, down to the
      number to keep. */
  lemma {:induction false} ReaperShrinks(s: State, c: nat, k: nat)
    requires c < |s.co| && s.co[c].Idle? && !s.closed && s.minIdle + k == |s.idle|
    ensures var t := Run(Step, s, Times(Move(c, Reap), k));
            t == s.(idle := s.idle[k..], all := s.all - SetOf(s.idle[..k]), shut := s.shut + SetOf(s.idle[..k]))
    decreases k
  {
    if k == 0 {
      RunTimes(Step, s, Move(c, Reap), 0);
    } else {
      RunTimes(Step, s, Move(c, Reap), k - 1);
      ReapStep(s, c);
      FirstOf(s.idle, k);
      ReaperShrinks(Step(s, Move(c, Reap)), c, k - 1);
    }
  }

  lemma {:induction false} ClosingIssues(s: State, c: nat)
    requires c < |s.co| && s.co[c].Closing?
    ensures Run(Step, s, Times(Go(c), s.wakes + 1))
         == s.(permits := s.permits + s.wakes, wakes := 0, co := s.co[c := Idle])
    decreases s.wakes
  {
    RunTimes(Step, s, Go(c), s.wakes);
    var t := Step(s, Go(c));
    if s.wakes == 0 {
      RunTimes(Step, t, Go(c), 0);
    } else {
      ClosingIssues(t, c);
    }
  }

  lemma CloseBegins(s: State, c: nat)
    requires c < |s.co| && s.co[c].Idle? && !s.closed && s.pending >= 0
    ensures Step(s, Move(c, Close))
         == s.(co := s.co[c := Closing], closed := true, wakes := s.pending, shut := s.shut + s.all,
               all := {}, idle := [])
  {
  }

  /** In every run Close, alone, shuts every connection, those lent included, and issues one
      permit for each Acquire that waits; a second Close does nothing. */
  lemma CloseAlone(n: nat, size: nat, minIdle: nat, moves: seq<Move>, c: nat)
    requires var s := Run(Step, Init(size, minIdle, n), moves); c < |s.co| && s.co[c].Idle?
    ensures var s := Run(Step, Init(size, minIdle, n), moves);
            var s1 := Step(s, Move(c, Close));
            && s.pending >= 0
            && (s.closed ==> s1 == s)
            && (!s.closed ==>
                  var t := Run(Step, s1, Times(Go(c), s.pending + 1));
                  && t.closed && t.permits == s.permits + s.pending && t.wakes == 0 && t.co == s.co
                  && t.shut == s.shut + s.all && t.all == {} && t.idle == [])
  {
    Reachable(size, minIdle, n, moves);
    var s := Run(Step, Init(size, minIdle, n), moves);
    if !s.closed {
      CloseBegins(s, c);
      ClosingIssues(Step(s, Move(c, Close)), c);
      assert s.co[c := Closing][c := Idle] == s.co;
    }
  }
}
