/** What the calls of `usema` come to: who gets a permit, who parks, who is woken. */
module SemaphoreOutcomes {
  // Module Semaphore proves that usema is a counting semaphore, and that no permit or
  // waiter is lost.  Here is what each call does when nobody else moves, from any state,
  // and in which order waiters leave the list, in every run.
  import opened Collections
  import opened Interleavings
  import opened Semaphore

  function Go(c: nat): Move {
    Move(c, Continue)
  }

  // --------------------------------------------------------- wait and try_wait

  /** With a permit on offer wait, alone, takes it and returns. */
  lemma WaitAlone(s: State, c: nat, lifo: bool)
    requires !s.terminated && c < |s.co| && s.co[c].Idle? && s.count > 0
    ensures Step(Step(Step(s, Move(c, Wait(lifo))), Go(c)), Go(c)) == s.(count := s.count - 1, served := s.served + 1)
  {
    var s1 := Step(s, Move(c, Wait(lifo)));
    var s2 := Step(s1, Go(c));
    assert s1 == At(s, c, Spin(lifo, false, 0));
    assert s2 == At(s1, c, SpinCas(lifo, false, 0, s.count));
    assert s2.co[c := Idle] == s.co;
  }

  /** With a permit on offer try_wait, alone, takes it; without one it returns at once. */
  lemma TryWaitAlone(s: State, c: nat)
    requires !s.terminated && c < |s.co| && s.co[c].Idle?
    ensures var s2 := Step(Step(s, Move(c, TryWait)), Go(c));
            if s.count == 0 then s2 == s
            else Step(s2, Go(c)) == s.(count := s.count - 1, served := s.served + 1)
  {
    var s1 := Step(s, Move(c, TryWait));
    assert s1 == At(s, c, Try);
    assert s.co[c := Try][c := Idle] == s.co;
    assert s.co[c := Try][c := TryCas(s.count)][c := Idle] == s.co;
  }

  lemma {:induction false} SpinsOut(s: State, c: nat)
    requires !s.terminated && c < |s.co| && s.co[c].Spin? && s.co[c].i < MAX_SPIN && s.count == 0
    ensures Run(Step, s, Times(Go(c), MAX_SPIN - s.co[c].i)) == At(s, c, Enter(s.co[c].lifo, s.co[c].again))
    decreases MAX_SPIN - s.co[c].i
  {
    var l := s.co[c];
    var t := Step(s, Go(c));
    RunTimes(Step, s, Go(c), MAX_SPIN - l.i - 1);
    if l.i + 1 < MAX_SPIN {
      SpinsOut(t, c);
      assert t.co[c := Enter(l.lifo, l.again)] == s.co[c := Enter(l.lifo, l.again)];
    } else {
      RunTimes(Step, t, Go(c), 0);
    }
  }

  /** Without a permit on offer a waiter, alone, spins no longer than it may and then goes
      to the list: it parks, behind everybody or before everybody as it wishes. */
  lemma ParkAlone(s: State, c: nat)
    requires !s.terminated && c < |s.co| && s.co[c].Enter? && s.count == 0 && s.lock.Free? && !s.killed
    ensures var t := Step(Step(Step(Step(s, Go(c)), Go(c)), Go(c)), Go(c));
            t == s.(co := s.co[c := Parked(s.co[c].lifo)], nwait := s.nwait + 1,
                    list := if s.co[c].lifo then [c] + s.list else s.list + [c])
  {
    var l := s.co[c];
    var s1 := Step(s, Go(c));
    var s2 := Step(s1, Go(c));
    var s3 := Step(s2, Go(c));
    assert s1 == s.(co := s.co[c := Entered(l.lifo, l.again)], lock := HeldBy(c));
    assert s1.co[c := Recheck(l.lifo, l.again)] == s.co[c := Recheck(l.lifo, l.again)];
    assert s2.co[c := Append(l.lifo)] == s.co[c := Append(l.lifo)];
    assert s3.co[c := Parked(l.lifo)] == s.co[c := Parked(l.lifo)];
  }

  /** After a kill it returns without a permit instead. */
  lemma DismissedAlone(s: State, c: nat)
    requires !s.terminated && c < |s.co| && s.co[c].Enter? && s.lock.Free? && s.killed
    ensures Step(Step(s, Go(c)), Go(c)) == s.(co := s.co[c := Idle], dismissed := s.dismissed + 1)
  {
    assert s.co[c := Leave(false)][c := Idle] == s.co[c := Idle];
  }

  // ------------------------------------------------------------------- signal

  /** A signal, alone, publishes its permit; if nobody waits it is done. */
  lemma SignalAlone(s: State, c: nat)
    requires !s.terminated && c < |s.co| && s.co[c].Idle? && s.nwait == 0
    ensures Step(Step(s, Move(c, Signal)), Go(c)) == s.(count := s.count + 1, signalled := s.signalled + 1)
  {
    assert s.co[c := Peek][c := Idle] == s.co;
  }

  /** The first half of a signal that finds waiters: the front one leaves the list. */
  lemma SignalPops(s: State, c: nat)
    requires !s.terminated && c < |s.co| && s.co[c].Peek? && s.nwait > 0 && s.lock.Free? && s.list != []
    requires s.list[0] < |s.co| && s.co[s.list[0]].Parked?
    ensures var h := s.list[0];
            var t := Step(Step(Step(s, Go(c)), Go(c)), Go(c));
            t == s.(co := s.co[h := Popped(s.co[h].lifo, c)][c := Dequeue(h)], list := s.list[1..], lock := HeldBy(c))
  {
    var h := s.list[0];
    assert s.co[c := Summon][c := Look] == s.co[c := Look];
    assert s.co[c := Look][h := Popped(s.co[h].lifo, c)][c := Dequeue(h)]
        == s.co[h := Popped(s.co[h].lifo, c)][c := Dequeue(h)];
  }

  lemma SignalReleases(s: State, c: nat, h: nat)
    requires !s.terminated && c < |s.co| && s.co[c] == Dequeue(h)
    ensures Step(Step(s, Go(c)), Go(c)) == s.(co := s.co[c := Deliver([h])], nwait := s.nwait - 1, lock := Free)
  {
    assert s.co[c := Release([h])][c := Deliver([h])] == s.co[c := Deliver([h])];
  }

  lemma SignalResumes(s: State, c: nat, h: nat)
    requires !s.terminated && c < |s.co| && h < |s.co| && c != h && s.co[c] == Deliver([h]) && s.co[h].Popped?
    ensures Step(Step(s, Go(c)), Go(c)) == s.(co := s.co[h := Spin(s.co[h].lifo, true, 0)][c := Idle])
  {
    var woken := Spin(s.co[h].lifo, true, 0);
    assert [h][1..] == [];
    assert s.co[h := woken][c := Deliver([])][c := Idle] == s.co[h := woken][c := Idle];
  }

  /** The second half: it is resumed, and goes on trying. */
  lemma SignalDelivers(s: State, c: nat, h: nat)
    requires !s.terminated && c < |s.co| && h < |s.co| && c != h && s.co[c] == Dequeue(h) && s.co[h].Popped?
    ensures var t := Step(Step(Step(Step(s, Go(c)), Go(c)), Go(c)), Go(c));
            t == s.(co := s.co[h := Spin(s.co[h].lifo, true, 0)][c := Idle], nwait := s.nwait - 1, lock := Free)
  {
    SignalReleases(s, c, h);
    SignalResumes(Step(Step(s, Go(c)), Go(c)), c, h);
    var woken := Spin(s.co[h].lifo, true, 0);
    assert s.co[c := Deliver([h])][h := woken][c := Idle] == s.co[h := woken][c := Idle];
  }

  /** In every run: a signal, alone, with the spin lock free and a waiter on the list,
      publishes its permit and resumes the waiter at the front, and no other. */
  lemma SignalWakesFront(initial: nat, n: nat, moves: seq<Move>, c: nat)
    requires var s := Run(Step, Init(initial, n), moves);
             !s.terminated && c < |s.co| && s.co[c].Idle? && s.lock.Free? && s.list != []
    ensures var s := Run(Step, Init(initial, n), moves);
            var s1 := Step(Step(Step(Step(s, Move(c, Signal)), Go(c)), Go(c)), Go(c));
            var t := Step(Step(Step(Step(s1, Go(c)), Go(c)), Go(c)), Go(c));
            var h := s.list[0];
            && h < |s.co| && s.co[h].Parked?
            && t == s.(co := s.co[h := Spin(s.co[h].lifo, true, 0)], list := s.list[1..], nwait := s.nwait - 1,
                       count := s.count + 1, signalled := s.signalled + 1)
  {
    Reachable(initial, n, moves);
    var s := Run(Step, Init(initial, n), moves);
    var h := s.list[0];
    assert h in s.list;
    var p := Step(s, Move(c, Signal));
    assert p == s.(co := s.co[c := Peek], count := s.count + 1, signalled := s.signalled + 1);
    SignalPops(p, c);
    var q := Step(Step(Step(p, Go(c)), Go(c)), Go(c));
    SignalDelivers(q, c, h);
    var woken := Spin(s.co[h].lifo, true, 0);
    assert q.co[h := woken][c := Idle] == s.co[h := woken];
  }

  // ---------------------------------------------------------- kill_broadcast

  /** Everybody in `ts` resumed. */
  function Resumed(co: seq<Local>, ts: seq<nat>): seq<Local> {
    seq(|co|, i requires 0 <= i < |co| => if i in ts && co[i].Popped? then Spin(co[i].lifo, true, 0) else co[i])
  }

  lemma {:induction false} DeliversAll(s: State, c: nat)
    requires !s.terminated && c < |s.co| && s.co[c].Deliver? && TargetsOk(s.co, c)
    ensures Run(Step, s, Times(Go(c), |s.co[c].ts| + 1)) == s.(co := Resumed(s.co, s.co[c].ts)[c := Idle])
    decreases |s.co[c].ts|
  {
    var ts, t := s.co[c].ts, Step(s, Go(c));
    RunTimes(Step, s, Go(c), |ts|);
    if ts == [] {
      RunTimes(Step, t, Go(c), 0);
      assert Resumed(s.co, ts) == s.co;
    } else {
      DeliverOne(s, c);
      DeliversAll(t, c);
    }
  }

  lemma DeliverOne(s: State, c: nat)
    requires !s.terminated && c < |s.co| && s.co[c].Deliver? && s.co[c].ts != [] && TargetsOk(s.co, c)
    ensures var ts, t := s.co[c].ts, Step(s, Go(c));
            && t == s.(co := t.co) && c < |t.co| && t.co[c] == Deliver(ts[1..]) && TargetsOk(t.co, c)
            && Resumed(t.co, ts[1..])[c := Idle] == Resumed(s.co, ts)[c := Idle]
  {
    var ts, t := s.co[c].ts, Step(s, Go(c));
    assert ts[0] in Targets(s.co[c]);
    forall u | u in ts[1..] ensures u in ts && u != ts[0] {
      var k :| 0 <= k < |ts[1..]| && ts[1..][k] == u;
      assert ts[k + 1] == u;
    }
    var a, b := Resumed(t.co, ts[1..])[c := Idle], Resumed(s.co, ts)[c := Idle];
    forall i | 0 <= i < |s.co| ensures a[i] == b[i] {
      assert i in ts <==> i == ts[0] || i in ts[1..];
    }
  }

  /** The first steps of a kill. */
  lemma KillBegins(s: State, c: nat)
    requires !s.terminated && c < |s.co| && s.co[c].Idle? && s.lock.Free? && !s.killed
    ensures Step(Step(Step(s, Move(c, Kill)), Go(c)), Go(c))
         == s.(co := s.co[c := TakeAll], lock := HeldBy(c), killed := true, nwait := 0)
  {
    var s2 := Step(Step(s, Move(c, Kill)), Go(c));
    assert s2 == s.(co := s.co[c := Zero], lock := HeldBy(c), killed := true) by {
      assert s.co[c := Condemn][c := Zero] == s.co[c := Zero];
    }
    assert s2.co[c := TakeAll] == s.co[c := TakeAll];
  }

  lemma TakesAll(s: State, s3: State, c: nat)
    requires ListOk(s) && !s3.terminated && c < |s.co| && s.co[c].Idle?
    requires s3.co == s.co[c := TakeAll] && s3.list == s.list
    ensures var k := Step(s3, Go(c));
            && k == s3.(co := k.co, list := [], lock := Free)
            && |k.co| == |s.co| && k.co[c] == Deliver(s.list) && TargetsOk(k.co, c)
            && forall i :: 0 <= i < |s.co| && i != c ==>
                 k.co[i] == if s.co[i].Parked? then Popped(s.co[i].lifo, c) else s.co[i]
  {
    var k := Step(s3, Go(c));
    assert c !in s.list;
    forall i | 0 <= i < |s.co| && i != c
      ensures k.co[i] == if s.co[i].Parked? then Popped(s.co[i].lifo, c) else s.co[i]
    {
      assert k.co[i] == PopAll(s3, c)[i];
    }
  }

  /** Everybody that was parked tries again, and nobody else notices. */
  predicate AllWoken(co: seq<Local>, co1: seq<Local>) {
    |co1| == |co| && forall i :: 0 <= i < |co| ==> co1[i] == if co[i].Parked? then Spin(co[i].lifo, true, 0) else co[i]
  }

  lemma WokenAll(s: State, k: State, c: nat)
    requires ListOk(s) && DeliverOk(s) && c < |s.co| == |k.co| && s.co[c].Idle?
    requires forall i :: 0 <= i < |s.co| && i != c ==>
               k.co[i] == if s.co[i].Parked? then Popped(s.co[i].lifo, c) else s.co[i]
    ensures AllWoken(s.co, Resumed(k.co, s.list)[c := Idle])
  {
    var co1 := Resumed(k.co, s.list)[c := Idle];
    forall i | 0 <= i < |s.co| && i != c
      ensures co1[i] == if s.co[i].Parked? then Spin(s.co[i].lifo, true, 0) else s.co[i]
    {
      assert s.co[i].Parked? <==> i in s.list;
    }
  }

  /** In every run kill_broadcast, alone, with the spin lock free, kills the semaphore and
      resumes everybody on the list. */
  lemma KillAlone(initial: nat, n: nat, moves: seq<Move>, c: nat)
    requires var s := Run(Step, Init(initial, n), moves);
             !s.terminated && c < |s.co| && s.co[c].Idle? && s.lock.Free? && !s.killed
    ensures var s := Run(Step, Init(initial, n), moves);
            var k := Step(Step(Step(Step(s, Move(c, Kill)), Go(c)), Go(c)), Go(c));
            var t := Run(Step, k, Times(Go(c), |s.list| + 1));
            t.killed && t.list == [] && t.nwait == 0 && t.lock.Free? && t.count == s.count && AllWoken(s.co, t.co)
  {
    Reachable(initial, n, moves);
    var s := Run(Step, Init(initial, n), moves);
    KillBegins(s, c);
    var s3 := Step(Step(Step(s, Move(c, Kill)), Go(c)), Go(c));
    TakesAll(s, s3, c);
    var k := Step(s3, Go(c));
    DeliversAll(k, c);
    WokenAll(s, k, c);
  }

  /** A second kill_broadcast ends the process. */
  lemma SecondKillEnds(s: State, c: nat)
    requires !s.terminated && c < |s.co| && s.co[c].Idle? && s.lock.Free? && s.killed
    ensures Step(Step(s, Move(c, Kill)), Go(c)).terminated
  {
  }

  // ------------------------------------------------------ the order of waiters

  /** `i` is on the list, and `j` behind it. */
  ghost predicate Ahead(list: seq<nat>, i: nat, j: nat) {
    exists a, b :: 0 <= a < b < |list| && list[a] == i && list[b] == j
  }

  lemma PushKeepsOrder(list: seq<nat>, c: nat, lifo: bool, i: nat, j: nat)
    requires Ahead(list, i, j)
    ensures Ahead(Pushed(list, c, lifo), i, j)
  {
    var a, b :| 0 <= a < b < |list| && list[a] == i && list[b] == j;
    var d := if lifo then 1 else 0;
    assert Pushed(list, c, lifo)[a + d] == i && Pushed(list, c, lifo)[b + d] == j;
  }

  lemma PopKeepsOrder(list: seq<nat>, i: nat, j: nat)
    requires Distinct(list) && Ahead(list, i, j) && i in list[1..]
    ensures Ahead(list[1..], i, j)
  {
    var a, b :| 0 <= a < b < |list| && list[a] == i && list[b] == j;
    var d :| 0 <= d < |list[1..]| && list[1..][d] == i;
    assert list[d + 1] == i && a == d + 1;
    assert list[1..][a - 1] == i && list[1..][b - 1] == j;
  }

  lemma WaitMovesList(s: State, c: nat)
    requires c < |s.co|
    ensures var t := StepWait(s, c);
            t.list == s.list || t.list == Pushed(s.list, c, true) || t.list == Pushed(s.list, c, false)
  {
  }

  lemma SignalMovesList(s: State, c: nat)
    requires c < |s.co|
    ensures var t := StepSignal(s, c); t.list == s.list || t.list == [] || (s.list != [] && t.list == s.list[1..])
  {
  }

  /** How a step changes the list: a push, a pop from the front, a kill, or not at all. */
  lemma ListMoves(s: State, m: Move)
    ensures var t := Step(s, m);
            || t.list == s.list || t.list == []
            || (s.list != [] && t.list == s.list[1..])
            || t.list == Pushed(s.list, m.c, true) || t.list == Pushed(s.list, m.c, false)
  {
    if m.c < |s.co| {
      WaitMovesList(s, m.c);
      SignalMovesList(s, m.c);
    }
  }

  lemma OrderStep(s: State, m: Move, i: nat, j: nat)
    requires Inv(s) && Ahead(s.list, i, j) && i in Step(s, m).list
    ensures Ahead(Step(s, m).list, i, j)
  {
    var t := Step(s, m);
    ListMoves(s, m);
    if t.list == s.list {
    } else if s.list != [] && t.list == s.list[1..] {
      PopKeepsOrder(s.list, i, j);
    } else {
      PushKeepsOrder(s.list, m.c, true, i, j);
      PushKeepsOrder(s.list, m.c, false, i, j);
    }
  }

  lemma {:induction false} OrderStays(s: State, moves: seq<Move>, i: nat, j: nat)
    requires Inv(s) && Ahead(s.list, i, j) && Throughout(Step, s, moves, (t: State) => i in t.list)
    ensures Ahead(Run(Step, s, moves).list, i, j)
    decreases |moves|
  {
    if moves != [] {
      assert i in Step(s, moves[0]).list;
      OrderStep(s, moves[0], i, j);
      StepKeepsInv(s, moves[0]);
      OrderStays(Step(s, moves[0]), moves[1..], i, j);
    }
  }

  /** In every run: a waiter that parks in turn is not taken off the list before any waiter
      that was on it, and one that parks in front is not outlasted by any: as long as
      the one ahead is still there, so is the one behind. */
  lemma NoOvertaking(initial: nat, n: nat, before: seq<Move>, c: nat, i: nat, after: seq<Move>)
    requires var s := Run(Step, Init(initial, n), before);
             && !s.terminated && c < |s.co| && s.co[c].Append? && i in s.list
             && var first := if s.co[c].lifo then c else i;
                Throughout(Step, Step(s, Go(c)), after, (t: State) => first in t.list)
    ensures var s := Run(Step, Init(initial, n), before);
            var t := Run(Step, Step(s, Go(c)), after);
            if s.co[c].lifo then Ahead(t.list, c, i) else Ahead(t.list, i, c)
  {
    Reachable(initial, n, before);
    var s := Run(Step, Init(initial, n), before);
    var k :| 0 <= k < |s.list| && s.list[k] == i;
    var t := Step(s, Go(c));
    StepKeepsInv(s, Go(c));
    if s.co[c].lifo {
      assert t.list[0] == c && t.list[k + 1] == i;
      OrderStays(t, after, c, i);
    } else {
      assert t.list[k] == i && t.list[|s.list|] == c;
      OrderStays(t, after, i, c);
    }
  }
}
