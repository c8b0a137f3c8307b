/** What the calls of a buffered `uchan` come to. */
module ChannelOutcomes {
  // Module Channel proves order and accounts.  Here is that a send delivers, a receive
  // takes, and a close wakes.  "Alone" means that nobody else moves meanwhile.
  import opened Interleavings
  import opened Channel

  function On<T>(c: nat): Move<T> {
    Move(c, Continue(false))
  }

  /** With space, a send on an open channel, alone, appends its item and announces it. */
  lemma SendAlone<T>(s: State<T>, c: nat, x: T)
    requires !s.terminated && c < |s.co| && s.co[c].Idle? && !s.closed && !s.owned && s.space > 0
    ensures var s3 := Step(Step(Step(s, Move(c, Send(x))), On(c)), On(c));
            var t := Step(Step(Step(s3, On(c)), On(c)), On(c));
            t == s.(items := s.items + [x], accepted := s.accepted + [x], space := s.space - 1, full := s.full + 1)
  {
    SendGoesIn(s, c, x);
    var s3 := Step(Step(Step(s, Move(c, Send(x))), On(c)), On(c));
    SendLeaves(s3, c, x);
    assert s3.co[c := Idle] == s.co;
  }

  lemma SendGoesIn<T>(s: State<T>, c: nat, x: T)
    requires !s.terminated && c < |s.co| && s.co[c].Idle? && !s.owned && s.space > 0
    ensures Step(Step(Step(s, Move(c, Send(x))), On(c)), On(c))
         == s.(co := s.co[c := Sending(x, true)], owned := true, space := s.space - 1)
  {
    assert s.co[c := AwaitSpace(x)][c := WantSend(x, true)] == s.co[c := WantSend(x, true)];
    assert s.co[c := WantSend(x, true)][c := Sending(x, true)] == s.co[c := Sending(x, true)];
  }

  lemma SendLeaves<T>(s: State<T>, c: nat, x: T)
    requires !s.terminated && c < |s.co| && s.co[c].Sending? && s.co[c].x == x && !s.closed
    ensures Step(Step(Step(s, On(c)), On(c)), On(c))
         == s.(co := s.co[c := Idle], owned := false, items := s.items + [x], accepted := s.accepted + [x],
               full := s.full + 1)
  {
    assert s.co[c := Sent][c := NoteItem] == s.co[c := NoteItem];
    assert s.co[c := NoteItem][c := Idle] == s.co[c := Idle];
  }

  /** A send that finds the channel closed ends the process and appends nothing; that is
      the only way in which a send ends it. */
  lemma SendOnClosed<T>(s: State<T>, c: nat)
    requires !s.terminated && c < |s.co| && s.co[c].Sending?
    ensures var t := Step(s, On(c));
            && t.terminated == s.closed
            && t.items == (if s.closed then s.items else s.items + [s.co[c].x])
            && t.accepted == (if s.closed then s.accepted else s.accepted + [s.co[c].x])
  {
  }

  /** With an item, a receive, alone, takes the oldest one and announces the space. */
  lemma ReceiveAlone<T>(s: State<T>, c: nat)
    requires !s.terminated && c < |s.co| && s.co[c].Idle? && !s.owned && s.full > 0 && s.items != []
    ensures var s3 := Step(Step(Step(s, Move(c, Receive)), On(c)), On(c));
            var t := Step(Step(Step(s3, On(c)), On(c)), On(c));
            t == s.(items := s.items[1..], delivered := s.delivered + [s.items[0]], full := s.full - 1,
                    space := s.space + 1)
  {
    ReceiveEntersAlone(s, c);
    var s3 := Step(Step(Step(s, Move(c, Receive)), On(c)), On(c));
    TakeLeaves(s3, c);
    assert s3.co[c := Idle] == s.co;
  }

  lemma ReceiveEntersAlone<T>(s: State<T>, c: nat)
    requires !s.terminated && c < |s.co| && s.co[c].Idle? && !s.owned && s.full > 0
    ensures Step(Step(Step(s, Move(c, Receive)), On(c)), On(c))
         == s.(co := s.co[c := Receiving(true)], owned := true, full := s.full - 1)
  {
    assert s.co[c := AwaitItem][c := WantReceive(true)] == s.co[c := WantReceive(true)];
    assert s.co[c := WantReceive(true)][c := Receiving(true)] == s.co[c := Receiving(true)];
  }

  lemma TakeLeaves<T>(s: State<T>, c: nat)
    requires !s.terminated && c < |s.co| && s.co[c].Receiving? && s.items != []
    ensures Step(Step(Step(s, On(c)), On(c)), On(c))
         == s.(co := s.co[c := Idle], owned := false, items := s.items[1..], delivered := s.delivered + [s.items[0]],
               space := s.space + 1)
  {
    assert s.co[c := Received][c := NoteSpace] == s.co[c := NoteSpace];
    assert s.co[c := NoteSpace][c := Idle] == s.co[c := Idle];
  }

  /** A receive that finds no item, alone, returns false and changes nothing else. */
  lemma MissAlone<T>(s: State<T>, c: nat)
    requires !s.terminated && c < |s.co| && s.co[c].Receiving? && s.items == []
    ensures Step(Step(s, On(c)), On(c)) == s.(co := s.co[c := Idle], owned := false, misses := s.misses + 1)
  {
    assert s.co[c := Missed][c := Idle] == s.co[c := Idle];
  }

  /** The first close, alone, closes the channel and kills both semaphores; another ends
      the process. */
  lemma CloseAlone<T>(s: State<T>, c: nat)
    requires !s.terminated && c < |s.co| && s.co[c].Idle? && !s.spaceKilled
    ensures var t := Step(Step(s, Move(c, Close)), On(c));
            && t.closed && (s.fullKilled <==> t.terminated)
            && (!s.fullKilled ==> Step(t, On(c)) == s.(closed := true, fullKilled := true, spaceKilled := true))
  {
    assert s.co[c := KillItems][c := KillSpace][c := Idle] == s.co;
  }

  // ------------------------------------------------------------- every send

  /** A sender that has not appended `x` yet. */
  ghost predicate Has<T>(l: Local<T>, x: T) {
    (l.AwaitSpace? || l.WantSend? || l.Sending?) && l.x == x
  }

  ghost function Sender<T>(x: T): Local<T> -> bool {
    l => Has(l, x)
  }

  /** How often an item is in the hands of a sender. */
  ghost function InHands<T>(s: State<T>, x: T): nat {
    Count(s.co, Sender(x))
  }

  /** And how often it was accepted. */
  ghost function Accepted<T>(s: State<T>, x: T): nat {
    multiset(s.accepted)[x]
  }

  /** Whether this move begins a send of `x`. */
  ghost predicate Begins<T>(s: State<T>, m: Move<T>, x: T) {
    m.c < |s.co| && !s.terminated && s.co[m.c].Idle? && m.act == Act.Send(x)
  }

  ghost function Sends<T>(s: State<T>, moves: seq<Move<T>>, x: T): nat
    decreases |moves|
  {
    if moves == [] then 0 else One(Begins(s, moves[0], x)) + Sends(Step(s, moves[0]), moves[1..], x)
  }

  /** What was sent is in hands or accepted. */
  ghost predicate Balanced<T>(s: State<T>, t: State<T>, x: T, more: nat) {
    InHands(t, x) + Accepted(t, x) == InHands(s, x) + Accepted(s, x) + more
  }

  lemma Moves<T>(s: State<T>, t: State<T>, c: nat, l: Local<T>, x: T, more: nat)
    requires c < |s.co| && t.co == s.co[c := l] && t.accepted == s.accepted
    requires One(Has(l, x)) == One(Has(s.co[c], x)) + more
    ensures Balanced(s, t, x, more)
  {
    CountUpdate(s.co, c, l, Sender(x));
  }

  lemma Appends<T>(s: State<T>, t: State<T>, c: nat, y: T, x: T)
    requires c < |s.co| && s.co[c].Sending? && s.co[c].x == y
    requires t.co == s.co[c := Sent] && t.accepted == s.accepted + [y]
    ensures Balanced(s, t, x, 0)
  {
    CountUpdate(s.co, c, Sent, Sender(x));
    assert multiset(s.accepted + [y]) == multiset(s.accepted) + multiset{y};
  }

  lemma Rests<T>(s: State<T>, t: State<T>, x: T)
    requires t.co == s.co && t.accepted == s.accepted
    ensures Balanced(s, t, x, 0)
  {
  }

  lemma SendBalances<T>(s: State<T>, c: nat, empty: bool, x: T)
    requires c < |s.co| && IsSend(s.co[c])
    ensures Balanced(s, StepSend(s, c, empty), x, 0)
  {
    var t := StepSend(s, c, empty);
    match s.co[c]
    case AwaitSpace(y) =>
      if t == s { Rests(s, t, x); } else { Moves(s, t, c, WantSend(y, !empty), x, 0); }
    case WantSend(y, permit) =>
      if s.owned { Rests(s, t, x); } else { Moves(s, t, c, Sending(y, permit), x, 0); }
    case Sending(y, _) =>
      if s.closed { Rests(s, t, x); } else { Appends(s, t, c, y, x); }
    case Sent => Moves(s, t, c, NoteItem, x, 0);
    case NoteItem => Moves(s, t, c, Idle, x, 0);
  }

  lemma ReceiveBegins<T>(s: State<T>, c: nat, empty: bool, x: T)
    requires c < |s.co| && (s.co[c].AwaitItem? || s.co[c].WantReceive? || s.co[c].Receiving?)
    ensures Balanced(s, StepReceive(s, c, empty), x, 0)
  {
    var t := StepReceive(s, c, empty);
    match s.co[c]
    case AwaitItem =>
      if t == s { Rests(s, t, x); } else { Moves(s, t, c, WantReceive(!empty), x, 0); }
    case WantReceive(permit) =>
      if s.owned { Rests(s, t, x); } else { Moves(s, t, c, Receiving(permit), x, 0); }
    case Receiving(_) => Moves(s, t, c, if s.items == [] then Missed else Received, x, 0);
  }

  lemma ReceiveEnds<T>(s: State<T>, c: nat, empty: bool, x: T)
    requires c < |s.co| && (s.co[c].Received? || s.co[c].Missed? || s.co[c].NoteSpace?)
    ensures Balanced(s, StepReceive(s, c, empty), x, 0)
  {
    Moves(s, StepReceive(s, c, empty), c, if s.co[c].Received? then NoteSpace else Idle, x, 0);
  }

  lemma ReceiveBalances<T>(s: State<T>, c: nat, empty: bool, x: T)
    requires c < |s.co| && !IsSend(s.co[c]) && !IsClose(s.co[c])
    ensures Balanced(s, StepReceive(s, c, empty), x, 0)
  {
    if s.co[c].Idle? {
      Rests(s, s, x);
    } else if s.co[c].AwaitItem? || s.co[c].WantReceive? || s.co[c].Receiving? {
      ReceiveBegins(s, c, empty, x);
    } else {
      ReceiveEnds(s, c, empty, x);
    }
  }

  lemma CloseBalances<T>(s: State<T>, c: nat, x: T)
    requires c < |s.co| && IsClose(s.co[c])
    ensures Balanced(s, StepClose(s, c), x, 0)
  {
    var t := StepClose(s, c);
    if t.terminated && t.co == s.co {
      Rests(s, t, x);
    } else {
      Moves(s, t, c, if s.co[c].KillItems? then KillSpace else Idle, x, 0);
    }
  }

  lemma CallBalances<T>(s: State<T>, m: Move<T>, x: T)
    requires m.c < |s.co| && !s.terminated && s.co[m.c].Idle? && !m.act.Continue?
    ensures Balanced(s, Step(s, m), x, One(Begins(s, m, x)))
  {
    var t := Step(s, m);
    match m.act
    case Send(y) => Moves(s, t, m.c, AwaitSpace(y), x, One(y == x));
    case Receive => Moves(s, t, m.c, AwaitItem, x, 0);
    case Close => Moves(s, t, m.c, KillItems, x, 0);
  }

  lemma StepBalances<T>(s: State<T>, m: Move<T>, x: T)
    ensures Balanced(s, Step(s, m), x, One(Begins(s, m, x)))
  {
    if m.c >= |s.co| || s.terminated || (!m.act.Continue? && !s.co[m.c].Idle?) {
      Rests(s, s, x);
    } else if !m.act.Continue? {
      CallBalances(s, m, x);
    } else if IsSend(s.co[m.c]) {
      SendBalances(s, m.c, m.act.empty, x);
    } else if IsClose(s.co[m.c]) {
      CloseBalances(s, m.c, x);
    } else {
      ReceiveBalances(s, m.c, m.act.empty, x);
    }
  }

  lemma {:induction false} RunBalances<T>(s: State<T>, moves: seq<Move<T>>, x: T)
    ensures Balanced(s, Run(Step, s, moves), x, Sends(s, moves, x))
    decreases |moves|
  {
    if moves != [] {
      StepBalances(s, moves[0], x);
      RunBalances(Step(s, moves[0]), moves[1..], x);
    }
  }

  /** In every run every item has been accepted as often as it was sent, but for the sends
      that have not appended it yet: none is lost, doubled or made up. */
  lemma SendsConserved<T>(size: nat, n: nat, moves: seq<Move<T>>, x: T)
    ensures var s := Run(Step, Init<T>(size, n), moves);
            Accepted(s, x) + InHands(s, x) == Sends(Init<T>(size, n), moves, x)
  {
    RunBalances(Init<T>(size, n), moves, x);
    CountNone(Init<T>(size, n).co, Sender(x));
  }
}
