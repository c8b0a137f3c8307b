/** The counting semaphore that the other primitives are built on. */
module PermitCounter {
  // The state of a semaphore as its callers see it: permits without owners, and for
  // each coroutine where it stands in a call.  Module Semaphore proves that `usema`
  // refines it; the modules that use semaphores prove that they move this counter.
  import opened Interleavings

  datatype Phase =
    | Out       // in no call
    | Wanting   // in wait, without a permit
    | Trying    // in try_wait, without a permit
    | Holding   // has taken a permit, about to return
    | Refused   // about to return without one

  datatype State = State(permits: nat, killed: bool, phase: seq<Phase>)

  datatype Move =
    | Call(c: nat)
    | CallTry(c: nat)
    | Take(c: nat)
    | Fail(c: nat)      // try_wait found no permit
    | Dismiss(c: nat)   // wait found the semaphore killed
    | Return(c: nat)
    | Publish
    | Kill

  predicate Enabled(s: State, m: Move) {
    match m
    case Call(c) => c < |s.phase| && s.phase[c].Out?
    case CallTry(c) => c < |s.phase| && s.phase[c].Out?
    case Take(c) => c < |s.phase| && (s.phase[c].Wanting? || s.phase[c].Trying?) && s.permits > 0
    case Fail(c) => c < |s.phase| && s.phase[c].Trying? && s.permits == 0
    case Dismiss(c) => c < |s.phase| && s.phase[c].Wanting? && s.killed
    case Return(c) => c < |s.phase| && (s.phase[c].Holding? || s.phase[c].Refused?)
    case Publish => true
    case Kill => !s.killed
  }

  function Step(s: State, m: Move): State {
    if !Enabled(s, m) then s else
    match m
    case Call(c) => s.(phase := s.phase[c := Wanting])
    case CallTry(c) => s.(phase := s.phase[c := Trying])
    case Take(c) => s.(permits := s.permits - 1, phase := s.phase[c := Holding])
    case Fail(c) => s.(phase := s.phase[c := Refused])
    case Dismiss(c) => s.(phase := s.phase[c := Refused])
    case Return(c) => s.(phase := s.phase[c := Out])
    case Publish => s.(permits := s.permits + 1)
    case Kill => s.(killed := true)
  }

  /** A permit taken and the call returned. */
  lemma TakeReturn(s: State, c: nat)
    requires c < |s.phase| && (s.phase[c].Wanting? || s.phase[c].Trying?) && s.permits > 0
    ensures Run(Step, s, [Take(c), Return(c)]) == s.(permits := s.permits - 1, phase := s.phase[c := Out])
  {
    RunTwo(Step, s, Take(c), Return(c));
    assert s.phase[c := Holding][c := Out] == s.phase[c := Out];
  }

  /** A call that returned without a permit. */
  lemma RefuseReturn(s: State, c: nat, m: Move)
    requires (m == Fail(c) || m == Dismiss(c)) && Enabled(s, m)
    ensures Run(Step, s, [m, Return(c)]) == s.(phase := s.phase[c := Out])
  {
    RunTwo(Step, s, m, Return(c));
    assert s.phase[c := Refused][c := Out] == s.phase[c := Out];
  }

  /** What one atomic operation of coroutine `c` may be for the counter: nothing, one move
      (of `c`, or a permit published, or a kill), or the outcome of a call and the return
      from it. */
  predicate Block(a: State, c: nat, abs: seq<Move>) {
    match |abs|
    case 0 => true
    case 1 => Enabled(a, abs[0]) && (abs[0].Publish? || abs[0].Kill? || abs[0].c == c)
    case 2 =>
      Enabled(a, abs[0]) && (abs[0] == Take(c) || abs[0] == Fail(c) || abs[0] == Dismiss(c)) && abs[1] == Return(c)
    case _ => false
  }

  /** The block ends a call of `c` that got a permit. */
  predicate Grants(a: State, c: nat, abs: seq<Move>) {
    abs == [Take(c), Return(c)] || (abs == [Return(c)] && c < |a.phase| && a.phase[c].Holding?)
  }

  /** The block ends a call of wait that a kill cut short. */
  predicate TurnsAway(a: State, c: nat, abs: seq<Move>) {
    abs == [Return(c)] && c < |a.phase| && a.phase[c].Refused?
  }

  /** What a user of the semaphore may make of it in one step: call wait, return from it
      with a permit or because of a kill, signal, or kill.  `was` and `wants` say whether
      the coroutine wants a permit, `p` and `q` count the permits, `k` and `l` say
      whether the semaphore is killed, before and after. */
  predicate Change(was: bool, wants: bool, p: nat, q: nat, k: bool, l: bool) {
    if was == wants then
      (q == p && l == k) || (q == p + 1 && l == k) || (q == p && !k && l)
    else
      l == k && if wants then q == p else q == p - 1 || (q == p && k)
  }

  predicate UserMove(a: State, b: State, c: nat) {
    && c < |a.phase| == |b.phase| && b.phase == a.phase[c := b.phase[c]]
    && (a.phase[c].Out? || a.phase[c].Wanting?) && (b.phase[c].Out? || b.phase[c].Wanting?)
    && Change(a.phase[c].Wanting?, b.phase[c].Wanting?, a.permits, b.permits, a.killed, b.killed)
  }

  lemma UserMoves(a: State, b: State, c: nat) returns (abs: seq<Move>)
    requires UserMove(a, b, c)
    ensures Block(a, c, abs) && Run(Step, a, abs) == b
  {
    if a.phase[c] != b.phase[c] {
      if a.phase[c].Out? {
        abs := [Call(c)];
        RunOne(Step, a, Call(c));
      } else if b.permits < a.permits {
        abs := [Take(c), Return(c)];
        TakeReturn(a, c);
      } else {
        abs := [Dismiss(c), Return(c)];
        RefuseReturn(a, c, Dismiss(c));
      }
    } else if b.permits > a.permits {
      abs := [Publish];
      RunOne(Step, a, Publish);
    } else if b.killed != a.killed {
      abs := [Kill];
      RunOne(Step, a, Kill);
    } else {
      abs := [];
    }
  }

  /** Coroutine `c` went to phase `q`, leaving `permits` permits: the moves behind it. */
  lemma Explain(a: State, permits: nat, c: nat, q: Phase) returns (abs: seq<Move>)
    requires c < |a.phase|
    requires var p := a.phase[c];
             if permits != a.permits then
               permits == a.permits - 1 && (p.Wanting? || p.Trying?) && (q.Holding? || q.Out?)
             else if p == q then true
             else if q.Refused? then p.Wanting? && a.killed
             else q.Out? && (p.Holding? || p.Refused? || (p.Trying? && a.permits == 0))
    ensures Block(a, c, abs) && Run(Step, a, abs) == a.(permits := permits, phase := a.phase[c := q])
    ensures Grants(a, c, abs) <==> q.Out? && (permits != a.permits || a.phase[c].Holding?)
    ensures TurnsAway(a, c, abs) <==> q.Out? && a.phase[c].Refused?
    ensures Publish !in abs && Kill !in abs
  {
    var p := a.phase[c];
    if permits != a.permits {
      if q.Holding? {
        abs := [Take(c)];
        RunOne(Step, a, Take(c));
      } else {
        abs := [Take(c), Return(c)];
        TakeReturn(a, c);
      }
    } else if p == q {
      abs := [];
    } else if q.Refused? {
      abs := [Dismiss(c)];
      RunOne(Step, a, Dismiss(c));
    } else if p.Trying? {
      abs := [Fail(c), Return(c)];
      RefuseReturn(a, c, Fail(c));
    } else {
      abs := [Return(c)];
      RunOne(Step, a, Return(c));
    }
  }
}
