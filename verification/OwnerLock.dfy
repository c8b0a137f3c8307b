/** A mutex as its users see it: an owner bit. */
module OwnerLock {
  // Module Mutex proves that every run of `umutex` is a run of it; the modules that
  // use an owner bit for a mutex prove that they move it so.
  import opened Interleavings

  datatype Phase =
    | Out
    | Wanting   // in lock
    | Holding

  datatype State = State(owned: bool, phase: seq<Phase>)

  datatype Move =
    | Call(c: nat)
    | Acquire(c: nat)
    | Release(c: nat)

  predicate Enabled(s: State, m: Move) {
    m.c < |s.phase| &&
    match m
    case Call(c) => s.phase[c].Out?
    case Acquire(c) => s.phase[c].Wanting? && !s.owned
    case Release(c) => s.phase[c].Holding?
  }

  function Step(s: State, m: Move): State {
    if !Enabled(s, m) then s else
    match m
    case Call(c) => s.(phase := s.phase[c := Wanting])
    case Acquire(c) => State(true, s.phase[c := Holding])
    case Release(c) => State(false, s.phase[c := Out])
  }

  /** What one step of coroutine `c` may be for the lock: nothing, one move of `c`, or a
      call of `c` that acquires at once. */
  predicate Block(a: State, c: nat, abs: seq<Move>) {
    match |abs|
    case 0 => true
    case 1 => Enabled(a, abs[0]) && abs[0].c == c
    case 2 => Enabled(a, Call(c)) && !a.owned && abs == [Call(c), Acquire(c)]
    case _ => false
  }

  /** How the phase of a coroutine and the owner bit may change together. */
  predicate Change(p: Phase, q: Phase, owned: bool, owned1: bool) {
    if q.Holding? && !p.Holding? then !owned && owned1
    else if p.Holding? && !q.Holding? then q.Out? && !owned1
    else owned == owned1 && (p.Wanting? ==> q.Wanting?)
  }

  predicate UserMove(a: State, b: State, c: nat) {
    && c < |a.phase| == |b.phase| && b.phase == a.phase[c := b.phase[c]]
    && Change(a.phase[c], b.phase[c], a.owned, b.owned)
  }

  lemma UserMoves(a: State, b: State, c: nat) returns (abs: seq<Move>)
    requires UserMove(a, b, c)
    ensures Block(a, c, abs) && b == Run(Step, a, abs)
  {
    var p, q := a.phase[c], b.phase[c];
    if p == q {
      abs := [];
    } else if p.Out? && q.Holding? {
      abs := [Call(c), Acquire(c)];
      RunTwo(Step, a, Call(c), Acquire(c));
      assert a.phase[c := Wanting][c := Holding] == a.phase[c := Holding];
    } else {
      abs := [if q.Wanting? then Call(c) else if q.Holding? then Acquire(c) else Release(c)];
      RunOne(Step, a, abs[0]);
    }
  }
}
