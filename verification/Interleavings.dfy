/** Runs of a step function over an arbitrary schedule, and counting. */
module Interleavings {
  // Every concurrency module of this project describes one atomic operation of one
  // coroutine as a total function `step(state, move)`.  A run is any finite sequence
  // of moves, so a fact about every run is a fact about every interleaving.  The
  // coroutines whose local state has a given property are counted.
  import opened Collections

  function Run<S, M>(step: (S, M) -> S, s: S, moves: seq<M>): S
    decreases |moves|
  {
    if moves == [] then s else Run(step, step(s, moves[0]), moves[1..])
  }

  /** What every step keeps, every run keeps. */
  lemma {:induction false} RunKeeps<S(!new), M(!new)>(step: (S, M) -> S, inv: S -> bool, s: S, moves: seq<M>)
    requires inv(s)
    requires forall t, m :: inv(t) ==> inv(step(t, m))
    ensures inv(Run(step, s, moves))
    decreases |moves|
  {
    if moves != [] {
      assert inv(step(s, moves[0]));
      RunKeeps(step, inv, step(s, moves[0]), moves[1..]);
    }
  }

  lemma RunCons<S, M>(step: (S, M) -> S, s: S, m: M, moves: seq<M>)
    ensures Run(step, s, [m] + moves) == Run(step, step(s, m), moves)
  {
    assert ([m] + moves)[1..] == moves;
  }

  lemma {:induction false} RunMore<S, M>(step: (S, M) -> S, s: S, a: seq<M>, b: seq<M>)
    ensures Run(step, s, a + b) == Run(step, Run(step, s, a), b)
    decreases |a|
  {
    if a == [] {
      assert a + b == b;
    } else {
      assert a + b == [a[0]] + (a[1..] + b);
      RunCons(step, s, a[0], a[1..] + b);
      RunMore(step, step(s, a[0]), a[1..], b);
    }
  }

  lemma RunOne<S, M>(step: (S, M) -> S, s: S, m: M)
    ensures Run(step, s, [m]) == step(s, m)
  {
    assert [m][1..] == [];
    assert Run(step, step(s, m), []) == step(s, m);
  }

  lemma RunTwo<S, M>(step: (S, M) -> S, s: S, m: M, n: M)
    ensures Run(step, s, [m, n]) == step(step(s, m), n)
  {
    assert [m, n][1..] == [n];
    RunOne(step, step(s, m), n);
  }

  lemma RunSnoc<S, M>(step: (S, M) -> S, s: S, moves: seq<M>)
    requires moves != []
    ensures Run(step, s, moves) == step(Run(step, s, moves[..|moves| - 1]), moves[|moves| - 1])
  {
    var before, m := moves[..|moves| - 1], moves[|moves| - 1];
    assert moves == before + [m];
    RunMore(step, s, before, [m]);
    RunOne(step, Run(step, s, before), m);
  }

  /** The state after the first `k` moves. */
  function After<S, M>(step: (S, M) -> S, s: S, moves: seq<M>, k: nat): S
    requires k <= |moves|
  {
    Run(step, s, moves[..k])
  }

  lemma AfterRest<S, M>(step: (S, M) -> S, s: S, moves: seq<M>, k: nat)
    requires k < |moves|
    ensures After(step, s, moves, k + 1) == After(step, step(s, moves[0]), moves[1..], k)
  {
    assert moves[..k + 1][1..] == moves[1..][..k];
  }

  /** Before, between and after the moves of a run `p` holds. */
  ghost predicate Throughout<S, M>(step: (S, M) -> S, s: S, moves: seq<M>, p: S -> bool)
    decreases |moves|
  {
    p(s) && (moves != [] ==> Throughout(step, step(s, moves[0]), moves[1..], p))
  }

  function Times<M>(m: M, k: nat): seq<M> {
    seq(k, _ => m)
  }

  lemma RunTimes<S, M>(step: (S, M) -> S, s: S, m: M, k: nat)
    ensures Run(step, s, Times(m, 0)) == s
    ensures Run(step, s, Times(m, k + 1)) == Run(step, step(s, m), Times(m, k))
  {
    assert Times(m, k + 1)[1..] == Times(m, k);
  }

  /** A population, each coroutine seen through `phase`. */
  function Phases<L, P>(co: seq<L>, phase: L -> P): seq<P> {
    seq(|co|, i requires 0 <= i < |co| => phase(co[i]))
  }

  lemma PhaseUpdate<L, P>(co: seq<L>, phase: L -> P, c: nat, l: L)
    requires c < |co|
    ensures Phases(co[c := l], phase) == Phases(co, phase)[c := phase(l)]
    ensures phase(l) == phase(co[c]) ==> Phases(co[c := l], phase) == Phases(co, phase)
  {
  }

  function Joined<M>(blocks: seq<seq<M>>): seq<M> {
    if blocks == [] then [] else blocks[0] + Joined(blocks[1..])
  }

  ghost function Members<L>(co: seq<L>, p: L -> bool): set<int> {
    set i | 0 <= i < |co| && p(co[i])
  }

  /** How many coroutines satisfy `p`. */
  ghost function Count<L>(co: seq<L>, p: L -> bool): nat {
    |Members(co, p)|
  }

  function One(b: bool): nat {
    if b then 1 else 0
  }

  lemma CountUpdate<L>(co: seq<L>, c: nat, l: L, p: L -> bool)
    requires c < |co|
    ensures Count(co[c := l], p) == Count(co, p) - One(p(co[c])) + One(p(l))
  {
    var rest := Members(co, p) - {c};
    assert Members(co, p) == rest + if p(co[c]) then {c} else {};
    assert Members(co[c := l], p) == rest + if p(l) then {c} else {};
  }

  lemma CountNone<L>(co: seq<L>, p: L -> bool)
    ensures Count(co, p) == 0 <==> forall i :: 0 <= i < |co| ==> !p(co[i])
  {
    if Count(co, p) == 0 {
      forall i | 0 <= i < |co| ensures !p(co[i]) {
        assert i !in Members(co, p);
      }
    } else {
      var i :| i in Members(co, p);
      assert p(co[i]);
    }
  }

  /** Two different members are counted twice. */
  lemma CountTwo<L>(co: seq<L>, p: L -> bool, i: nat, j: nat)
    requires i < |co| && j < |co| && i != j && p(co[i]) && p(co[j])
    ensures Count(co, p) >= 2
  {
    SubsetCard({i as int, j as int}, Members(co, p));
  }

  lemma {:induction false} CountBound<L>(co: seq<L>, p: L -> bool)
    ensures Count(co, p) <= |co|
    decreases |co|
  {
    if co == [] {
      assert Members(co, p) == {};
    } else {
      var n := |co| - 1;
      CountBound(co[..n], p);
      assert Members(co, p) == Members(co[..n], p) + if p(co[n]) then {n} else {};
    }
  }
}
