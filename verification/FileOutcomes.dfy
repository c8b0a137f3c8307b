/** What `GetResource` comes to: who returns which file, and what is cached. */
module FileOutcomes {
  // Module SingleFlight says that nobody gets a wrong file.  Here is that everybody gets
  // the right one: the result of the open, a failure only after a failure, and a hit
  // as long as the path is cached.
  import opened Interleavings
  import opened Lru
  import opened SingleFlight

  function Go(c: nat): Move {
    Move(c, Continue)
  }

  // ------------------------------------------------------ the result of an open

  /** The open by `c` for call `k` gave `f`, and the call is on its way to it or has it. */
  ghost predicate Carries(s: State, c: nat, k: nat, f: File) {
    && k < |s.calls|
    && if s.calls[k].done then s.calls[k].result == f
       else c < |s.co| && (s.co[c].Putting? || s.co[c].Publishing?) && s.co[c].k == k && s.co[c].f == f
  }

  lemma CarriesStep(s: State, m: Move, c: nat, k: nat, f: File)
    requires Inv(s) && Carries(s, c, k, f)
    ensures Carries(Step(s, m), c, k, f)
  {
    if s.calls[k].done {
      ResultStays(s, m, k);
    } else {
      assert LocalOk(s, c);
      if m.c == c {
        OwnStep(s, m, c, k, f);
      } else if m.c < |s.co| {
        assert LocalOk(s, m.c);
        OtherStep(s, m, c, k);
      }
    }
  }

  lemma OwnStep(s: State, m: Move, c: nat, k: nat, f: File)
    requires m.c == c && c < |s.co| && k < |s.calls| && !s.calls[k].done && LocalOk(s, c)
    requires (s.co[c].Putting? || s.co[c].Publishing?) && s.co[c].k == k && s.co[c].f == f
    ensures Carries(Step(s, m), c, k, f)
  {
  }

  lemma OtherStep(s: State, m: Move, c: nat, k: nat)
    requires c < |s.co| && m.c < |s.co| && m.c != c && k < |s.calls| && s.calls[k].owner == c && LocalOk(s, m.c)
    ensures var t := Step(s, m); k < |t.calls| && t.calls[k] == s.calls[k] && c < |t.co| && t.co[c] == s.co[c]
  {
  }

  lemma {:induction false} CarriesOn(s: State, moves: seq<Move>, c: nat, k: nat, f: File)
    requires Inv(s) && Carries(s, c, k, f)
    ensures var t := Run(Step, s, moves); Inv(t) && Carries(t, c, k, f)
    decreases |moves|
  {
    if moves != [] {
      CarriesStep(s, moves[0], c, k, f);
      StepKeepsInv(s, moves[0]);
      CarriesOn(Step(s, moves[0]), moves[1..], c, k, f);
    }
  }

  /** In every run: when the opener's open gives `fd`, the opener, and everyone who waits on
      its call, return that very descriptor, whatever happens before they do. */
  lemma OpenIsReturned(n: nat, before: seq<Move>, c: nat, fd: int, after: seq<Move>, i: nat)
    requires var s := Run(Step, Init(n), before); c < |s.co| && s.co[c].Opening?
    ensures var s := Run(Step, Init(n), before);
            var t := Run(Step, Step(s, Move(c, Opened(fd))), after);
            i < |t.co| && t.co[i].Returned? && !t.co[i].from.Hit? && t.co[i].from.k == s.co[c].k ==>
              t.co[i].f == File(|s.opens|, fd)
  {
    Reachable(n, before);
    var s := Run(Step, Init(n), before);
    var m := Move(c, Opened(fd));
    assert LocalOk(s, c);
    StepKeepsInv(s, m);
    CarriesOn(Step(s, m), after, c, s.co[c].k, File(|s.opens|, fd));
    var t := Run(Step, Step(s, m), after);
    assert i < |t.co| ==> LocalOk(t, i);
  }

  /** In every run a file returned is what an open of that path gave: a failure comes only
      from an open that failed, and a hit is never a failure. */
  lemma FailsOnlyIfOpenFailed(n: nat, moves: seq<Move>, i: nat)
    ensures var s := Run(Step, Init(n), moves);
            i < |s.co| && s.co[i].Returned? ==>
              && s.co[i].f.id < |s.opens|
              && s.opens[s.co[i].f.id] == Open(s.co[i].path, s.co[i].f.fd)
              && (s.co[i].from.Hit? ==> s.co[i].f.fd != -1)
  {
    Reachable(n, moves);
    var s := Run(Step, Init(n), moves);
    assert i < |s.co| ==> LocalOk(s, i);
  }

  // ------------------------------------------------------- the opener, alone

  lemma AskOpens(s: State, c: nat, path: string)
    requires c < |s.co| && s.co[c].Idle? && !Cached(s.cache, path) && path !in s.inFlight
    ensures Step(s, Move(c, Ask(path)))
         == s.(co := s.co[c := Opening(path, |s.calls|)], calls := s.calls + [Call(path, c, false, File(0, -1))],
               inFlight := s.inFlight[path := |s.calls|])
  {
  }

  /** Opened, and entered in the cache if that succeeded. */
  lemma OpenEnds(s: State, c: nat, fd: int)
    requires c < |s.co| && s.co[c].Opening? && !Cached(s.cache, s.co[c].path)
    ensures var path, k, f := s.co[c].path, s.co[c].k, File(|s.opens|, fd);
            var s1 := Step(s, Move(c, Opened(fd)));
            var t := if fd != -1 then Step(s1, Go(c)) else s1;
            && t == s.(co := s.co[c := Publishing(path, k, f)], opens := s.opens + [Open(path, fd)], cache := t.cache)
            && (if fd != -1 then Cached(t.cache, path) && Lookup(t.cache, path) == f else t.cache == s.cache)
  {
    var path, k, f := s.co[c].path, s.co[c].k, File(|s.opens|, fd);
    if fd != -1 {
      PutCaches(s.cache, path, f);
      assert s.co[c := Putting(path, k, f)][c := Publishing(path, k, f)] == s.co[c := Publishing(path, k, f)];
    }
  }

  lemma PublishEnds(s: State, c: nat)
    requires c < |s.co| && s.co[c].Publishing? && s.co[c].k < |s.calls|
    ensures var t := Step(Step(s, Go(c)), Go(c));
            && c < |t.co| && t.co[c] == Returned(s.co[c].path, s.co[c].f, Own(s.co[c].k))
            && t.cache == s.cache && t.inFlight == s.inFlight - {s.co[c].path}
  {
  }

  /** In every run a call for a path that is neither cached nor in flight, alone, opens it
      and returns what the open gave; a success is then cached, a failure is not. */
  lemma OpensAlone(n: nat, moves: seq<Move>, c: nat, path: string, fd: int)
    requires var s := Run(Step, Init(n), moves);
             c < |s.co| && s.co[c].Idle? && !Cached(s.cache, path) && path !in s.inFlight
    ensures var s := Run(Step, Init(n), moves);
            var s1 := Step(Step(s, Move(c, Ask(path))), Move(c, Opened(fd)));
            var s2 := if fd != -1 then Step(s1, Go(c)) else s1;
            var t := Step(Step(s2, Go(c)), Go(c));
            && c < |t.co| && t.co[c] == Returned(path, File(|s.opens|, fd), Own(|s.calls|)) && path !in t.inFlight
            && (if fd != -1 then Cached(t.cache, path) && Lookup(t.cache, path) == File(|s.opens|, fd)
                else t.cache == s.cache)
  {
    var s := Run(Step, Init(n), moves);
    AskOpens(s, c, path);
    var s0 := Step(s, Move(c, Ask(path)));
    OpenEnds(s0, c, fd);
    var s1 := Step(s0, Move(c, Opened(fd)));
    PublishEnds(if fd != -1 then Step(s1, Go(c)) else s1, c);
  }

  /** In every run a waiter whose call is done, alone, returns its result. */
  lemma JoinsAlone(n: nat, moves: seq<Move>, c: nat)
    requires var s := Run(Step, Init(n), moves);
             c < |s.co| && s.co[c].Waiting? && s.co[c].k < |s.calls| && s.calls[s.co[c].k].done
    ensures var s := Run(Step, Init(n), moves);
            var t := Step(s, Go(c));
            c < |t.co| && t.co[c] == Returned(s.co[c].path, s.calls[s.co[c].k].result, Joined(s.co[c].k))
  {
  }

  // ------------------------------------------------------------------ the cache

  lemma PutCaches(c: seq<Entry<File>>, key: string, f: File)
    requires !Cached(c, key)
    ensures var d := WithPut(c, CAPACITY, key, f); Cached(d, key) && Lookup(d, key) == f
  {
    var d := WithPut(c, CAPACITY, key, f);
    assert d[0] == Entry(key, f);
  }

  /** What a move does to the cache. */
  function OpOf(s: State, m: Move): seq<Op<File>> {
    if m.c >= |s.co| then []
    else if s.co[m.c].Idle? && m.act.Ask? then [GetOp(m.act.path)]
    else if s.co[m.c].Putting? && m.act.Continue? then [PutOp(s.co[m.c].path, s.co[m.c].f)]
    else []
  }

  function CacheOps(n: nat, moves: seq<Move>): seq<Op<File>>
    decreases |moves|
  {
    if moves == [] then []
    else
      var before := moves[..|moves| - 1];
      CacheOps(n, before) + OpOf(Run(Step, Init(n), before), moves[|moves| - 1])
  }

  lemma CacheStep(s: State, m: Move)
    ensures Step(s, m).cache == if OpOf(s, m) == [] then s.cache else Apply(s.cache, CAPACITY, OpOf(s, m)[0])
  {
  }

  /** In every run the cache is what its calls make of it, so that all that module Lru says
      holds of it. */
  lemma {:induction false} CacheIsPlay(n: nat, moves: seq<Move>)
    ensures Run(Step, Init(n), moves).cache == Play(CAPACITY, CacheOps(n, moves))
    decreases |moves|
  {
    if moves != [] {
      var before, m := moves[..|moves| - 1], moves[|moves| - 1];
      CacheIsPlay(n, before);
      RunSnoc(Step, Init(n), moves);
      var s := Run(Step, Init(n), before);
      CacheStep(s, m);
      var ops, op := CacheOps(n, before), OpOf(s, m);
      if op == [] {
        assert ops + op == ops;
      } else {
        assert (ops + op)[..|ops + op| - 1] == ops;
      }
    }
  }

  /** In every run a call hits if and only if the path has been opened or hit before, and
      fewer than 512 other paths since; a hit returns a descriptor, that of an open
      of that path. */
  lemma HitIff(n: nat, moves: seq<Move>, c: nat, path: string)
    requires var s := Run(Step, Init(n), moves); c < |s.co| && s.co[c].Idle?
    ensures var s := Run(Step, Init(n), moves);
            var t := Step(s, Move(c, Ask(path)));
            var touches := Touches(CAPACITY, CacheOps(n, moves));
            && c < |t.co|
            && (t.co[c].Returned? <==> path in touches && |Since(touches, path)| < 512)
            && (t.co[c].Returned? ==>
                  && t.co[c].from.Hit? && t.co[c].f.fd != -1
                  && t.co[c].f.id < |s.opens| && s.opens[t.co[c].f.id] == Open(path, t.co[c].f.fd))
  {
    Reachable(n, moves);
    CacheIsPlay(n, moves);
    KeptIff(CAPACITY, CacheOps(n, moves), path);
    var s := Run(Step, Init(n), moves);
    if Cached(s.cache, path) {
      HitOk(s.cache, s.opens, path);
    }
  }

  lemma KeptValue(n: nat, before: seq<Move>, m: Move, path: string)
    requires var s := Run(Step, Init(n), before); Cached(s.cache, path) && Cached(Step(s, m).cache, path)
    ensures var s := Run(Step, Init(n), before); Lookup(Step(s, m).cache, path) == Lookup(s.cache, path)
  {
    var s := Run(Step, Init(n), before);
    CacheIsPlay(n, before);
    KeptAreRecent(CAPACITY, CacheOps(n, before));
    CacheStep(s, m);
    if OpOf(s, m) != [] {
      ValueStays(s.cache, CAPACITY, OpOf(s, m)[0], path);
    }
  }

  ghost predicate CachedOn(s: State, moves: seq<Move>, path: string) {
    forall k :: 0 <= k <= |moves| ==> Cached(After(Step, s, moves, k).cache, path)
  }

  lemma {:induction false} ValueStaysOn(n: nat, before: seq<Move>, after: seq<Move>, path: string)
    requires CachedOn(Run(Step, Init(n), before), after, path)
    ensures var s := Run(Step, Init(n), before);
            && Cached(s.cache, path) && Cached(Run(Step, s, after).cache, path)
            && Lookup(Run(Step, s, after).cache, path) == Lookup(s.cache, path)
    decreases |after|
  {
    var s := Run(Step, Init(n), before);
    assert after[..|after|] == after;
    assert Cached(After(Step, s, after, 0).cache, path) && Cached(After(Step, s, after, |after|).cache, path);
    if after != [] {
      var init, m := after[..|after| - 1], after[|after| - 1];
      forall k | 0 <= k <= |init| ensures Cached(After(Step, s, init, k).cache, path) {
        assert init[..k] == after[..k];
        assert Cached(After(Step, s, after, k).cache, path);
      }
      ValueStaysOn(n, before, init, path);
      RunMore(Step, Init(n), before, init);
      assert after == init + [m];
      RunMore(Step, s, init, [m]);
      RunOne(Step, Run(Step, s, init), m);
      KeptValue(n, before + init, m, path);
    }
  }

  /** In every run: what an opener has put in the cache is there, and as long as it is, every
      call for that path, by anybody, returns that very file at once. */
  lemma OpenThenHit(n: nat, before: seq<Move>, c: nat, after: seq<Move>, d: nat)
    requires var s := Run(Step, Init(n), before); c < |s.co| && s.co[c].Putting?
    requires var s := Run(Step, Init(n), before);
             var t := Run(Step, Step(s, Go(c)), after);
             CachedOn(Step(s, Go(c)), after, s.co[c].path) && d < |t.co| && t.co[d].Idle?
    ensures var s := Run(Step, Init(n), before);
            var t := Run(Step, Step(s, Go(c)), after);
            var u := Step(t, Move(d, Ask(s.co[c].path)));
            && Cached(Step(s, Go(c)).cache, s.co[c].path)
            && d < |u.co| && u.co[d] == Returned(s.co[c].path, s.co[c].f, Hit)
  {
    Reachable(n, before);
    var s := Run(Step, Init(n), before);
    var path, f := s.co[c].path, s.co[c].f;
    assert LocalOk(s, c);
    PutCaches(s.cache, path, f);
    var now := before + [Go(c)];
    RunMore(Step, Init(n), before, [Go(c)]);
    RunOne(Step, s, Go(c));
    ValueStaysOn(n, now, after, path);
  }
}
