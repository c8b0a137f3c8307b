/** What the calls of `ushared_mutex` come to: who enters, who queues, who is admitted. */
module SharedMutexOutcomes {
  // Module SharedMutex proves exclusion and the accounts.  Here are the branches by
  // which somebody gets in.  "Alone" means that nobody else moves meanwhile.
  import opened Interleavings
  import opened SharedMutex

  function Go(c: nat): Move {
    Move(c, Continue(false))
  }

  // ------------------------------------------------------------------ readers

  /** In every run, with no writer announced lock_shared enters at once, and try_lock_shared
      does, alone; with one announced lock_shared queues and try_lock_shared gives up
      without a trace. */
  lemma ReaderEntersIff(n: nat, moves: seq<Move>, c: nat)
    requires FewReaders(Init(n), moves)
    requires var s := Run(Step, Init(n), moves); c < |s.co| && s.co[c].Idle?
    ensures var s := Run(Step, Init(n), moves);
            var t := Step(s, Move(c, LockShared));
            var u := Step(Step(s, Move(c, TryLockShared)), Go(c));
            if Announcers(s) == 0 then
              t == s.(co := s.co[c := Reading], readers := s.readers + 1) && u == t
            else
              t == s.(co := s.co[c := AwaitWriter], readers := s.readers + 1) && u == s
  {
    Reachable(n, moves);
    var s := Run(Step, Init(n), moves);
    Facts(s, c);
    CalmUnlessAnnounced(s);
    var t := Step(s, Move(c, TryLockShared));
    assert s.co[c := TryEnter(s.readers)][c := Reading] == s.co[c := Reading];
    assert s.co[c := TryEnter(s.readers)][c := Idle] == s.co;
  }

  // ------------------------------------------------------------------ writers

  /** Nobody is inside, queued, or on the way in or out as a writer. */
  ghost predicate Empty(s: State) {
    Owners(s) == 0 && Active(s) == 0 && Queued(s) == 0
  }

  lemma EmptyIsZero(s: State, c: nat)
    requires Inv(s) && c < |s.co| && Empty(s)
    ensures !s.owned && s.readers == 0
  {
    Facts(s, c);
  }

  /** In every run lock and try_lock, alone, get a lock that nobody uses. */
  lemma WriterEntersAlone(n: nat, moves: seq<Move>, c: nat)
    requires FewReaders(Init(n), moves)
    requires var s := Run(Step, Init(n), moves); c < |s.co| && s.co[c].Idle? && Empty(s)
    ensures var s := Run(Step, Init(n), moves);
            var t := Step(Step(Step(s, Move(c, Lock)), Go(c)), Go(c));
            var u := Step(Step(s, Move(c, TryLock)), Go(c));
            t == u == s.(co := s.co[c := Writing], owned := true, readers := -MAX_READERS)
  {
    Reachable(n, moves);
    var s := Run(Step, Init(n), moves);
    EmptyIsZero(s, c);
    assert s.co[c := WantWriter][c := Announce][c := Writing] == s.co[c := Writing];
    assert s.co[c := TryAnnounce][c := Writing] == s.co[c := Writing];
  }

  /** In every run try_lock, alone, gives up without a trace when a reader is inside or the
      mutex among writers is taken. */
  lemma TryLockGivesUp(n: nat, moves: seq<Move>, c: nat)
    requires FewReaders(Init(n), moves)
    requires var s := Run(Step, Init(n), moves); c < |s.co| && s.co[c].Idle? && (s.owned || Active(s) > 0)
    ensures var s := Run(Step, Init(n), moves);
            if s.owned then Step(s, Move(c, TryLock)) == s
            else Step(Step(Step(s, Move(c, TryLock)), Go(c)), Go(c)) == s
  {
    Reachable(n, moves);
    var s := Run(Step, Init(n), moves);
    Facts(s, c);
    if !s.owned {
      assert s.readers != 0;
      assert s.co[c := TryAnnounce][c := BackOff][c := Idle] == s.co;
    }
  }

  /** In every run a writer that finds readers inside, alone, takes the mutex among writers,
      announces itself and waits for exactly those inside or already let in. */
  lemma WriterWaits(n: nat, moves: seq<Move>, c: nat)
    requires FewReaders(Init(n), moves)
    requires var s := Run(Step, Init(n), moves); c < |s.co| && s.co[c].Idle? && !s.owned && Active(s) > 0
    ensures var s := Run(Step, Init(n), moves);
            var t := Step(Step(Step(Step(s, Move(c, Lock)), Go(c)), Go(c)), Go(c));
            t == s.(co := s.co[c := AwaitReaders], owned := true, readers := s.readers - MAX_READERS,
                    readerWait := s.readers)
            && s.readers == Active(s) + Queued(s) && Granted(s) == Queued(s)
  {
    Reachable(n, moves);
    var s := Run(Step, Init(n), moves);
    Facts(s, c);
    CalmUnlessAnnounced(s);
    assert s.co[c := WantWriter][c := Announce] == s.co[c := Announce];
    assert s.co[c := Announce][c := Settle(s.readers)] == s.co[c := Settle(s.readers)];
    assert s.co[c := Settle(s.readers)][c := AwaitReaders] == s.co[c := AwaitReaders];
  }

  /** In every run the last reader that an announced writer waits for lets it in. */
  lemma LastReaderAdmits(n: nat, moves: seq<Move>, w: nat, c: nat)
    requires FewReaders(Init(n), moves)
    requires var s := Run(Step, Init(n), moves);
             w < |s.co| && c < |s.co| && s.co[w].AwaitReaders? && s.co[c].Reading? && Outstanding(s) == 1
    ensures var s := Run(Step, Init(n), moves);
            var p := Step(Step(Step(s, Move(c, Unlock)), Go(c)), Go(c));
            Step(p, Go(w)) == s.(co := s.co[c := Idle][w := Writing], readers := s.readers - 1, readerWait := 0)
  {
    Reachable(n, moves);
    var s := Run(Step, Init(n), moves);
    assert Owns(s.co[w]) && OwnerOk(s, s.co[w]);
    Facts(s, w);
    Facts(s, c);
    LastLeaves(s, c);
  }

  lemma LastLeaves(s: State, c: nat)
    requires c < |s.co| && s.co[c].Reading? && s.readers < 0 && s.readerWait == 1
    ensures Step(Step(Step(s, Move(c, Unlock)), Go(c)), Go(c))
         == s.(co := s.co[c := Idle], readers := s.readers - 1, readerWait := 0, writerPermits := s.writerPermits + 1)
  {
    assert s.co[c := CountDown][c := ReleaseWriter][c := Idle] == s.co[c := Idle];
  }

  lemma {:induction false} AdmitsAll(s: State, c: nat)
    requires c < |s.co| && s.co[c].Admit?
    ensures Run(Step, s, Times(Go(c), s.co[c].k + 1))
         == s.(co := s.co[c := Idle], readerPermits := s.readerPermits + s.co[c].k, owned := false)
    decreases s.co[c].k
  {
    var k, t := s.co[c].k, Step(s, Go(c));
    RunTimes(Step, s, Go(c), k);
    if k == 0 {
      RunTimes(Step, t, Go(c), 0);
    } else {
      AdmitsAll(t, c);
      assert s.co[c := Admit(k - 1)][c := Idle] == s.co[c := Idle];
    }
  }

  /** In every run the unlock of a writer, alone, leaves a permit for every reader that has
      queued, and the mutex among writers free. */
  lemma UnlockAdmits(n: nat, moves: seq<Move>, c: nat)
    requires FewReaders(Init(n), moves)
    requires var s := Run(Step, Init(n), moves); c < |s.co| && s.co[c].Writing?
    ensures var s := Run(Step, Init(n), moves);
            var t := Run(Step, Step(s, Move(c, Unlock)), Times(Go(c), Queued(s) + 1));
            t == s.(co := s.co[c := Idle], readers := s.readers + MAX_READERS, owned := false,
                    readerPermits := s.readerPermits + Queued(s))
            && t.readers == Queued(s)
  {
    Reachable(n, moves);
    var s := Run(Step, Init(n), moves);
    Facts(s, c);
    assert OwnerOk(s, s.co[c]);
    assert s.readers + MAX_READERS == Queued(s);
    var t := Step(s, Move(c, Unlock));
    AdmitsAll(t, c);
    assert t.co[c := Idle] == s.co[c := Idle];
  }
}
