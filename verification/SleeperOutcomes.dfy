/** What the calls of `usleeper` come to: which wakes win, and how a sleep ends. */
module SleeperOutcomes {
  // Module Sleeper counts; here are the branches behind the counts.  "Alone" means
  // that only the coroutines and scheduler steps named move meanwhile.
  import opened Interleavings
  import opened Sleeper

  function Go(c: nat): Move {
    Move(c, Continue)
  }

  /** `w` has registered its sleep, and nothing has ended it yet: no expiry, and no
      resumption posted or about to be. */
  ghost predicate Unresolved(s: State, w: nat) {
    w < |s.co| && (s.co[w].Push? || s.co[w].Suspended?) && Resumptions(s) == 0
  }

  lemma ParkedIff(s: State)
    requires Inv(s)
    ensures s.st == PARKED <==> exists w :: Unresolved(s, w)
  {
    if s.st == PARKED {
      var w := TheSleeper(s);
      assert Unresolved(s, w);
    }
    if w :| Unresolved(s, w) {
      assert SleepOk(s, w);
    }
  }

  /** In every run a wake wins, and is off to post the resumption, if and only if some sleep
      is registered and unresolved; otherwise it is off to be counted as pending. */
  lemma WakeWinsIff(n: nat, moves: seq<Move>, c: nat)
    requires var s := Run(Step, Init(n), moves); c < |s.co| && s.co[c].Idle?
    ensures var s := Run(Step, Init(n), moves);
            var t := Step(s, Move(c, Wake));
            && c < |t.co| && t.wakes == s.wakes + 1
            && if exists w :: Unresolved(s, w) then t.co[c].Post? && t.won == s.won + 1 && t.st == WOKEN
               else t.co[c].Defer? && t.won == s.won && Step(t, Go(c)).pending == s.pending + 1
  {
    Reachable(n, moves);
    ParkedIff(Run(Step, Init(n), moves));
  }

  /** In every run the winner's next step posts the sleeper, whatever happened since: nobody
      else can have resumed it. */
  lemma WinnerPosts(n: nat, moves: seq<Move>, c: nat)
    requires var s := Run(Step, Init(n), moves); c < |s.co| && s.co[c].Post?
    ensures var s := Run(Step, Init(n), moves);
            var t := Step(s, Go(c));
            exists w :: 0 <= w < |s.co| && (s.co[w].Push? || s.co[w].Suspended?)
                        && s.posted == multiset{} && t.posted == multiset{w} && c < |t.co| && t.co[c].Idle?
  {
    Reachable(n, moves);
    var s := Run(Step, Init(n), moves);
    CountNone(s.co, IsPosting);
    var w := TheSleeper(s);
    assert s.co[w].Push? || s.co[w].Suspended?;
    assert s.posted == multiset{};
    assert Step(s, Go(c)).posted == multiset{w};
  }

  /** The scheduler drops an expiry that a wake has beaten. */
  function Settled(s: State, w: nat): State {
    if s.firing then Step(s, Move(w, Fire)) else s
  }

  /** The last two steps of a sleep. */
  lemma CleaningEnds(s: State, w: nat)
    requires w < |s.co| && s.co[w].Cleaning?
    ensures Step(Step(s, Go(w)), Go(w))
         == s.(co := s.co[w := Idle], inHeap := false, prom := Null, st := IDLE,
               broken := s.broken + One(s.st != EXPIRED), ended := s.ended + One(s.st == EXPIRED))
  {
    var s1 := Step(s, Go(w));
    assert s1 == s.(co := s.co[w := Vacate(s.st)], inHeap := false, prom := Null);
    assert s.co[w := Vacate(s.st)][w := Idle] == s.co[w := Idle];
  }

  lemma ResumeAlone(s: State, w: nat)
    requires w < |s.co| && s.co[w].Suspended? && s.posted == multiset{w} && s.st == WOKEN
    ensures Step(Settled(s, w), Move(w, Resume))
         == s.(firing := false, posted := multiset{}, co := s.co[w := Cleaning])
  {
    var s1 := Settled(s, w);
    assert s1 == s.(firing := false);
    assert s1.posted[w] == 1 && s1.posted - multiset{w} == multiset{};
  }

  /** A posted sleeper, resumed, ends as broken. */
  lemma PostedEnds(s: State, w: nat)
    requires w < |s.co| && s.co[w].Suspended? && s.posted == multiset{w} && s.st == WOKEN
    ensures var t := Step(Step(Step(Settled(s, w), Move(w, Resume)), Go(w)), Go(w));
            && w < |t.co| && t.co == s.co[w := Idle] && t.st == IDLE && !t.inHeap && t.posted == multiset{}
            && t.broken == s.broken + 1 && t.ended == s.ended
  {
    ResumeAlone(s, w);
    var s2 := Step(Settled(s, w), Move(w, Resume));
    CleaningEnds(s2, w);
    assert s.co[w := Cleaning][w := Idle] == s.co[w := Idle];
  }

  /** The two steps of a wake that wins. */
  lemma WakePosts(s: State, c: nat, w: nat)
    requires Inv(s) && c < |s.co| && s.co[c].Idle? && Unresolved(s, w) && s.co[w].Suspended?
    ensures var p := Step(Step(s, Move(c, Wake)), Go(c));
            Inv(p) && p == s.(st := WOKEN, posted := multiset{w}, wakes := s.wakes + 1, won := s.won + 1)
  {
    assert SleepOk(s, w);
    var s1 := Step(s, Move(c, Wake));
    StepKeepsInv(s, Move(c, Wake));
    StepKeepsInv(s1, Go(c));
    assert s1 == s.(co := s.co[c := Post], st := WOKEN, wakes := s.wakes + 1, won := s.won + 1);
    assert s.posted == multiset{} && s.co[c := Post][c := Idle] == s.co;
  }

  /** In every run a wake breaks the sleep: with nobody else moving, the wake's two steps,
      the scheduler's resumption and the sleeper's two steps end the sleep as WOKEN,
      and no wake stays pending for it. */
  lemma WakeBreaksSleep(n: nat, moves: seq<Move>, c: nat, w: nat)
    requires var s := Run(Step, Init(n), moves);
             c < |s.co| && s.co[c].Idle? && Unresolved(s, w) && s.co[w].Suspended?
    ensures var s := Run(Step, Init(n), moves);
            var p := Step(Step(s, Move(c, Wake)), Go(c));
            var t := Step(Step(Step(Settled(p, w), Move(w, Resume)), Go(w)), Go(w));
            && t.co == s.co[w := Idle] && t.st == IDLE && t.broken == s.broken + 1 && t.ended == s.ended
            && p.pending == s.pending && p.won == s.won + 1
  {
    Reachable(n, moves);
    var s := Run(Step, Init(n), moves);
    WakePosts(s, c, w);
    PostedEnds(Step(Step(s, Move(c, Wake)), Go(c)), w);
  }

  // ------------------------------------------------------------ sleep_for

  /** In every run: a sleep_for that finds wakes pending returns WOKEN at once, consumes
      exactly those and claims nothing; one of no time returns EXPIRED at once and
      consumes nothing; only otherwise does it go for the slot. */
  lemma SleepForBegins(n: nat, moves: seq<Move>, c: nat, positive: bool)
    requires var s := Run(Step, Init(n), moves); c < |s.co| && s.co[c].Idle?
    ensures var s := Run(Step, Init(n), moves);
            var t := Step(s, Move(c, Sleep(positive)));
            && c < |t.co|
            && (t.co[c].Idle? <==> s.pending > 0 || !positive)
            && t.roused == s.roused + One(s.pending > 0)
            && t.skipped == s.skipped + One(s.pending == 0 && !positive)
            && (t.co[c].Idle? ==> t == s.(pending := 0, consumed := s.consumed + s.pending,
                                          roused := t.roused, skipped := t.skipped))
            && (!t.co[c].Idle? ==> t == s.(co := s.co[c := Claim]))
  {
  }

  /** In every run the claim of a vacant slot, alone, registers the sleep and suspends it on
      the heap. */
  lemma SleepAlone(n: nat, moves: seq<Move>, c: nat)
    requires var s := Run(Step, Init(n), moves); c < |s.co| && s.co[c].Claim? && Sleeps(s) == 0
    ensures var s := Run(Step, Init(n), moves);
            var t := Step(Step(Step(s, Go(c)), Go(c)), Go(c));
            && t.co == s.co[c := Suspended] && t.st == PARKED && t.inHeap && t.prom == Of(c)
            && t.accepted == s.accepted + 1 && Unresolved(t, c)
  {
    Reachable(n, moves);
    var s := Run(Step, Init(n), moves);
    assert s.st == IDLE;
    var s1 := Step(s, Go(c));
    var s2 := Step(s1, Go(c));
    var t := Step(s2, Go(c));
    assert t.co == s.co[c := Register][c := Push][c := Suspended] == s.co[c := Suspended];
    CountNone(s.co, IsPosting);
    CountNone(t.co, IsPosting);
  }

  /** In every run the claim of a slot that another sleep holds returns BUSY, and leaves
      that sleep and everything else as it was. */
  lemma SecondSleepIsBusy(n: nat, moves: seq<Move>, c: nat)
    requires var s := Run(Step, Init(n), moves); c < |s.co| && s.co[c].Claim? && Sleeps(s) > 0
    ensures var s := Run(Step, Init(n), moves);
            Step(s, Go(c)) == s.(co := s.co[c := Idle], rejected := s.rejected + 1)
  {
    Reachable(n, moves);
  }

  predicate Decided(s: State) { s.st == WOKEN || s.st == EXPIRED }

  /** The sleep of `w` and its outcome stand. */
  predicate Stands(s: State, t: State, w: nat) {
    w < |t.co| && InSleep(t.co[w]) && t.st == s.st && t.broken == s.broken && t.ended == s.ended
  }

  lemma FireStands(s: State, c: nat, w: nat)
    requires Decided(s) && c < |s.co| && w < |s.co| && InSleep(s.co[w])
    ensures Stands(s, StepFire(s, c), w)
  {
  }

  lemma ResumeStands(s: State, c: nat, w: nat)
    requires Decided(s) && c < |s.co| && w < |s.co| && InSleep(s.co[w]) && SleepOk(s, w)
    ensures Stands(s, StepResume(s, c), w)
  {
    if s.co[w].Cleaning? || s.co[w].Vacate? {
      assert s.posted == multiset{};
    }
  }

  lemma CallStands(s: State, c: nat, act: Act, w: nat)
    requires Decided(s) && c < |s.co| && s.co[c].Idle? && w < |s.co| && InSleep(s.co[w])
    ensures Stands(s, StepCall(s, c, act), w)
  {
  }

  lemma WakeStands(s: State, c: nat, w: nat)
    requires Decided(s) && c < |s.co| && w < |s.co| && InSleep(s.co[w]) && (s.co[c].Post? || s.co[c].Defer?)
    ensures Stands(s, StepWake(s, c), w)
  {
  }

  lemma OthersSleepStands(s: State, c: nat, w: nat)
    requires Decided(s) && c < |s.co| && c != w && w < |s.co| && InSleep(s.co[w]) && !InSleep(s.co[c])
    ensures Stands(s, StepSleep(s, c), w)
  {
  }

  /** The sleeper's own steps: the last of them returns the outcome. */
  lemma OwnSleep(s: State, w: nat)
    requires Decided(s) && w < |s.co| && InSleep(s.co[w]) && SleepOk(s, w)
    ensures var t := StepSleep(s, w);
            if s.co[w].Vacate? then
              t == s.(co := s.co[w := Idle], st := IDLE, broken := s.broken + One(s.st == WOKEN),
                      ended := s.ended + One(s.st == EXPIRED))
            else Stands(s, t, w)
  {
  }

  lemma OutcomeStep(s: State, m: Move, w: nat)
    requires Inv(s) && w < |s.co| && InSleep(s.co[w]) && Decided(s)
    ensures var t := Step(s, m);
            || Stands(s, t, w)
            || (w < |t.co| && t.co[w].Idle? && t.broken == s.broken + One(s.st == WOKEN)
                && t.ended == s.ended + One(s.st == EXPIRED))
  {
    var v := TheSleeper(s);
    assert v == w;
    if m.c < |s.co| {
      match m.act
      case Fire => FireStands(s, m.c, w);
      case Resume => ResumeStands(s, m.c, w);
      case Continue =>
        if s.co[m.c].Post? || s.co[m.c].Defer? {
          WakeStands(s, m.c, w);
        } else if m.c == w {
          OwnSleep(s, w);
        } else {
          OthersSleepStands(s, m.c, w);
        }
      case _ =>
        if s.co[m.c].Idle? { CallStands(s, m.c, m.act, w); }
    }
  }

  lemma {:induction false} OutcomeStays(s: State, moves: seq<Move>, w: nat)
    requires Inv(s) && (s.st == WOKEN || s.st == EXPIRED)
    requires Throughout(Step, s, moves, (t: State) => w < |t.co| && InSleep(t.co[w]))
    ensures var t := Run(Step, s, moves);
            && Inv(t) && w < |t.co| && InSleep(t.co[w])
            && t.st == s.st && t.broken == s.broken && t.ended == s.ended
    decreases |moves|
  {
    if moves != [] {
      OutcomeStep(s, moves[0], w);
      StepKeepsInv(s, moves[0]);
      OutcomeStays(Step(s, moves[0]), moves[1..], w);
    }
  }

  /** In every run the arbitration is final: a sleep that a wake has won returns WOKEN and
      one that has expired returns EXPIRED, whatever happens before it returns. */
  lemma ArbitrationIsFinal(n: nat, before: seq<Move>, w: nat, between: seq<Move>, m: Move)
    requires var s := Run(Step, Init(n), before);
             && (s.st == WOKEN || s.st == EXPIRED)
             && Throughout(Step, s, between, (t: State) => w < |t.co| && InSleep(t.co[w]))
    ensures var s := Run(Step, Init(n), before);
            var t := Step(Run(Step, s, between), m);
            && w < |t.co|
            && (!InSleep(t.co[w]) ==>
                  t.broken == s.broken + One(s.st == WOKEN) && t.ended == s.ended + One(s.st == EXPIRED))
  {
    Reachable(n, before);
    var s := Run(Step, Init(n), before);
    OutcomeStays(s, between, w);
    OutcomeStep(Run(Step, s, between), m, w);
  }

  /** In every run an unresolved sleep on the heap that the scheduler expires, with nobody
      else moving, ends as EXPIRED. */
  lemma SleepExpires(n: nat, moves: seq<Move>, w: nat)
    requires var s := Run(Step, Init(n), moves); Unresolved(s, w) && s.co[w].Suspended? && s.inHeap
    ensures var s := Run(Step, Init(n), moves);
            var t := Step(Step(Step(Step(s, Move(w, Fire)), Move(w, Fire)), Go(w)), Go(w));
            && t.co == s.co[w := Idle] && t.st == IDLE && !t.inHeap
            && t.ended == s.ended + 1 && t.broken == s.broken
  {
    Reachable(n, moves);
    var s := Run(Step, Init(n), moves);
    assert SleepOk(s, w);
    var s2 := Step(Step(s, Move(w, Fire)), Move(w, Fire));
    assert s2 == s.(inHeap := false, st := EXPIRED, co := s.co[w := Cleaning]);
    CleaningEnds(s2, w);
    assert s.co[w := Cleaning][w := Idle] == s.co[w := Idle];
  }
}
