/** `StaticResourcePool::GetResource`: one coroutine opens a path, others wait. */
module SingleFlight {
  // Any number of coroutines ask for files.  Each `Step` is one critical section
  // under `m_mtx` or under the call's own mutex, or the end of an open.
  import opened Collections
  import opened Interleavings
  import opened Lru

  const CAPACITY: nat := 512

  /** A `FileCache`: which open made it, and its descriptor, -1 after a failure. */
  datatype File = File(id: nat, fd: int)

  /** An open that has ended. */
  datatype Open = Open(path: string, fd: int)

  datatype Call = Call(path: string, owner: nat, done: bool, result: File)

  datatype Source = Hit | Joined(k: nat) | Own(k: nat)

  /** `path` is what the coroutine asked for, `k` the call that it makes or waits on. */
  datatype Local =
    | Idle
    | Opening(path: string, k: nat)
    | Putting(path: string, k: nat, f: File)      // opened; about to put it in the cache
    | Publishing(path: string, k: nat, f: File)   // about to set the result of the call
    | Erasing(path: string, k: nat, f: File)      // about to take the call off the in-flight map
    | Waiting(path: string, k: nat)
    | Returned(path: string, f: File, from: Source)

  datatype State = State(
    cache: seq<Entry<File>>,
    inFlight: map<string, nat>,
    calls: seq<Call>,
    opens: seq<Open>,                // all of them, in order
    duplicates: nat,                 // times the "duplicate open" branch was taken
    co: seq<Local>)

  datatype Act = Ask(path: string) | Opened(fd: int) | Continue | Leave

  datatype Move = Move(c: nat, act: Act)

  function Init(n: nat): State {
    State([], map[], [], [], 0, seq(n, _ => Idle))
  }

  // --------------------------------------------------------------- the steps

  function At(s: State, c: nat, l: Local): State
    requires c < |s.co|
  {
    s.(co := s.co[c := l])
  }

  function StepAsk(s: State, c: nat, path: string): State
    requires c < |s.co|
  {
    var t := s.(cache := Got(s.cache, path));
    if Cached(s.cache, path) && Lookup(s.cache, path).fd != -1 then
      At(t, c, Returned(path, Lookup(s.cache, path), Hit))
    else if path in s.inFlight then
      At(t, c, Waiting(path, s.inFlight[path]))
    else
      var k := |s.calls|;
      At(t, c, Opening(path, k)).(calls := s.calls + [Call(path, c, false, File(0, -1))],
                                  inFlight := s.inFlight[path := k])
  }

  function StepOpened(s: State, c: nat, fd: int): State
    requires c < |s.co| && s.co[c].Opening?
  {
    var path, k, f := s.co[c].path, s.co[c].k, File(|s.opens|, fd);
    At(s, c, if fd != -1 then Putting(path, k, f) else Publishing(path, k, f)).(opens := s.opens + [Open(path, fd)])
  }

  function StepPut(s: State, c: nat): State
    requires c < |s.co| && s.co[c].Putting?
  {
    var path, k, f := s.co[c].path, s.co[c].k, s.co[c].f;
    var t := s.(cache := WithPut(s.cache, CAPACITY, path, f));
    if Cached(s.cache, path) && Lookup(s.cache, path).fd != -1 then
      At(t, c, Publishing(path, k, Lookup(s.cache, path))).(duplicates := s.duplicates + 1)
    else
      At(t, c, Publishing(path, k, f))
  }

  function StepPublish(s: State, c: nat): State
    requires c < |s.co| && s.co[c].Publishing? && s.co[c].k < |s.calls|
  {
    var path, k, f := s.co[c].path, s.co[c].k, s.co[c].f;
    At(s, c, Erasing(path, k, f)).(calls := s.calls[k := s.calls[k].(done := true, result := f)])
  }

  function StepErase(s: State, c: nat): State
    requires c < |s.co| && s.co[c].Erasing?
  {
    var path, k, f := s.co[c].path, s.co[c].k, s.co[c].f;
    At(s, c, Returned(path, f, Own(k))).(inFlight := s.inFlight - {path})
  }

  function StepWait(s: State, c: nat): State
    requires c < |s.co| && s.co[c].Waiting? && s.co[c].k < |s.calls|
  {
    var path, k := s.co[c].path, s.co[c].k;
    if s.calls[k].done then At(s, c, Returned(path, s.calls[k].result, Joined(k))) else s
  }

  function Step(s: State, m: Move): State {
    if m.c >= |s.co| then s else
    match s.co[m.c]
    case Idle => if m.act.Ask? then StepAsk(s, m.c, m.act.path) else s
    case Opening(_, _) => if m.act.Opened? then StepOpened(s, m.c, m.act.fd) else s
    case Putting(_, _, _) => if m.act.Continue? then StepPut(s, m.c) else s
    case Publishing(_, k, _) => if m.act.Continue? && k < |s.calls| then StepPublish(s, m.c) else s
    case Erasing(_, _, _) => if m.act.Continue? then StepErase(s, m.c) else s
    case Waiting(_, k) => if m.act.Continue? && k < |s.calls| then StepWait(s, m.c) else s
    case Returned(_, _, _) => if m.act.Leave? then At(s, m.c, Idle) else s
  }

  // ---------------------------------------------------------- the invariant

  /** Opening a path, from the lookup that missed to the end of the call. */
  predicate Owns(l: Local) {
    l.Opening? || l.Putting? || l.Publishing? || l.Erasing?
  }

  /** A file is what an open of the path it is filed under gave. */
  predicate FileOk(opens: seq<Open>, f: File, path: string) {
    f.id < |opens| && opens[f.id] == Open(path, f.fd)
  }

  ghost predicate LocalOk(s: State, c: nat)
    requires c < |s.co|
  {
    match s.co[c]
    case Idle => true
    case Opening(path, k) => OwnerOk(s, c, path, k) && !s.calls[k].done && !Cached(s.cache, path)
    case Putting(path, k, f) =>
      OwnerOk(s, c, path, k) && !s.calls[k].done && !Cached(s.cache, path) && f.fd != -1 && FileOk(s.opens, f, path)
    case Publishing(path, k, f) => OwnerOk(s, c, path, k) && !s.calls[k].done && FileOk(s.opens, f, path)
    case Erasing(path, k, f) => OwnerOk(s, c, path, k) && s.calls[k].done && s.calls[k].result == f
    case Waiting(path, k) => k < |s.calls| && s.calls[k].path == path
    case Returned(path, f, from) =>
      && FileOk(s.opens, f, path)
      && (match from
          case Hit => f.fd != -1
          case Joined(k) => ResultOk(s, k, path, f)
          case Own(k) => ResultOk(s, k, path, f) && s.calls[k].owner == c)
  }

  ghost predicate OwnerOk(s: State, c: nat, path: string, k: nat) {
    && k < |s.calls| && s.calls[k].owner == c && s.calls[k].path == path
    && path in s.inFlight && s.inFlight[path] == k
  }

  ghost predicate ResultOk(s: State, k: nat, path: string, f: File) {
    k < |s.calls| && s.calls[k].done && s.calls[k].path == path && s.calls[k].result == f
  }

  /** A call in flight has its owner at work on it; a call that is not done is in flight. */
  ghost predicate CallOk(s: State, k: nat)
    requires k < |s.calls|
  {
    var call := s.calls[k];
    && (call.path in s.inFlight && s.inFlight[call.path] == k ==>
          call.owner < |s.co| && Owns(s.co[call.owner]) && s.co[call.owner].k == k)
    && (!call.done ==> call.path in s.inFlight && s.inFlight[call.path] == k)
    && (call.done ==> FileOk(s.opens, call.result, call.path))
  }

  ghost predicate FlightOk(s: State, path: string)
    requires path in s.inFlight
  {
    s.inFlight[path] < |s.calls| && s.calls[s.inFlight[path]].path == path
  }

  ghost predicate CacheOk(c: seq<Entry<File>>, opens: seq<Open>) {
    |c| <= CAPACITY && forall j :: 0 <= j < |c| ==> c[j].value.fd != -1 && FileOk(opens, c[j].value, c[j].key)
  }

  ghost predicate Inv(s: State) {
    && s.duplicates == 0 && CacheOk(s.cache, s.opens)
    && (forall c :: 0 <= c < |s.co| ==> LocalOk(s, c))
    && (forall k :: 0 <= k < |s.calls| ==> CallOk(s, k))
    && (forall path :: path in s.inFlight ==> FlightOk(s, path))
  }

  // ------------------------------------------------- what the cache calls keep

  /** A get caches nothing new. */
  lemma GotKeeps(c: seq<Entry<File>>, opens: seq<Open>, key: string)
    requires CacheOk(c, opens)
    ensures CacheOk(Got(c, key), opens)
    ensures forall p :: Cached(Got(c, key), p) ==> Cached(c, p)
  {
    var d := Got(c, key);
    forall j | 0 <= j < |d| ensures d[j] in c {
      var i := IndexOf(c, key);
      assert d == c || d[j] == c[if j == 0 then i else if j <= i then j - 1 else j];
    }
    forall p | Cached(d, p) ensures Cached(c, p) {
      assert d[IndexOf(d, p)] in c;
    }
  }

  /** A put caches at most its own key. */
  lemma PutKeeps(c: seq<Entry<File>>, opens: seq<Open>, key: string, f: File)
    requires CacheOk(c, opens) && !Cached(c, key) && f.fd != -1 && FileOk(opens, f, key)
    ensures CacheOk(WithPut(c, CAPACITY, key, f), opens)
    ensures forall p :: p != key && Cached(WithPut(c, CAPACITY, key, f), p) ==> Cached(c, p)
  {
    var d := WithPut(c, CAPACITY, key, f);
    forall p | p != key && Cached(d, p) ensures Cached(c, p) {
      assert d[IndexOf(d, p)] == c[IndexOf(d, p) - 1];
    }
  }

  lemma HitOk(c: seq<Entry<File>>, opens: seq<Open>, key: string)
    requires CacheOk(c, opens) && Cached(c, key)
    ensures Lookup(c, key).fd != -1 && FileOk(opens, Lookup(c, key), key)
  {
  }

  // ------------------------------------------------------- every step keeps it

  /** A call that finds the file, or an opener at work on it. */
  lemma FoundKeeps(s: State, c: nat, path: string)
    requires Inv(s) && c < |s.co| && s.co[c].Idle? && (Cached(s.cache, path) || path in s.inFlight)
    ensures Inv(StepAsk(s, c, path))
  {
    var t := StepAsk(s, c, path);
    GotKeeps(s.cache, s.opens, path);
    if Cached(s.cache, path) {
      HitOk(s.cache, s.opens, path);
    } else {
      assert FlightOk(s, path);
    }
    forall d | 0 <= d < |t.co| ensures LocalOk(t, d) {
      assert LocalOk(s, d);
    }
    forall k | 0 <= k < |t.calls| ensures CallOk(t, k) {
      assert CallOk(s, k);
    }
    forall p | p in t.inFlight ensures FlightOk(t, p) {
      assert FlightOk(s, p);
    }
  }

  /** A call that becomes the opener. */
  lemma OpenerKeeps(s: State, c: nat, path: string)
    requires Inv(s) && c < |s.co| && s.co[c].Idle? && !Cached(s.cache, path) && path !in s.inFlight
    ensures Inv(StepAsk(s, c, path))
  {
    var t := StepAsk(s, c, path);
    GotKeeps(s.cache, s.opens, path);
    forall d | 0 <= d < |t.co| ensures LocalOk(t, d) {
      assert LocalOk(s, d);
    }
    forall k | 0 <= k < |t.calls| ensures CallOk(t, k) {
      if k < |s.calls| { assert CallOk(s, k); }
    }
    forall p | p in t.inFlight ensures FlightOk(t, p) {
      if p in s.inFlight { assert FlightOk(s, p); }
    }
  }

  lemma AskKeeps(s: State, c: nat, path: string)
    requires Inv(s) && c < |s.co| && s.co[c].Idle?
    ensures Inv(StepAsk(s, c, path))
  {
    if Cached(s.cache, path) || path in s.inFlight {
      FoundKeeps(s, c, path);
    } else {
      OpenerKeeps(s, c, path);
    }
  }

  lemma OpenedKeeps(s: State, c: nat, fd: int)
    requires Inv(s) && c < |s.co| && s.co[c].Opening?
    ensures Inv(StepOpened(s, c, fd))
  {
    var t := StepOpened(s, c, fd);
    forall d | 0 <= d < |t.co| ensures LocalOk(t, d) {
      assert LocalOk(s, d);
    }
    forall k | 0 <= k < |t.calls| ensures CallOk(t, k) {
      assert CallOk(s, k);
    }
    forall p | p in t.inFlight ensures FlightOk(t, p) {
      assert FlightOk(s, p);
    }
  }

  /** Two coroutines at work on calls are at work on different paths. */
  lemma OwnersApart(s: State, i: nat, j: nat)
    requires Inv(s) && i < |s.co| && j < |s.co| && i != j && Owns(s.co[i]) && Owns(s.co[j])
    ensures s.co[i].path != s.co[j].path
  {
    assert LocalOk(s, i) && LocalOk(s, j);
  }

  lemma PutKeepsAll(s: State, c: nat)
    requires Inv(s) && c < |s.co| && s.co[c].Putting?
    ensures Inv(StepPut(s, c))
  {
    var t := StepPut(s, c);
    assert LocalOk(s, c);
    PutKeeps(s.cache, s.opens, s.co[c].path, s.co[c].f);
    forall d | 0 <= d < |t.co| ensures LocalOk(t, d) {
      assert LocalOk(s, d);
      if d != c && Owns(s.co[d]) {
        OwnersApart(s, c, d);
      }
    }
    forall k | 0 <= k < |t.calls| ensures CallOk(t, k) {
      assert CallOk(s, k);
    }
    forall p | p in t.inFlight ensures FlightOk(t, p) {
      assert FlightOk(s, p);
    }
  }

  lemma PublishKeeps(s: State, c: nat)
    requires Inv(s) && c < |s.co| && s.co[c].Publishing? && s.co[c].k < |s.calls|
    ensures Inv(StepPublish(s, c))
  {
    var t := StepPublish(s, c);
    assert LocalOk(s, c);
    forall d | 0 <= d < |t.co| ensures LocalOk(t, d) {
      assert LocalOk(s, d);
    }
    forall k | 0 <= k < |t.calls| ensures CallOk(t, k) {
      assert CallOk(s, k);
    }
    forall p | p in t.inFlight ensures FlightOk(t, p) {
      assert FlightOk(s, p);
    }
  }

  lemma EraseKeeps(s: State, c: nat)
    requires Inv(s) && c < |s.co| && s.co[c].Erasing?
    ensures Inv(StepErase(s, c))
  {
    var t := StepErase(s, c);
    assert LocalOk(s, c) && CallOk(s, s.co[c].k);
    forall d | 0 <= d < |t.co| ensures LocalOk(t, d) {
      assert LocalOk(s, d);
      if d != c && Owns(s.co[d]) {
        OwnersApart(s, c, d);
      }
    }
    forall k | 0 <= k < |t.calls| ensures CallOk(t, k) {
      assert CallOk(s, k);
    }
    forall p | p in t.inFlight ensures FlightOk(t, p) {
      assert FlightOk(s, p);
    }
  }

  lemma WaitKeeps(s: State, c: nat, l: Local)
    requires Inv(s) && c < |s.co| && !Owns(s.co[c])
    requires l.Idle? || (l.Returned? && l.from.Joined? && FileOk(s.opens, l.f, l.path)
                         && ResultOk(s, l.from.k, l.path, l.f))
    ensures Inv(At(s, c, l))
  {
    var t := At(s, c, l);
    forall d | 0 <= d < |t.co| ensures LocalOk(t, d) {
      assert LocalOk(s, d);
    }
    forall k | 0 <= k < |t.calls| ensures CallOk(t, k) {
      assert CallOk(s, k);
    }
    forall p | p in t.inFlight ensures FlightOk(t, p) {
      assert FlightOk(s, p);
    }
  }

  lemma StepKeepsInv(s: State, m: Move)
    requires Inv(s)
    ensures Inv(Step(s, m))
  {
    if m.c < |s.co| {
      assert LocalOk(s, m.c);
      match s.co[m.c] {
        case Idle => if m.act.Ask? { AskKeeps(s, m.c, m.act.path); }
        case Opening(_, _) => if m.act.Opened? { OpenedKeeps(s, m.c, m.act.fd); }
        case Putting(_, _, _) => if m.act.Continue? { PutKeepsAll(s, m.c); }
        case Publishing(_, _, _) => if m.act.Continue? { PublishKeeps(s, m.c); }
        case Erasing(_, _, _) => if m.act.Continue? { EraseKeeps(s, m.c); }
        case Waiting(path, k) =>
          if m.act.Continue? && s.calls[k].done {
            assert CallOk(s, k);
            WaitKeeps(s, m.c, Returned(path, s.calls[k].result, Joined(k)));
          }
        case Returned(_, _, _) => if m.act.Leave? { WaitKeeps(s, m.c, Idle); }
      }
    }
  }

  lemma Reachable(n: nat, moves: seq<Move>)
    ensures Inv(Run(Step, Init(n), moves))
  {
    forall s, m | Inv(s) ensures Inv(Step(s, m)) {
      StepKeepsInv(s, m);
    }
    RunKeeps(Step, Inv, Init(n), moves);
  }

  // ------------------------------------------------------------ the theorems

  /** In every run at most one coroutine is opening a path, and the branch that finds
      a duplicate is never taken, whatever was evicted meanwhile. */
  lemma OneOpener(n: nat, moves: seq<Move>, i: nat, j: nat)
    ensures var s := Run(Step, Init(n), moves);
            && s.duplicates == 0
            && (i < |s.co| && j < |s.co| && i != j && Owns(s.co[i]) && Owns(s.co[j]) ==>
                  s.co[i].path != s.co[j].path)
  {
    Reachable(n, moves);
    var s := Run(Step, Init(n), moves);
    if i < |s.co| && j < |s.co| && i != j && Owns(s.co[i]) && Owns(s.co[j]) {
      OwnersApart(s, i, j);
    }
  }

  /** Everyone who waited on a call, and its opener, return one and the same file. */
  lemma OneResult(n: nat, moves: seq<Move>, i: nat, j: nat)
    ensures var s := Run(Step, Init(n), moves);
            i < |s.co| && j < |s.co| && s.co[i].Returned? && s.co[j].Returned? && s.co[i].from.Joined?
            && !s.co[j].from.Hit? && s.co[j].from.k == s.co[i].from.k ==>
              s.co[i].f == s.co[j].f && s.co[i].path == s.co[j].path
  {
    Reachable(n, moves);
    var s := Run(Step, Init(n), moves);
    assert i < |s.co| ==> LocalOk(s, i);
    assert j < |s.co| ==> LocalOk(s, j);
  }

  /** The result of a call is set once. */
  lemma ResultStays(s: State, m: Move, k: nat)
    requires Inv(s) && k < |s.calls| && s.calls[k].done
    ensures k < |Step(s, m).calls| && Step(s, m).calls[k] == s.calls[k]
  {
    if m.c < |s.co| {
      assert LocalOk(s, m.c);
    }
  }

  /** A failed open is never cached, and whoever gets a descriptor for a path gets one
      that was opened for that path; the cache keeps within its capacity. */
  lemma OnlyGoodFiles(n: nat, moves: seq<Move>, i: nat, j: nat)
    ensures var s := Run(Step, Init(n), moves);
            && |s.cache| <= 512
            && (j < |s.cache| ==> s.cache[j].value.fd != -1 && FileOk(s.opens, s.cache[j].value, s.cache[j].key))
            && (i < |s.co| && s.co[i].Returned? ==> FileOk(s.opens, s.co[i].f, s.co[i].path))
  {
    Reachable(n, moves);
    var s := Run(Step, Init(n), moves);
    assert i < |s.co| ==> LocalOk(s, i);
  }

  lemma AskedStep(s: State, c: nat, path: string, m: Move)
    requires c < |s.co| && !s.co[c].Idle? && s.co[c].path == path && m != Move(c, Leave)
    ensures var t := Step(s, m); c < |t.co| && !t.co[c].Idle? && t.co[c].path == path
  {
  }

  /** Until it leaves, a coroutine is about the path that it asked for. */
  lemma {:induction false} AskedStays(s: State, c: nat, path: string, moves: seq<Move>)
    requires c < |s.co| && !s.co[c].Idle? && s.co[c].path == path
    requires forall m :: m in moves ==> m != Move(c, Leave)
    ensures var t := Run(Step, s, moves); c < |t.co| && !t.co[c].Idle? && t.co[c].path == path
    decreases |moves|
  {
    if moves != [] {
      assert moves[0] in moves && forall m :: m in moves[1..] ==> m in moves;
      AskedStep(s, c, path, moves[0]);
      AskedStays(Step(s, moves[0]), c, path, moves[1..]);
    }
  }

  /** In every run, whoever asks for a path and gets a descriptor, out of the cache, from
      its own open or from another's, gets one that was opened for the path it asked. */
  lemma GetsWhatItAsked(n: nat, before: seq<Move>, c: nat, path: string, after: seq<Move>)
    requires c < n && c < |Run(Step, Init(n), before).co| && Run(Step, Init(n), before).co[c].Idle?
    requires forall m :: m in after ==> m != Move(c, Leave)
    ensures var t := Run(Step, Init(n), before + ([Move(c, Ask(path))] + after));
            c < |t.co| && (t.co[c].Returned? ==> FileOk(t.opens, t.co[c].f, path))
  {
    var s, ask := Run(Step, Init(n), before), Move(c, Ask(path));
    RunMore(Step, Init(n), before, [ask] + after);
    RunCons(Step, s, ask, after);
    AskedStays(Step(s, ask), c, path, after);
    Reachable(n, before + ([ask] + after));
    assert LocalOk(Run(Step, Step(s, ask), after), c);
  }

  /** Nobody waits for a call that no one will finish: its owner is still at work on
      it, or the result is there. */
  lemma NobodyForgotten(n: nat, moves: seq<Move>, i: nat)
    ensures var s := Run(Step, Init(n), moves);
            i < |s.co| && s.co[i].Waiting? ==>
              && s.co[i].k < |s.calls|
              && var call := s.calls[s.co[i].k];
                 call.done || (call.owner < |s.co| && Owns(s.co[call.owner]) && s.co[call.owner].k == s.co[i].k)
  {
    Reachable(n, moves);
    var s := Run(Step, Init(n), moves);
    if i < |s.co| && s.co[i].Waiting? {
      assert LocalOk(s, i);
      assert CallOk(s, s.co[i].k);
    }
  }

  ghost predicate AtWork(s: State, c: nat, path: string) {
    c < |s.co| && Owns(s.co[c]) && s.co[c].path == path
  }

  /** A path is in the in-flight map exactly while a coroutine is at work on it. */
  lemma InFlightIff(n: nat, moves: seq<Move>, path: string)
    ensures var s := Run(Step, Init(n), moves);
            path in s.inFlight <==> exists c: nat :: AtWork(s, c, path)
  {
    Reachable(n, moves);
    var s := Run(Step, Init(n), moves);
    if path in s.inFlight {
      var k := s.inFlight[path];
      assert FlightOk(s, path) && CallOk(s, k);
      assert LocalOk(s, s.calls[k].owner);
      assert AtWork(s, s.calls[k].owner, path);
    }
    if c: nat :| AtWork(s, c, path) {
      assert LocalOk(s, c);
    }
  }
}
