/** The limiter when calls are served out of order.

    `Allow` reads the clock before it takes the lock, so a call of an earlier window
    may be served behind one of a later window.  This module says exactly when the
    limit of a window holds all the same. */
module RateOrder {
  import opened Collections
  import opened RateLimiter

  // ---------------------------------------------------------- one key's calls

  /** Calls in a window. */
  function Calls(cfg: Config, trace: seq<Call>, w: nat): nat
    requires Proper(cfg)
    decreases |trace|
  {
    if trace == [] then 0
    else Calls(cfg, trace[..|trace| - 1], w) + if Window(cfg, trace[|trace| - 1].now) == w then 1 else 0
  }

  /** The calls of a window are served one behind the other. */
  ghost predicate Together(cfg: Config, trace: seq<Call>, w: nat)
    requires Proper(cfg)
  {
    forall i, j, k :: 0 <= i < j < k < |trace| && Window(cfg, trace[i].now) == w && Window(cfg, trace[k].now) == w ==>
      Window(cfg, trace[j].now) == w
  }

  predicate LastIn(cfg: Config, trace: seq<Call>, w: nat)
    requires Proper(cfg)
  {
    trace != [] && Window(cfg, trace[|trace| - 1].now) == w
  }

  /** The length of the last run of calls in one window. */
  function LastRun(cfg: Config, trace: seq<Call>): nat
    requires Proper(cfg) && trace != []
    decreases |trace|
  {
    var before := trace[..|trace| - 1];
    if LastIn(cfg, before, Window(cfg, trace[|trace| - 1].now)) then 1 + LastRun(cfg, before) else 1
  }

  function Min(a: nat, b: nat): nat {
    if a < b then a else b
  }

  lemma {:induction false} SomeCall(cfg: Config, trace: seq<Call>, w: nat) returns (i: nat)
    requires Proper(cfg) && Calls(cfg, trace, w) > 0
    ensures i < |trace| && Window(cfg, trace[i].now) == w
    decreases |trace|
  {
    var n := |trace| - 1;
    if Window(cfg, trace[n].now) == w {
      i := n;
    } else {
      i := SomeCall(cfg, trace[..n], w);
    }
  }

  lemma {:induction false} NoCall(cfg: Config, trace: seq<Call>, w: nat, i: nat)
    requires Proper(cfg) && Calls(cfg, trace, w) == 0 && i < |trace|
    ensures Window(cfg, trace[i].now) != w
    decreases |trace|
  {
    if i < |trace| - 1 {
      NoCall(cfg, trace[..|trace| - 1], w, i);
    }
  }

  lemma ComesBack(cfg: Config, before: seq<Call>, call: Call, w: nat)
    requires Proper(cfg) && Window(cfg, call.now) == w && Calls(cfg, before, w) > 0 && !LastIn(cfg, before, w)
    ensures !Together(cfg, before + [call], w)
  {
    var trace, n := before + [call], |before|;
    var i := SomeCall(cfg, before, w);
    assert trace[i] == before[i] && trace[n - 1] == before[n - 1] && trace[n] == call;
  }

  /** One more call keeps a window together unless it comes back to it. */
  lemma TogetherMore(cfg: Config, before: seq<Call>, call: Call, w: nat)
    requires Proper(cfg)
    ensures Together(cfg, before + [call], w) <==>
            && Together(cfg, before, w)
            && (Window(cfg, call.now) == w ==> Calls(cfg, before, w) == 0 || LastIn(cfg, before, w))
  {
    var trace, n := before + [call], |before|;
    if Together(cfg, trace, w) {
      forall i, j, k | 0 <= i < j < k < n && Window(cfg, before[i].now) == w && Window(cfg, before[k].now) == w
        ensures Window(cfg, before[j].now) == w
      {
        assert trace[i] == before[i] && trace[j] == before[j] && trace[k] == before[k];
      }
    }
    if Window(cfg, call.now) == w && Calls(cfg, before, w) > 0 && !LastIn(cfg, before, w) {
      ComesBack(cfg, before, call, w);
    }
    if
      && Together(cfg, before, w)
      && (Window(cfg, call.now) == w ==> Calls(cfg, before, w) == 0 || LastIn(cfg, before, w))
    {
      forall i, j, k | 0 <= i < j < k < n + 1 && Window(cfg, trace[i].now) == w && Window(cfg, trace[k].now) == w
        ensures Window(cfg, trace[j].now) == w
      {
        if k == n && Calls(cfg, before, w) == 0 {
          NoCall(cfg, before, w, i);
        }
      }
    }
  }

  lemma CallsMore(cfg: Config, before: seq<Call>, call: Call, w: nat)
    requires Proper(cfg)
    ensures Calls(cfg, before + [call], w) == Calls(cfg, before, w) + if Window(cfg, call.now) == w then 1 else 0
    ensures LastRun(cfg, before + [call])
         == 1 + if LastIn(cfg, before, Window(cfg, call.now)) then LastRun(cfg, before) else 0
  {
    assert (before + [call])[..|before|] == before;
  }

  /** The last run is the whole window exactly when its calls are together. */
  lemma {:induction false} RunIsWindow(cfg: Config, trace: seq<Call>)
    requires Proper(cfg) && trace != []
    ensures var w := Window(cfg, trace[|trace| - 1].now);
            && LastRun(cfg, trace) <= Calls(cfg, trace, w)
            && (Together(cfg, trace, w) <==> LastRun(cfg, trace) == Calls(cfg, trace, w))
    decreases |trace|
  {
    var before, call := trace[..|trace| - 1], trace[|trace| - 1];
    assert trace == before + [call];
    var w := Window(cfg, call.now);
    TogetherMore(cfg, before, call, w);
    CallsMore(cfg, before, call, w);
    if LastIn(cfg, before, w) {
      RunIsWindow(cfg, before);
    } else if Calls(cfg, before, w) == 0 {
      assert Together(cfg, before, w) by {
        forall i | 0 <= i < |before| ensures Window(cfg, before[i].now) != w { NoCall(cfg, before, w, i); }
      }
    }
  }

  lemma ServeNext(cfg: Config, trace: seq<Call>, call: Call)
    requires Proper(cfg)
    ensures var o, p := Serve(cfg, trace), Serve(cfg, trace + [call]);
            && p.table == After(cfg, o.table, call)
            && p.grants == if Granted(cfg, o.table, call) then o.grants + [call] else o.grants
  {
    assert (trace + [call])[..|trace|] == trace;
  }

  ghost predicate OneKey(trace: seq<Call>, key: string) {
    forall c :: c in trace ==> c.key == key
  }

  /** The table of one key: its last window, and how much of the last run was granted. */
  function RunTable(cfg: Config, trace: seq<Call>, key: string): Table
    requires Proper(cfg)
  {
    if trace == [] then map[]
    else map[key := Entry(Window(cfg, trace[|trace| - 1].now), Min(cfg.limit, LastRun(cfg, trace)))]
  }

  lemma RunStep(cfg: Config, before: seq<Call>, call: Call)
    requires Proper(cfg)
    ensures var t, w := RunTable(cfg, before, call.key), Window(cfg, call.now);
            && After(cfg, t, call) == RunTable(cfg, before + [call], call.key)
            && Granted(cfg, t, call) == ((if LastIn(cfg, before, w) then LastRun(cfg, before) else 0) < cfg.limit)
  {
    CallsMore(cfg, before, call, Window(cfg, call.now));
  }

  lemma {:induction false} TableOfRuns(cfg: Config, trace: seq<Call>, key: string)
    requires Proper(cfg) && OneKey(trace, key)
    ensures Serve(cfg, trace).table == RunTable(cfg, trace, key)
    decreases |trace|
  {
    if trace != [] {
      var before, call := trace[..|trace| - 1], trace[|trace| - 1];
      assert trace == before + [call] && call.key == key;
      TableOfRuns(cfg, before, key);
      ServeNext(cfg, before, call);
      RunStep(cfg, before, call);
    }
  }

  /** What one key gets of a window: all its calls up to the limit if they are together
      or no more than the limit, and more than the limit otherwise. */
  ghost predicate ShareOk(cfg: Config, trace: seq<Call>, grants: nat, w: nat)
    requires Proper(cfg)
  {
    var calls := Calls(cfg, trace, w);
    if Together(cfg, trace, w) || calls <= cfg.limit then grants == Min(cfg.limit, calls) else grants > cfg.limit
  }

  lemma ShareStep(cfg: Config, before: seq<Call>, call: Call, grants: nat, w: nat)
    requires Proper(cfg) && ShareOk(cfg, before, grants, w)
    ensures var run := if LastIn(cfg, before, Window(cfg, call.now)) then LastRun(cfg, before) else 0;
            ShareOk(cfg, before + [call], grants + if run < cfg.limit && Window(cfg, call.now) == w then 1 else 0, w)
  {
    TogetherMore(cfg, before, call, w);
    CallsMore(cfg, before, call, w);
    if LastIn(cfg, before, w) {
      RunIsWindow(cfg, before);
    }
  }

  lemma {:induction false} Share(cfg: Config, trace: seq<Call>, key: string, w: nat)
    requires Proper(cfg) && OneKey(trace, key)
    ensures ShareOk(cfg, trace, GrantsIn(cfg, Serve(cfg, trace).grants, key, w), w)
    decreases |trace|
  {
    if trace != [] {
      var before, call := trace[..|trace| - 1], trace[|trace| - 1];
      assert trace == before + [call] && call.key == key;
      Share(cfg, before, key, w);
      TableOfRuns(cfg, before, key);
      ServeNext(cfg, before, call);
      RunStep(cfg, before, call);
      GrantsAfter(cfg, Serve(cfg, before).grants, call, key, w);
      ShareStep(cfg, before, call, GrantsIn(cfg, Serve(cfg, before).grants, key, w), w);
    }
  }

  // ------------------------------------------------------------ several keys

  /** The calls of one key. */
  function Only(trace: seq<Call>, key: string): seq<Call>
    decreases |trace|
  {
    if trace == [] then []
    else
      var before, call := Only(trace[..|trace| - 1], key), trace[|trace| - 1];
      if call.key == key then before + [call] else before
  }

  function KeysCalled(trace: seq<Call>): set<string> {
    set c | c in trace :: c.key
  }

  /** Two tables that agree on a key treat its calls alike, while there is room. */
  ghost predicate SameEntry(t: Table, u: Table, key: string) {
    (key in t <==> key in u) && (key in t ==> t[key] == u[key])
  }

  /** Where there is room a call sets its own entry, and nothing else happens. */
  lemma OnlyItsEntry(cfg: Config, t: Table, call: Call)
    requires Proper(cfg) && (call.key !in t ==> |t| < cfg.maxKeys)
    ensures var w := Window(cfg, call.now);
            var e := Current(t, w, call.key);
            && Granted(cfg, t, call) == (e.count < cfg.limit)
            && After(cfg, t, call) == t[call.key := if e.count < cfg.limit then e.(count := e.count + 1) else e]
            && After(cfg, t, call).Keys == t.Keys + {call.key}
  {
  }

  lemma Alike(cfg: Config, t: Table, u: Table, call: Call)
    requires Proper(cfg) && SameEntry(t, u, call.key)
    requires (call.key !in t ==> |t| < cfg.maxKeys) && (call.key !in u ==> |u| < cfg.maxKeys)
    ensures Granted(cfg, t, call) == Granted(cfg, u, call)
    ensures SameEntry(After(cfg, t, call), After(cfg, u, call), call.key)
  {
    OnlyItsEntry(cfg, t, call);
    OnlyItsEntry(cfg, u, call);
  }

  ghost predicate AloneOk(cfg: Config, trace: seq<Call>, key: string, w: nat)
    requires Proper(cfg)
  {
    var o, p := Serve(cfg, trace), Serve(cfg, Only(trace, key));
    && o.table.Keys <= KeysCalled(trace) && p.table.Keys <= {key} && SameEntry(o.table, p.table, key)
    && GrantsIn(cfg, o.grants, key, w) == GrantsIn(cfg, p.grants, key, w)
  }

  lemma AloneOther(cfg: Config, before: seq<Call>, call: Call, key: string, w: nat)
    requires Proper(cfg) && |KeysCalled(before + [call])| <= cfg.maxKeys
    requires AloneOk(cfg, before, key, w) && call.key != key
    ensures AloneOk(cfg, before + [call], key, w)
  {
    var t := Serve(cfg, before).table;
    KeysMore(before, call);
    Room(cfg, t, KeysCalled(before + [call]), call.key);
    ServeNext(cfg, before, call);
    OnlyItsEntry(cfg, t, call);
    GrantsAfter(cfg, Serve(cfg, before).grants, call, key, w);
  }

  lemma AloneSame(cfg: Config, before: seq<Call>, call: Call, w: nat)
    requires Proper(cfg) && |KeysCalled(before + [call])| <= cfg.maxKeys && AloneOk(cfg, before, call.key, w)
    ensures AloneOk(cfg, before + [call], call.key, w)
  {
    var alone := Only(before, call.key);
    var t, u := Serve(cfg, before).table, Serve(cfg, alone).table;
    KeysMore(before, call);
    Room(cfg, t, KeysCalled(before + [call]), call.key);
    Room(cfg, u, {call.key}, call.key);
    ServeNext(cfg, before, call);
    ServeNext(cfg, alone, call);
    Alike(cfg, t, u, call);
    OnlyItsEntry(cfg, t, call);
    OnlyItsEntry(cfg, u, call);
    GrantsAfter(cfg, Serve(cfg, before).grants, call, call.key, w);
    GrantsAfter(cfg, Serve(cfg, alone).grants, call, call.key, w);
  }

  lemma KeysMore(before: seq<Call>, call: Call)
    ensures KeysCalled(before + [call]) == KeysCalled(before) + {call.key}
    ensures Only(before + [call], call.key) == Only(before, call.key) + [call]
    ensures forall key :: key != call.key ==> Only(before + [call], key) == Only(before, key)
  {
    assert (before + [call])[..|before|] == before;
    assert forall c :: c in before + [call] <==> c in before || c == call;
  }

  /** With no more keys than the table holds, no clean-up ever runs and each key is
      served as if it were alone. */
  lemma {:induction false} Alone(cfg: Config, trace: seq<Call>, key: string, w: nat)
    requires Proper(cfg) && |KeysCalled(trace)| <= cfg.maxKeys
    ensures AloneOk(cfg, trace, key, w)
    decreases |trace|
  {
    if trace != [] {
      var before, call := trace[..|trace| - 1], trace[|trace| - 1];
      assert trace == before + [call];
      KeysMore(before, call);
      SubsetCard(KeysCalled(before), KeysCalled(trace));
      Alone(cfg, before, key, w);
      if call.key == key {
        AloneSame(cfg, before, call, w);
      } else {
        AloneOther(cfg, before, call, key, w);
      }
    }
  }

  lemma Room(cfg: Config, t: Table, keys: set<string>, key: string)
    requires t.Keys <= keys && key in keys && |keys| <= cfg.maxKeys
    ensures key !in t ==> |t| < cfg.maxKeys
  {
    assert |t| == |t.Keys|;
    if key !in t {
      SubsetCard(t.Keys, keys - {key});
    }
  }

  /** For every trace of no more keys than the table holds, in whatever order its calls
      are served: a key stays within the limit of a window if and only if its calls of
      that window are served one behind the other among its own, or there are no more
      of them than the limit. */
  lemma LimitIffTogether(cfg: Config, trace: seq<Call>, key: string, w: nat)
    requires Proper(cfg) && |KeysCalled(trace)| <= cfg.maxKeys
    ensures GrantsIn(cfg, Serve(cfg, trace).grants, key, w) <= cfg.limit
       <==> Together(cfg, Only(trace, key), w) || Calls(cfg, Only(trace, key), w) <= cfg.limit
  {
    Alone(cfg, trace, key, w);
    OnlyIn(trace, key);
    Share(cfg, Only(trace, key), key, w);
  }

  // ------------------------------------------- more keys than the table holds

  predicate IsOf(cfg: Config, call: Call, key: string, w: nat)
    requires Proper(cfg)
  {
    call.key == key && Window(cfg, call.now) == w
  }

  /** A call that leaves the entry of a key in a window alone: one of the window itself or
      an earlier one, and not the key's own unless of the window itself. */
  predicate Spares(cfg: Config, call: Call, key: string, w: nat)
    requires Proper(cfg)
  {
    Window(cfg, call.now) <= w && (call.key == key ==> Window(cfg, call.now) == w)
  }

  /** Only such calls are served between two calls of the key in the window. */
  ghost predicate Unbroken(cfg: Config, trace: seq<Call>, key: string, w: nat)
    requires Proper(cfg)
  {
    forall i, j, k :: 0 <= i < j < k < |trace| && IsOf(cfg, trace[i], key, w) && IsOf(cfg, trace[k], key, w) ==>
      Spares(cfg, trace[j], key, w)
  }

  /** And since its last one. */
  ghost predicate Open(cfg: Config, trace: seq<Call>, key: string, w: nat)
    requires Proper(cfg)
  {
    forall i, j :: 0 <= i < j < |trace| && IsOf(cfg, trace[i], key, w) ==> Spares(cfg, trace[j], key, w)
  }

  /** The entry counts the grants of the window for as long as it is not interrupted. */
  ghost predicate SpanOk(cfg: Config, trace: seq<Call>, key: string, w: nat)
    requires Proper(cfg)
  {
    var t, g := Serve(cfg, trace).table, GrantsIn(cfg, Serve(cfg, trace).grants, key, w);
    && g <= cfg.limit
    && (g > 0 ==> exists i :: 0 <= i < |trace| && IsOf(cfg, trace[i], key, w))
    && (key in t && t[key].window == w ==> g > 0)
    && (Open(cfg, trace, key, w) && g > 0 ==> key in t && t[key] == Entry(w, g))
  }

  /** A table whose entry of a key counts `g` grants of the window. */
  ghost predicate Counts(t: Table, key: string, w: nat, g: nat) {
    if g > 0 then key in t && t[key] == Entry(w, g) else key in t ==> t[key].window != w
  }

  lemma OwnCall(cfg: Config, t: Table, call: Call, g: nat)
    requires Proper(cfg) && g <= cfg.limit && Counts(t, call.key, Window(cfg, call.now), g)
    ensures var h := if Granted(cfg, t, call) then g + 1 else g;
            h <= cfg.limit && Counts(After(cfg, t, call), call.key, Window(cfg, call.now), h)
  {
  }

  /** A call of another key or window keeps the count, if it spares the entry, and never
      makes an entry of the window. */
  lemma OtherCall(cfg: Config, t: Table, call: Call, key: string, w: nat, g: nat)
    requires Proper(cfg) && !IsOf(cfg, call, key, w)
    ensures var u := After(cfg, t, call);
            && (Spares(cfg, call, key, w) && g > 0 && Counts(t, key, w, g) ==> Counts(u, key, w, g))
            && (key in u && u[key].window == w ==> key in t && t[key].window == w)
  {
  }

  /** Up to the next call of the key in the window nothing has interrupted it. */
  lemma StillOpen(cfg: Config, before: seq<Call>, call: Call, key: string, w: nat)
    requires Proper(cfg) && IsOf(cfg, call, key, w) && Unbroken(cfg, before + [call], key, w)
    ensures Open(cfg, before, key, w)
  {
    var trace, n := before + [call], |before|;
    assert IsOf(cfg, trace[n], key, w);
    forall i, j | 0 <= i < j < n && IsOf(cfg, before[i], key, w) ensures Spares(cfg, before[j], key, w) {
      assert trace[i] == before[i] && trace[j] == before[j];
    }
  }

  lemma OpenBefore(cfg: Config, before: seq<Call>, call: Call, key: string, w: nat)
    requires Proper(cfg) && Open(cfg, before + [call], key, w)
    requires exists i :: 0 <= i < |before| && IsOf(cfg, before[i], key, w)
    ensures Open(cfg, before, key, w) && Spares(cfg, call, key, w)
  {
    var trace, n := before + [call], |before|;
    var i :| 0 <= i < n && IsOf(cfg, before[i], key, w);
    assert trace[i] == before[i] && trace[n] == call;
    assert forall j :: 0 <= j < n ==> trace[j] == before[j];
  }

  lemma SpanOther(cfg: Config, before: seq<Call>, call: Call, key: string, w: nat)
    requires Proper(cfg) && SpanOk(cfg, before, key, w) && !IsOf(cfg, call, key, w)
    ensures SpanOk(cfg, before + [call], key, w)
  {
    var g := GrantsIn(cfg, Serve(cfg, before).grants, key, w);
    ServeNext(cfg, before, call);
    GrantsAfter(cfg, Serve(cfg, before).grants, call, key, w);
    OtherCall(cfg, Serve(cfg, before).table, call, key, w, g);
    if g > 0 {
      var i :| 0 <= i < |before| && IsOf(cfg, before[i], key, w);
      assert (before + [call])[i] == before[i];
      if Open(cfg, before + [call], key, w) {
        OpenBefore(cfg, before, call, key, w);
      }
    }
  }

  lemma SpanOwn(cfg: Config, before: seq<Call>, call: Call, key: string, w: nat)
    requires Proper(cfg) && SpanOk(cfg, before, key, w) && IsOf(cfg, call, key, w)
    requires Unbroken(cfg, before + [call], key, w)
    ensures SpanOk(cfg, before + [call], key, w)
  {
    var t, g := Serve(cfg, before).table, GrantsIn(cfg, Serve(cfg, before).grants, key, w);
    StillOpen(cfg, before, call, key, w);
    ServeNext(cfg, before, call);
    GrantsAfter(cfg, Serve(cfg, before).grants, call, key, w);
    OwnCall(cfg, t, call, g);
    assert IsOf(cfg, (before + [call])[|before|], key, w);
  }

  lemma {:induction false} SpanAll(cfg: Config, trace: seq<Call>, key: string, w: nat)
    requires Proper(cfg) && Unbroken(cfg, trace, key, w)
    ensures SpanOk(cfg, trace, key, w)
    decreases |trace|
  {
    if trace != [] {
      var before, call := trace[..|trace| - 1], trace[|trace| - 1];
      assert trace == before + [call];
      assert Unbroken(cfg, before, key, w) by {
        assert forall j :: 0 <= j < |before| ==> trace[j] == before[j];
      }
      SpanAll(cfg, before, key, w);
      if IsOf(cfg, call, key, w) {
        SpanOwn(cfg, before, call, key, w);
      } else {
        SpanOther(cfg, before, call, key, w);
      }
    }
  }

  /** However many keys there are: a key stays within the limit of a window if, between two
      of its calls of that window, no call of a later window is served, of any key, and
      no call of its own of another window. */
  lemma LimitIfUnbroken(cfg: Config, trace: seq<Call>, key: string, w: nat)
    requires Proper(cfg) && Unbroken(cfg, trace, key, w)
    ensures GrantsIn(cfg, Serve(cfg, trace).grants, key, w) <= cfg.limit
  {
    SpanAll(cfg, trace, key, w);
  }

  function Repeat(call: Call, n: nat): seq<Call> {
    seq(n, _ => call)
  }

  lemma {:induction false} RepeatRun(cfg: Config, call: Call, n: nat)
    requires Proper(cfg)
    ensures var w, trace := Window(cfg, call.now), Repeat(call, n);
            && (n > 0 ==> LastRun(cfg, trace) == n) && Calls(cfg, trace, w) == n && Together(cfg, trace, w)
    decreases n
  {
    if n > 0 {
      assert Repeat(call, n) == Repeat(call, n - 1) + [call];
      RepeatRun(cfg, call, n - 1);
      CallsMore(cfg, Repeat(call, n - 1), call, Window(cfg, call.now));
    }
  }

  /** The i-th of as many different keys as there may be. */
  function Filler(now: nat, i: nat): Call {
    Call(now, seq(i + 2, _ => 'c'))
  }

  function Fillers(now: nat, n: nat): seq<Call> {
    seq(n, i requires 0 <= i => Filler(now, i))
  }

  /** The key's whole limit, and other keys until the table is full. */
  function FillTrace(cfg: Config, now: nat, n: nat): seq<Call> {
    Repeat(Call(now, "a"), cfg.limit) + Fillers(now, n)
  }

  ghost predicate Filled(t: Table, w: nat, n: nat) {
    && |t| == n + 1 && "b" !in t
    && (forall key :: key in t ==> t[key].window == w)
    && (forall i: nat :: n <= i ==> Filler(0, i).key !in t)
  }

  lemma FillStep(cfg: Config, t: Table, now: nat, n: nat)
    requires Proper(cfg) && Filled(t, Window(cfg, now), n) && n + 1 < cfg.maxKeys
    ensures Filled(After(cfg, t, Filler(now, n)), Window(cfg, now), n + 1)
  {
    var key := Filler(now, n).key;
    assert |key| == n + 2 && key == Filler(0, n).key;
    assert After(cfg, t, Filler(now, n)) == t[key := Entry(Window(cfg, now), 1)];
    forall i: nat | n + 1 <= i ensures Filler(0, i).key != key {
      assert |Filler(0, i).key| == i + 2;
    }
  }

  lemma {:induction false} FillServed(cfg: Config, now: nat, n: nat)
    requires Proper(cfg) && n < cfg.maxKeys
    ensures var o := Serve(cfg, FillTrace(cfg, now, n));
            Filled(o.table, Window(cfg, now), n) && GrantsIn(cfg, o.grants, "a", Window(cfg, now)) == cfg.limit
    decreases n
  {
    var a, w := Call(now, "a"), Window(cfg, now);
    if n == 0 {
      assert FillTrace(cfg, now, 0) == Repeat(a, cfg.limit);
      RepeatRun(cfg, a, cfg.limit);
      TableOfRuns(cfg, Repeat(a, cfg.limit), "a");
      Share(cfg, Repeat(a, cfg.limit), "a", w);
      FilledFirst(cfg, w);
    } else {
      var before, call := FillTrace(cfg, now, n - 1), Filler(now, n - 1);
      assert FillTrace(cfg, now, n) == before + [call];
      FillServed(cfg, now, n - 1);
      ServeNext(cfg, before, call);
      FillStep(cfg, Serve(cfg, before).table, now, n - 1);
      assert |call.key| == n + 1;
      GrantsAfter(cfg, Serve(cfg, before).grants, call, "a", w);
    }
  }

  lemma FilledFirst(cfg: Config, w: nat)
    ensures Filled(map["a" := Entry(w, cfg.limit)], w, 0)
  {
    var t: Table := map["a" := Entry(w, cfg.limit)];
    assert t.Keys == {"a"};
    assert |t| == |t.Keys|;
    forall i: nat ensures Filler(0, i).key !in t {
      assert |Filler(0, i).key| == i + 2;
    }
  }

  /** A full table, and a call of one more key in a later window. */
  function SweepTrace(cfg: Config, now: nat, later: nat): seq<Call>
    requires Proper(cfg)
  {
    FillTrace(cfg, now, cfg.maxKeys - 1) + [Call(later, "b")]
  }

  lemma SweepStep(cfg: Config, t: Table, w: nat, later: nat)
    requires Proper(cfg) && w < Window(cfg, later) && Filled(t, w, cfg.maxKeys - 1)
    ensures After(cfg, t, Call(later, "b")) == map["b" := Entry(Window(cfg, later), 1)]
  {
    assert Swept(t, Window(cfg, later)) == map[];
  }

  lemma SweepServed(cfg: Config, now: nat, later: nat)
    requires Proper(cfg) && Window(cfg, now) < Window(cfg, later)
    ensures var o := Serve(cfg, SweepTrace(cfg, now, later));
            && o.table == map["b" := Entry(Window(cfg, later), 1)]
            && GrantsIn(cfg, o.grants, "a", Window(cfg, now)) == cfg.limit
  {
    var b, trace := Call(later, "b"), FillTrace(cfg, now, cfg.maxKeys - 1);
    FillServed(cfg, now, cfg.maxKeys - 1);
    ServeNext(cfg, trace, b);
    SweepStep(cfg, Serve(cfg, trace).table, Window(cfg, now), later);
    GrantsAfter(cfg, Serve(cfg, trace).grants, b, "a", Window(cfg, now));
  }

  /** With a full table a key needs no step back of its own: another key's call of a later
      window sweeps its exhausted entry away, and its late call starts afresh, whatever
      the two windows and the times in them. */
  lemma SweepBreaks(cfg: Config, now: nat, later: nat)
    requires Proper(cfg) && cfg.maxKeys >= 2 && Window(cfg, now) < Window(cfg, later)
    ensures var trace := SweepTrace(cfg, now, later) + [Call(now, "a")];
            && GrantsIn(cfg, Serve(cfg, trace).grants, "a", Window(cfg, now)) == cfg.limit + 1
            && Together(cfg, Only(trace, "a"), Window(cfg, now))
  {
    var a, trace := Call(now, "a"), SweepTrace(cfg, now, later);
    SweepServed(cfg, now, later);
    SweepTogether(cfg, now, later);
    ServeNext(cfg, trace, a);
    LateGranted(cfg, now, Window(cfg, later));
    GrantsAfter(cfg, Serve(cfg, trace).grants, a, "a", Window(cfg, now));
  }

  /** So it is with every limiter that `Make` makes. */
  lemma CounterBreaks(limit: nat, windowSec: nat, now: nat, later: nat)
    requires 0 < limit && 0 < windowSec && now / (windowSec * 1000) < later / (windowSec * 1000)
    ensures var cfg := Config(limit, windowSec * 1000, MAX_KEYS);
            var trace := SweepTrace(cfg, now, later) + [Call(now, "a")];
            && GrantsIn(cfg, Serve(cfg, trace).grants, "a", Window(cfg, now)) == limit + 1
            && Together(cfg, Only(trace, "a"), Window(cfg, now))
  {
    SweepBreaks(Config(limit, windowSec * 1000, MAX_KEYS), now, later);
  }

  lemma LateGranted(cfg: Config, now: nat, w: nat)
    requires Proper(cfg) && cfg.maxKeys >= 2
    ensures Granted(cfg, map["b" := Entry(w, 1)], Call(now, "a"))
  {
    var t: Table := map["b" := Entry(w, 1)];
    assert t.Keys == {"b"} && |t| == 1;
  }

  lemma SweepTogether(cfg: Config, now: nat, later: nat)
    requires Proper(cfg)
    ensures Together(cfg, Only(SweepTrace(cfg, now, later) + [Call(now, "a")], "a"), Window(cfg, now))
  {
    var trace := SweepTrace(cfg, now, later) + [Call(now, "a")];
    OnlyIn(trace, "a");
    forall c | c in trace && c.key == "a" ensures c.now == now {
      assert c in SweepTrace(cfg, now, later) || c == Call(now, "a");
    }
    var own := Only(trace, "a");
    assert forall j :: 0 <= j < |own| ==> own[j] in own;
  }

  lemma {:induction false} OnlyIn(trace: seq<Call>, key: string)
    ensures forall c :: c in Only(trace, key) ==> c in trace && c.key == key
    decreases |trace|
  {
    if trace != [] {
      OnlyIn(trace[..|trace| - 1], key);
    }
  }
}
