/** The fixed-window limiter.  `Counter` keeps one entry per key and drops stale
    entries when its table is full; the reference limiter keeps the whole history of
    grants.  On every trace that never goes back to an earlier window the two agree. */
module RateLimiter {
  import opened Collections

  const MAX_KEYS: nat := 65536

  datatype Entry = Entry(window: nat, count: nat)

  type Table = map<string, Entry>

  /** One call: the time it read, in milliseconds, and its key. */
  datatype Call = Call(now: nat, key: string)

  datatype Config = Config(limit: nat, windowMs: nat, maxKeys: nat)

  predicate Proper(cfg: Config) {
    0 < cfg.limit && 0 < cfg.windowMs && 0 < cfg.maxKeys
  }

  function Window(cfg: Config, now: nat): nat
    requires Proper(cfg)
  {
    now / cfg.windowMs
  }

  // --------------------------------------------------------------- one call

  /** What the clean-up leaves. */
  function Swept(t: Table, window: nat): (u: Table)
    ensures u.Keys <= t.Keys
  {
    map k | k in t && t[k].window >= window :: t[k]
  }

  function AfterSweep(cfg: Config, t: Table, window: nat, key: string): Table {
    if key !in t && |t| >= cfg.maxKeys then Swept(t, window) else t
  }

  /** The table has no room for a new key, even after the clean-up. */
  predicate Full(cfg: Config, t: Table, window: nat, key: string) {
    key !in t && |AfterSweep(cfg, t, window, key)| >= cfg.maxKeys
  }

  /** The entry of a key in the current window. */
  function Current(t: Table, window: nat, key: string): Entry {
    if key in t && t[key].window == window then t[key] else Entry(window, 0)
  }

  function Granted(cfg: Config, t: Table, call: Call): bool
    requires Proper(cfg)
  {
    var w := Window(cfg, call.now);
    !Full(cfg, t, w, call.key) && Current(t, w, call.key).count < cfg.limit
  }

  function After(cfg: Config, t: Table, call: Call): Table
    requires Proper(cfg)
  {
    var w := Window(cfg, call.now);
    var t1 := AfterSweep(cfg, t, w, call.key);
    if Full(cfg, t, w, call.key) then t1
    else
      var e := Current(t, w, call.key);
      t1[call.key := if e.count < cfg.limit then e.(count := e.count + 1) else e]
  }

  class Counter {
    const cfg: Config
    var entries: Table

    constructor (limit: nat, windowSec: nat)
      requires 0 < limit && 0 < windowSec
      ensures entries == map[] && cfg == Config(limit, windowSec * 1000, MAX_KEYS)
    {
      cfg := Config(limit, windowSec * 1000, MAX_KEYS);
      entries := map[];
    }

    /** Drops the entries of earlier windows, one by one. */
    method Sweep(window: nat)
      modifies `entries
      ensures entries == Swept(old(entries), window)
    {
      var rest := entries.Keys;
      while rest != {}
        invariant rest <= entries.Keys <= old(entries).Keys
        invariant forall k :: k in entries ==> entries[k] == old(entries)[k]
        invariant forall k :: k in old(entries) && k !in rest ==> (k in entries <==> old(entries)[k].window >= window)
        invariant forall k :: k in rest ==> k in entries
        decreases |rest|
      {
        var k :| k in rest;
        rest := rest - {k};
        if entries[k].window < window {
          entries := entries - {k};
        }
      }
    }

    method Allow(now: nat, key: string) returns (ok: bool)
      requires Proper(cfg)
      modifies `entries
      ensures entries == After(cfg, old(entries), Call(now, key)) && ok == Granted(cfg, old(entries), Call(now, key))
    {
      var current := now / cfg.windowMs;
      if key !in entries && |entries| >= cfg.maxKeys {
        Sweep(current);
        if |entries| >= cfg.maxKeys {
          return false;
        }
      }
      if key !in entries {
        entries := entries[key := Entry(0, 0)];
      }
      if entries[key].window != current {
        entries := entries[key := Entry(current, 0)];
      }
      if entries[key].count >= cfg.limit {
        return false;
      }
      entries := entries[key := entries[key].(count := entries[key].count + 1)];
      ok := true;
    }

    /** Whole seconds until the window ends: waiting that long always reaches a later
        window, waiting a second less does not, and no wait is longer than a window. */
    method RetryAfter(now: nat) returns (sec: nat)
      requires Proper(cfg)
      ensures 1 <= sec && Window(cfg, now + 1000 * sec) > Window(cfg, now)
      ensures sec > 1 ==> Window(cfg, now + 1000 * (sec - 1)) == Window(cfg, now)
      ensures cfg.windowMs % 1000 == 0 ==> 1000 * sec <= cfg.windowMs
    {
      var current := now / cfg.windowMs;
      var remain := (current + 1) * cfg.windowMs - now;
      WindowEnd(cfg.windowMs, now, now);
      RoundedUp(remain);
      sec := AtLeastOne((remain + 999) / 1000);
      WindowEnd(cfg.windowMs, now, now + 1000 * (sec - 1));
      WindowEnd(cfg.windowMs, now, now + 1000 * sec);
    }
  }

  function AtLeastOne(n: nat): nat {
    if n < 1 then 1 else n
  }

  lemma Scale(d: nat, a: nat, b: nat)
    ensures a <= b ==> a * d <= b * d
  {
    if a <= b {
      assert b * d == a * d + (b - a) * d;
    }
  }

  /** `x / d` is the number whose multiple of `d` is the last one up to `x`. */
  lemma Quotient(d: nat, x: nat, w: nat)
    requires 0 < d
    ensures x / d * d <= x < x / d * d + d
    ensures w * d <= x < w * d + d ==> x / d == w
  {
    var q := x / d;
    assert x == q * d + x % d;
    Scale(d, q + 1, w);
    Scale(d, w + 1, q);
    assert (q + 1) * d == q * d + d && (w + 1) * d == w * d + d;
  }

  /** The end of the window of `now`, and which side of it `x` is on. */
  lemma WindowEnd(d: nat, now: nat, x: nat)
    requires 0 < d && now <= x
    ensures now < (now / d + 1) * d <= now + d
    ensures if x < (now / d + 1) * d then x / d == now / d else x / d > now / d
  {
    var w := now / d;
    Quotient(d, now, w);
    Quotient(d, x, w);
    assert (w + 1) * d == w * d + d;
    if x >= (w + 1) * d {
      var q := x / d;
      Scale(d, q + 1, w + 1);
      assert (q + 1) * d == q * d + d;
    }
  }

  /** Rounding up to whole seconds. */
  lemma RoundedUp(remain: nat)
    requires 0 < remain
    ensures var sec := AtLeastOne((remain + 999) / 1000);
            1 <= sec && 1000 * (sec - 1) < remain <= 1000 * sec
  {
  }

  /** The constructor's refusals. */
  method Make(limit: int, windowSec: int) returns (c: Counter?)
    ensures c != null <==> limit > 0 && windowSec > 0
    ensures c != null ==> fresh(c) && c.entries == map[] && c.cfg == Config(limit, windowSec * 1000, MAX_KEYS)
  {
    if limit <= 0 || windowSec <= 0 {
      return null;
    }
    c := new Counter(limit, windowSec);
  }

  // ---------------------------------------------------------- whole traces

  datatype Outcome = Outcome(table: Table, grants: seq<Call>)

  /** The table and the granted calls after a trace. */
  function Serve(cfg: Config, trace: seq<Call>): Outcome
    requires Proper(cfg)
    decreases |trace|
  {
    if trace == [] then Outcome(map[], [])
    else
      var o, call := Serve(cfg, trace[..|trace| - 1]), trace[|trace| - 1];
      Outcome(After(cfg, o.table, call), if Granted(cfg, o.table, call) then o.grants + [call] else o.grants)
  }

  /** Grants to a key in a window. */
  function GrantsIn(cfg: Config, grants: seq<Call>, key: string, window: nat): nat
    requires Proper(cfg)
    decreases |grants|
  {
    if grants == [] then 0
    else
      var last := grants[|grants| - 1];
      GrantsIn(cfg, grants[..|grants| - 1], key, window)
      + if last.key == key && Window(cfg, last.now) == window then 1 else 0
  }

  /** The keys that were granted something in a window. */
  function KeysIn(cfg: Config, grants: seq<Call>, window: nat): set<string>
    requires Proper(cfg)
    decreases |grants|
  {
    if grants == [] then {}
    else
      var last := grants[|grants| - 1];
      KeysIn(cfg, grants[..|grants| - 1], window) + if Window(cfg, last.now) == window then {last.key} else {}
  }

  /** The reference limiter: at most `limit` grants to a key in a window, and at most
      `maxKeys` keys. */
  function Allowed(cfg: Config, grants: seq<Call>, call: Call): bool
    requires Proper(cfg)
  {
    var w := Window(cfg, call.now);
    var n := GrantsIn(cfg, grants, call.key, w);
    n < cfg.limit && (n > 0 || |KeysIn(cfg, grants, w)| < cfg.maxKeys)
  }

  function Reference(cfg: Config, trace: seq<Call>): seq<Call>
    requires Proper(cfg)
    decreases |trace|
  {
    if trace == [] then []
    else
      var grants, call := Reference(cfg, trace[..|trace| - 1]), trace[|trace| - 1];
      if Allowed(cfg, grants, call) then grants + [call] else grants
  }

  /** No call is served in an earlier window than a call before it. */
  ghost predicate NeverBack(cfg: Config, trace: seq<Call>)
    requires Proper(cfg)
  {
    forall i, j :: 0 <= i < j < |trace| ==> Window(cfg, trace[i].now) <= Window(cfg, trace[j].now)
  }

  // ------------------------------------------------------------ agreement

  /** The table against the history: an entry counts the grants of its window, and
      whatever it does not show was not granted in this window or later. */
  ghost predicate EntryOk(cfg: Config, t: Table, grants: seq<Call>, now: nat, key: string)
    requires Proper(cfg)
  {
    && (key in t ==> t[key].window <= Window(cfg, now) && 0 < t[key].count <= cfg.limit
                     && t[key].count == GrantsIn(cfg, grants, key, t[key].window))
    && forall w :: w >= (if key in t then t[key].window + 1 else Window(cfg, now)) ==>
         GrantsIn(cfg, grants, key, w) == 0
  }

  ghost predicate TableOk(cfg: Config, o: Outcome, now: nat)
    requires Proper(cfg)
  {
    |o.table| <= cfg.maxKeys && forall key :: EntryOk(cfg, o.table, o.grants, now, key)
  }

  lemma {:induction false} KeysAreGranted(cfg: Config, grants: seq<Call>, window: nat, key: string)
    requires Proper(cfg)
    ensures key in KeysIn(cfg, grants, window) <==> GrantsIn(cfg, grants, key, window) > 0
    decreases |grants|
  {
    if grants != [] {
      KeysAreGranted(cfg, grants[..|grants| - 1], window, key);
    }
  }

  lemma CurrentIsCount(cfg: Config, o: Outcome, last: nat, call: Call)
    requires Proper(cfg) && TableOk(cfg, o, last) && Window(cfg, last) <= Window(cfg, call.now)
    ensures var w := Window(cfg, call.now);
            Current(o.table, w, call.key).count == GrantsIn(cfg, o.grants, call.key, w)
  {
    assert EntryOk(cfg, o.table, o.grants, last, call.key);
  }

  lemma SweptIsGranted(cfg: Config, o: Outcome, last: nat, w: nat)
    requires Proper(cfg) && TableOk(cfg, o, last) && Window(cfg, last) <= w
    ensures Swept(o.table, w).Keys == KeysIn(cfg, o.grants, w)
  {
    forall k ensures k in Swept(o.table, w) <==> k in KeysIn(cfg, o.grants, w) {
      assert EntryOk(cfg, o.table, o.grants, last, k);
      KeysAreGranted(cfg, o.grants, w, k);
    }
  }

  /** The table decides as the history does. */
  lemma Agree(cfg: Config, o: Outcome, last: nat, call: Call)
    requires Proper(cfg) && TableOk(cfg, o, last) && Window(cfg, last) <= Window(cfg, call.now)
    ensures Granted(cfg, o.table, call) == Allowed(cfg, o.grants, call)
  {
    var t, w, key := o.table, Window(cfg, call.now), call.key;
    CurrentIsCount(cfg, o, last, call);
    SweptIsGranted(cfg, o, last, w);
    var swept := Swept(t, w).Keys;
    assert |Swept(t, w)| == |swept| && |t| == |t.Keys|;
    SubsetCard(swept, t.Keys);
    if key in t && t[key].window < w {
      SubsetCard(swept, t.Keys - {key});
    }
    assert EntryOk(cfg, t, o.grants, last, key);
  }

  lemma GrantsAfter(cfg: Config, grants: seq<Call>, call: Call, key: string, w: nat)
    requires Proper(cfg)
    ensures GrantsIn(cfg, grants + [call], key, w)
         == GrantsIn(cfg, grants, key, w) + if call.key == key && Window(cfg, call.now) == w then 1 else 0
  {
    assert (grants + [call])[..|grants|] == grants;
  }

  lemma EntryKept(cfg: Config, o: Outcome, last: nat, call: Call, key: string)
    requires Proper(cfg) && TableOk(cfg, o, last) && Window(cfg, last) <= Window(cfg, call.now)
    requires key != call.key
    ensures EntryOk(cfg, After(cfg, o.table, call), o.grants, call.now, key)
  {
    assert EntryOk(cfg, o.table, o.grants, last, key);
  }

  lemma EntryMade(cfg: Config, o: Outcome, last: nat, call: Call, grants: seq<Call>)
    requires Proper(cfg) && TableOk(cfg, o, last) && Window(cfg, last) <= Window(cfg, call.now)
    requires grants == if Granted(cfg, o.table, call) then o.grants + [call] else o.grants
    ensures EntryOk(cfg, After(cfg, o.table, call), grants, call.now, call.key)
  {
    var w, key := Window(cfg, call.now), call.key;
    assert EntryOk(cfg, o.table, o.grants, last, key);
    forall v: nat ensures GrantsIn(cfg, grants, key, v) == GrantsIn(cfg, o.grants, key, v)
                          + if Granted(cfg, o.table, call) && v == w then 1 else 0 {
      GrantsAfter(cfg, o.grants, call, key, v);
    }
  }

  lemma TableKept(cfg: Config, o: Outcome, last: nat, call: Call)
    requires Proper(cfg) && TableOk(cfg, o, last) && Window(cfg, last) <= Window(cfg, call.now)
    ensures var grants := if Granted(cfg, o.table, call) then o.grants + [call] else o.grants;
            TableOk(cfg, Outcome(After(cfg, o.table, call), grants), call.now)
  {
    var grants := if Granted(cfg, o.table, call) then o.grants + [call] else o.grants;
    var t := After(cfg, o.table, call);
    forall key ensures EntryOk(cfg, t, grants, call.now, key) {
      if key == call.key {
        EntryMade(cfg, o, last, call, grants);
      } else {
        EntryKept(cfg, o, last, call, key);
        forall w: nat ensures GrantsIn(cfg, grants, key, w) == GrantsIn(cfg, o.grants, key, w) {
          GrantsAfter(cfg, o.grants, call, key, w);
        }
      }
    }
    SizeKept(cfg, o.table, call);
  }

  /** The table never outgrows its limit, whatever the times are. */
  lemma SizeKept(cfg: Config, t: Table, call: Call)
    requires Proper(cfg) && |t| <= cfg.maxKeys
    ensures |After(cfg, t, call)| <= cfg.maxKeys
  {
    var w := Window(cfg, call.now);
    var t1 := AfterSweep(cfg, t, w, call.key);
    SubsetCard(Swept(t, w).Keys, t.Keys);
    assert |Swept(t, w)| == |Swept(t, w).Keys| && |t| == |t.Keys|;
    if !Full(cfg, t, w, call.key) {
      var u := After(cfg, t, call);
      assert u.Keys == t1.Keys + {call.key};
      assert |u| == |u.Keys| && |t1| == |t1.Keys|;
      if call.key in t {
        assert u.Keys == t.Keys;
      }
    }
  }

  lemma {:induction false} Bounded(cfg: Config, trace: seq<Call>)
    requires Proper(cfg)
    ensures |Serve(cfg, trace).table| <= cfg.maxKeys
    decreases |trace|
  {
    if trace != [] {
      Bounded(cfg, trace[..|trace| - 1]);
      SizeKept(cfg, Serve(cfg, trace[..|trace| - 1]).table, trace[|trace| - 1]);
    }
  }

  function Latest(trace: seq<Call>): nat {
    if trace == [] then 0 else trace[|trace| - 1].now
  }

  /** On a trace that never goes back to an earlier window, the limiter grants exactly what the
      reference limiter grants, clean-up or not. */
  lemma {:induction false} ServesAsReference(cfg: Config, trace: seq<Call>)
    requires Proper(cfg) && NeverBack(cfg, trace)
    ensures Serve(cfg, trace).grants == Reference(cfg, trace)
    ensures TableOk(cfg, Serve(cfg, trace), Latest(trace))
    decreases |trace|
  {
    if trace == [] {
      Quotient(cfg.windowMs, 0, 0);
    } else {
      var before, call := trace[..|trace| - 1], trace[|trace| - 1];
      ServesAsReference(cfg, before);
      if before == [] {
        Quotient(cfg.windowMs, 0, 0);
      }
      Agree(cfg, Serve(cfg, before), Latest(before), call);
      TableKept(cfg, Serve(cfg, before), Latest(before), call);
    }
  }

  lemma {:induction false} ReferenceLimits(cfg: Config, trace: seq<Call>, key: string, w: nat)
    requires Proper(cfg)
    ensures GrantsIn(cfg, Reference(cfg, trace), key, w) <= cfg.limit
    decreases |trace|
  {
    if trace != [] {
      var before, call := trace[..|trace| - 1], trace[|trace| - 1];
      ReferenceLimits(cfg, before, key, w);
      GrantsAfter(cfg, Reference(cfg, before), call, key, w);
    }
  }

  /** At most `limit` grants to a key in a window. */
  lemma AtMostLimit(cfg: Config, trace: seq<Call>, key: string, w: nat)
    requires Proper(cfg) && NeverBack(cfg, trace)
    ensures GrantsIn(cfg, Serve(cfg, trace).grants, key, w) <= cfg.limit
  {
    ServesAsReference(cfg, trace);
    ReferenceLimits(cfg, trace, key, w);
  }

  /** Grants to a key in the half-open interval from `start`, one window long. */
  function GrantsFrom(cfg: Config, grants: seq<Call>, key: string, start: nat): nat
    decreases |grants|
  {
    if grants == [] then 0
    else
      var last := grants[|grants| - 1];
      GrantsFrom(cfg, grants[..|grants| - 1], key, start)
      + if last.key == key && start <= last.now < start + cfg.windowMs then 1 else 0
  }

  lemma TwoWindows(cfg: Config, start: nat, now: nat)
    requires Proper(cfg) && start <= now < start + cfg.windowMs
    ensures Window(cfg, now) == Window(cfg, start) || Window(cfg, now) == Window(cfg, start) + 1
  {
    var d, w := cfg.windowMs, start / cfg.windowMs;
    Quotient(d, start, w);
    Quotient(d, now, w);
    Quotient(d, now, w + 1);
    assert (w + 1) * d == w * d + d;
  }

  lemma {:induction false} IntervalInWindows(cfg: Config, grants: seq<Call>, key: string, start: nat)
    requires Proper(cfg)
    ensures var w := Window(cfg, start);
            GrantsFrom(cfg, grants, key, start) <= GrantsIn(cfg, grants, key, w) + GrantsIn(cfg, grants, key, w + 1)
    decreases |grants|
  {
    if grants != [] {
      var last := grants[|grants| - 1];
      IntervalInWindows(cfg, grants[..|grants| - 1], key, start);
      if start <= last.now < start + cfg.windowMs {
        TwoWindows(cfg, start, last.now);
      }
    }
  }

  /** At most twice `limit` grants to a key in any stretch of time one window long. */
  lemma AtMostTwice(cfg: Config, trace: seq<Call>, key: string, start: nat)
    requires Proper(cfg) && NeverBack(cfg, trace)
    ensures GrantsFrom(cfg, Serve(cfg, trace).grants, key, start) <= 2 * cfg.limit
  {
    var w := Window(cfg, start);
    AtMostLimit(cfg, trace, key, w);
    AtMostLimit(cfg, trace, key, w + 1);
    IntervalInWindows(cfg, Serve(cfg, trace).grants, key, start);
  }
}
