/** The least-recently-used cache of open files: a list with the most recent entry
    first, and a map from each key to its place in the list. */
module Lru {
  import opened Collections

  datatype Entry<V> = Entry(key: string, value: V)

  // ------------------------------------------------------- the cache as a list

  /** The position of a key, or the length of the list. */
  function IndexOf<V>(c: seq<Entry<V>>, key: string): (i: nat)
    ensures i <= |c| && (i < |c| ==> c[i].key == key)
    ensures forall j :: 0 <= j < i ==> c[j].key != key
  {
    if c == [] || c[0].key == key then 0 else 1 + IndexOf(c[1..], key)
  }

  predicate Cached<V>(c: seq<Entry<V>>, key: string) {
    IndexOf(c, key) < |c|
  }

  function Lookup<V>(c: seq<Entry<V>>, key: string): V
    requires Cached(c, key)
  {
    c[IndexOf(c, key)].value
  }

  function ToFront<T>(c: seq<T>, i: nat): (d: seq<T>)
    requires i < |c|
    ensures |d| == |c| && d[0] == c[i]
    ensures forall j :: 0 <= j < i ==> d[j + 1] == c[j]
    ensures forall j :: i < j < |c| ==> d[j] == c[j]
  {
    [c[i]] + c[..i] + c[i + 1..]
  }

  function Got<V>(c: seq<Entry<V>>, key: string): seq<Entry<V>> {
    if Cached(c, key) then ToFront(c, IndexOf(c, key)) else c
  }

  function WithPut<V>(c: seq<Entry<V>>, cap: nat, key: string, value: V): seq<Entry<V>>
    requires 0 < cap
  {
    if Cached(c, key) then ToFront(c, IndexOf(c, key))
    else [Entry(key, value)] + if |c| == cap then c[..cap - 1] else c
  }

  // ------------------------------------------------------------- the structure

  function Without<T(==,!new)>(s: seq<T>, x: T): (r: seq<T>)
    ensures forall y :: y in r <==> y in s && y != x
  {
    if s == [] then [] else (if s[0] == x then [] else [s[0]]) + Without(s[1..], x)
  }

  /** Taking a node out of a list leaves what was before it and what was behind. */
  lemma {:induction false} Unlinked<T(!new)>(s: seq<T>, i: nat)
    requires Distinct(s) && i < |s|
    ensures Without(s, s[i]) == s[..i] + s[i + 1..]
  {
    if i == 0 {
      Absent(s[1..], s[0]);
    } else {
      Unlinked(s[1..], i - 1);
      assert s[1..][..i - 1] == s[1..i] && s[1..][i..] == s[i + 1..];
    }
  }

  lemma {:induction false} Absent<T(!new)>(s: seq<T>, x: T)
    requires x !in s
    ensures Without(s, x) == s
  {
    if s != [] {
      Absent(s[1..], x);
    }
  }

  /** The list holds every node once. */
  ghost predicate NodesOk<V>(entries: map<nat, Entry<V>>, lru: seq<nat>, next: nat) {
    && Distinct(lru)
    && (forall n :: n in lru <==> n in entries)
    && (forall n :: n in entries ==> n < next)
  }

  /** The map finds the node of every key. */
  ghost predicate KeysOk<V>(cache: map<string, nat>, entries: map<nat, Entry<V>>) {
    && (forall n :: n in entries ==> entries[n].key in cache && cache[entries[n].key] == n)
    && (forall k :: k in cache ==> cache[k] in entries && entries[cache[k]].key == k)
  }

  ghost function View<V>(entries: map<nat, Entry<V>>, lru: seq<nat>): (c: seq<Entry<V>>)
    requires forall n :: n in lru ==> n in entries
  {
    seq(|lru|, i requires 0 <= i < |lru| => entries[lru[i]])
  }

  lemma AddedNodes<V>(entries: map<nat, Entry<V>>, lru: seq<nat>, next: nat, e: Entry<V>)
    requires NodesOk(entries, lru, next)
    ensures NodesOk(entries[next := e], [next] + lru, next + 1)
    ensures View(entries[next := e], [next] + lru) == [e] + View(entries, lru)
  {
    assert next !in lru;
    assert forall n :: n in [next] + lru <==> n == next || n in lru;
  }

  lemma DroppedNodes<V>(entries: map<nat, Entry<V>>, lru: seq<nat>, next: nat)
    requires NodesOk(entries, lru, next) && lru != []
    ensures var back, rest := lru[|lru| - 1], lru[..|lru| - 1];
            && NodesOk(entries - {back}, rest, next) && View(entries - {back}, rest) == View(entries, lru)[..|rest|]
  {
    var back, rest := lru[|lru| - 1], lru[..|lru| - 1];
    assert lru == rest + [back];
    assert back !in rest;
    assert forall n :: n in lru <==> n == back || n in rest;
  }

  lemma SplicedNodes<V>(entries: map<nat, Entry<V>>, lru: seq<nat>, next: nat, i: nat)
    requires NodesOk(entries, lru, next) && i < |lru|
    ensures var moved := [lru[i]] + Without(lru, lru[i]);
            && moved == ToFront(lru, i) && NodesOk(entries, moved, next)
            && View(entries, moved) == ToFront(View(entries, lru), i)
  {
    Unlinked(lru, i);
    assert [lru[i]] + Without(lru, lru[i]) == ToFront(lru, i);
    FrontOnce(lru, i);
    FrontMembers(lru, i);
    FrontView(entries, lru, i);
  }

  lemma FrontOnce(s: seq<nat>, i: nat)
    requires Distinct(s) && i < |s|
    ensures Distinct(ToFront(s, i))
  {
  }

  lemma FrontMembers(s: seq<nat>, i: nat)
    requires i < |s|
    ensures forall n :: n in ToFront(s, i) <==> n in s
  {
    assert s == s[..i] + ([s[i]] + s[i + 1..]);
  }

  lemma FrontView<V>(entries: map<nat, Entry<V>>, lru: seq<nat>, i: nat)
    requires i < |lru| && (forall n :: n in lru ==> n in entries) && (forall n :: n in ToFront(lru, i) ==> n in entries)
    ensures View(entries, ToFront(lru, i)) == ToFront(View(entries, lru), i)
  {
    var a, b := View(entries, ToFront(lru, i)), ToFront(View(entries, lru), i);
    forall j | 0 <= j < |lru| ensures a[j] == b[j] {
      var k := if j == 0 then i else if j <= i then j - 1 else j;
      assert ToFront(lru, i)[j] == lru[k] && b[j] == View(entries, lru)[k];
    }
  }

  lemma DroppedKeys<V>(cache: map<string, nat>, entries: map<nat, Entry<V>>, node: nat)
    requires KeysOk(cache, entries) && node in entries
    ensures KeysOk(cache - {entries[node].key}, entries - {node})
  {
  }

  /** Where the map points is where the key is in the list. */
  lemma Placed<V>(cache: map<string, nat>, entries: map<nat, Entry<V>>, lru: seq<nat>, next: nat, key: string)
    requires NodesOk(entries, lru, next) && KeysOk(cache, entries)
    ensures Distinct(KeysOf(View(entries, lru)))
    ensures key in cache <==> Cached(View(entries, lru), key)
    ensures key in cache ==> lru[IndexOf(View(entries, lru), key)] == cache[key]
  {
    var c := View(entries, lru);
    forall a, b | 0 <= a < b < |c| ensures c[a].key != c[b].key {
      assert lru[a] != lru[b] && lru[a] in entries && lru[b] in entries;
    }
    if key in cache {
      assert cache[key] in lru;
      var j :| 0 <= j < |lru| && lru[j] == cache[key];
      assert c[j].key == key;
      assert IndexOf(c, key) == j;
    }
    forall j | 0 <= j < |c| ensures c[j].key in cache {
      assert lru[j] in entries;
    }
  }

  class LruCache<V> {
    const cap: nat
    var cache: map<string, nat>         // key -> list node
    var entries: map<nat, Entry<V>>     // list node -> pair
    var lru: seq<nat>                   // the list of nodes, most recent first
    var next: nat                       // a node never used before

    ghost predicate Valid()
      reads this
    {
      0 < cap && |lru| <= cap && NodesOk(entries, lru, next) && KeysOk(cache, entries)
    }

    ghost function Contents(): seq<Entry<V>>
      reads this
      requires Valid()
    {
      View(entries, lru)
    }

    constructor (capacity: nat)
      requires 0 < capacity
      ensures Valid() && Contents() == [] && cap == capacity
    {
      cap := capacity;
      cache, entries, lru, next := map[], map[], [], 0;
    }

    method Get(key: string) returns (found: Option<V>)
      requires Valid()
      modifies `lru
      ensures Valid() && Contents() == Got(old(Contents()), key)
      ensures found == if Cached(old(Contents()), key) then Some(Lookup(old(Contents()), key)) else None
    {
      Placed(cache, entries, lru, next, key);
      if key !in cache {
        return None;
      }
      var node := cache[key];
      found := Some(entries[node].value);
      SplicedNodes(entries, lru, next, IndexOf(Contents(), key));
      lru := [node] + Without(lru, node);
    }

    /** The new entry goes to the front and may push the last one out; a key that is
        there already keeps its value, which is returned. */
    method Put(key: string, value: V) returns (present: Option<V>)
      requires Valid()
      modifies `lru, `cache, `entries, `next
      ensures Valid() && Contents() == WithPut(old(Contents()), cap, key, value)
      ensures present == if Cached(old(Contents()), key) then Some(Lookup(old(Contents()), key)) else None
    {
      Placed(cache, entries, lru, next, key);
      if key !in cache {
        if |lru| == cap {
          Evict();
        }
        Emplace(key, value);
        present := None;
      } else {
        var node := cache[key];
        present := Some(entries[node].value);
        SplicedNodes(entries, lru, next, IndexOf(Contents(), key));
        lru := [node] + Without(lru, node);
      }
    }

    method Evict()
      requires Valid() && |lru| == cap
      modifies `lru, `cache, `entries
      ensures Valid() && Contents() == old(Contents())[..cap - 1] && cache.Keys <= old(cache).Keys
    {
      var back := lru[|lru| - 1];
      DroppedNodes(entries, lru, next);
      DroppedKeys(cache, entries, back);
      cache, entries, lru := cache - {entries[back].key}, entries - {back}, lru[..|lru| - 1];
    }

    method Emplace(key: string, value: V)
      requires Valid() && |lru| < cap && key !in cache
      modifies `lru, `cache, `entries, `next
      ensures Valid() && Contents() == [Entry(key, value)] + old(Contents())
    {
      AddedNodes(entries, lru, next, Entry(key, value));
      cache, entries, lru, next := cache[key := next], entries[next := Entry(key, value)], [next] + lru, next + 1;
    }
  }

  // ------------------------------------------------------------- what is kept

  datatype Op<V> = GetOp(key: string) | PutOp(key: string, value: V)

  function Apply<V>(c: seq<Entry<V>>, cap: nat, op: Op<V>): seq<Entry<V>>
    requires 0 < cap
  {
    match op
    case GetOp(key) => Got(c, key)
    case PutOp(key, value) => WithPut(c, cap, key, value)
  }

  /** The cache after a sequence of calls. */
  function Play<V>(cap: nat, ops: seq<Op<V>>): seq<Entry<V>>
    requires 0 < cap
    decreases |ops|
  {
    if ops == [] then [] else Apply(Play(cap, ops[..|ops| - 1]), cap, ops[|ops| - 1])
  }

  /** The keys that the calls touched: every put, and every get that hits. */
  function Touches<V>(cap: nat, ops: seq<Op<V>>): seq<string>
    requires 0 < cap
    decreases |ops|
  {
    if ops == [] then []
    else
      var before, op := ops[..|ops| - 1], ops[|ops| - 1];
      if op.GetOp? && !Cached(Play(cap, before), op.key) then Touches(cap, before)
      else Touches(cap, before) + [op.key]
  }

  /** The different keys touched after the last touch of `key`. */
  function Since(touches: seq<string>, key: string): set<string>
    decreases |touches|
  {
    if touches == [] then {}
    else
      var last := touches[|touches| - 1];
      if last == key then {} else {last} + Since(touches[..|touches| - 1], key)
  }

  /** All touched keys, the latest first. */
  function Recency(touches: seq<string>): seq<string>
    decreases |touches|
  {
    if touches == [] then []
    else
      var last := touches[|touches| - 1];
      [last] + Without(Recency(touches[..|touches| - 1]), last)
  }

  function KeysOf<V>(c: seq<Entry<V>>): (ks: seq<string>)
    ensures |ks| == |c| && forall i :: 0 <= i < |c| ==> ks[i] == c[i].key
  {
    seq(|c|, i requires 0 <= i < |c| => c[i].key)
  }

  function Prefix<T>(s: seq<T>, n: nat): seq<T> {
    if |s| <= n then s else s[..n]
  }

  function Front(keys: seq<string>, key: string): seq<string> {
    [key] + Without(keys, key)
  }

  lemma SinceMore(init: seq<string>, last: string, key: string)
    ensures Since(init + [last], key) == if last == key then {} else {last} + Since(init, key)
    ensures Recency(init + [last]) == Front(Recency(init), last)
  {
    assert (init + [last])[..|init|] == init;
  }

  /** Taking the last touched key to the front keeps the account of another, which
      stood at place `j`. */
  lemma SinceAt(init: seq<string>, last: string, i: nat, j: nat)
    requires i < |Without(Recency(init), last)| && j < |Recency(init)|
    requires var r, w := Recency(init), Without(Recency(init), last);
             r[j] == w[i] && SetOf(w[..i]) == SetOf(r[..j]) - {last} && SetOf(r[..j]) == Since(init, r[j])
    ensures SetOf(Front(Recency(init), last)[..i + 1]) == Since(init + [last], Without(Recency(init), last)[i])
  {
    var w := Without(Recency(init), last);
    assert Front(Recency(init), last)[..i + 1] == [last] + w[..i];
    SetOfCons(last, w[..i]);
    assert w[i] in w;
    SinceMore(init, last, w[i]);
  }

  /** Where a key is listed, the keys before it are those touched since. */
  lemma {:induction false} BeforeIsSince(touches: seq<string>)
    ensures forall k :: k in Recency(touches) <==> k in touches
    ensures Distinct(Recency(touches))
    ensures forall i :: 0 <= i < |Recency(touches)| ==>
              SetOf(Recency(touches)[..i]) == Since(touches, Recency(touches)[i])
    decreases |touches|
  {
    if touches != [] {
      var init, last := touches[..|touches| - 1], touches[|touches| - 1];
      BeforeIsSince(init);
      assert touches == init + [last];
      FrontDistinct(Recency(init), last);
      SinceMore(init, last, last);
      forall i | 0 <= i < |Recency(touches)|
        ensures SetOf(Recency(touches)[..i]) == Since(touches, Recency(touches)[i])
      {
        if i > 0 {
          var j := WithoutAt(Recency(init), last, i - 1);
          SinceAt(init, last, i - 1, j);
        }
      }
    }
  }

  function SetOf(keys: seq<string>): set<string> {
    set k | k in keys
  }

  lemma SetOfCons(key: string, keys: seq<string>)
    ensures SetOf([key] + keys) == {key} + SetOf(keys)
  {
    assert forall k :: k in [key] + keys <==> k == key || k in keys;
  }

  lemma {:induction false} WithoutOnce(keys: seq<string>, key: string)
    requires Distinct(keys)
    ensures Distinct(Without(keys, key))
  {
    if keys != [] {
      WithoutOnce(keys[1..], key);
      var w := Without(keys[1..], key);
      assert forall j :: 0 <= j < |w| ==> w[j] in keys[1..];
    }
  }

  /** The place of an element before `key` was taken out. */
  lemma {:induction false} WithoutAt(keys: seq<string>, key: string, i: nat) returns (j: nat)
    requires i < |Without(keys, key)|
    ensures j < |keys| && keys[j] == Without(keys, key)[i]
    ensures SetOf(Without(keys, key)[..i]) == SetOf(keys[..j]) - {key}
  {
    var rest, w := Without(keys[1..], key), Without(keys, key);
    if keys[0] != key && i == 0 {
      j := 0;
      assert w[..0] == [] && keys[..0] == [];
    } else {
      var i1 := if keys[0] == key then i else i - 1;
      var k := WithoutAt(keys[1..], key, i1);
      assert keys[..k + 1] == [keys[0]] + keys[1..][..k];
      SetOfCons(keys[0], keys[1..][..k]);
      if keys[0] != key {
        assert w[..i] == [keys[0]] + rest[..i1];
        SetOfCons(keys[0], rest[..i1]);
      } else {
        assert w[..i] == rest[..i1];
      }
      j := k + 1;
    }
  }

  lemma KeysToFront<V>(c: seq<Entry<V>>, i: nat)
    requires i < |c|
    ensures KeysOf(ToFront(c, i)) == ToFront(KeysOf(c), i)
  {
    var a, b := KeysOf(ToFront(c, i)), ToFront(KeysOf(c), i);
    forall j | 0 <= j < |c| ensures a[j] == b[j] {
      var k := if j == 0 then i else if j <= i then j - 1 else j;
      assert ToFront(c, i)[j] == c[k] && b[j] == KeysOf(c)[k];
    }
  }

  lemma FrontIsToFront(ks: seq<string>, i: nat)
    requires Distinct(ks) && i < |ks|
    ensures Front(ks, ks[i]) == ToFront(ks, i)
  {
    Unlinked(ks, i);
    Assoc([ks[i]], ks[..i], ks[i + 1..]);
  }

  lemma HitKeys<V>(c: seq<Entry<V>>, cap: nat, key: string)
    requires Distinct(KeysOf(c)) && |c| <= cap && Cached(c, key)
    ensures KeysOf(Got(c, key)) == Prefix(Front(KeysOf(c), key), cap)
  {
    KeysToFront(c, IndexOf(c, key));
    FrontIsToFront(KeysOf(c), IndexOf(c, key));
  }

  lemma MissKeys<V>(c: seq<Entry<V>>, cap: nat, key: string, value: V)
    requires 0 < cap && |c| <= cap && !Cached(c, key)
    ensures KeysOf(WithPut(c, cap, key, value)) == Prefix(Front(KeysOf(c), key), cap)
  {
    KeyIn(c, key);
    Absent(KeysOf(c), key);
  }

  lemma PrefixCons(key: string, keys: seq<string>, n: nat)
    ensures Prefix([key] + keys, n + 1) == [key] + Prefix(keys, n)
  {
  }

  lemma {:induction false} WithoutPrefix(r: seq<string>, n: nat, key: string)
    requires Distinct(r)
    ensures Prefix(Without(Prefix(r, n + 1), key), n) == Prefix(Without(r, key), n)
    decreases |r|
  {
    if r != [] {
      var x, rest := r[0], r[1..];
      assert r == [x] + rest;
      PrefixCons(x, rest, n);
      var p := Prefix(rest, n);
      assert ([x] + p)[1..] == p;
      if x == key {
        Absent(rest, key);
        Absent(p, key);
      } else if n > 0 {
        WithoutPrefix(rest, n - 1, key);
        PrefixCons(x, Without(p, key), n - 1);
        PrefixCons(x, Without(rest, key), n - 1);
      }
    }
  }

  /** Touching a key of the whole list or of its beginning makes the same beginning. */
  lemma FrontPrefix(r: seq<string>, cap: nat, key: string)
    requires 0 < cap && Distinct(r)
    ensures Prefix(Front(Prefix(r, cap), key), cap) == Prefix(Front(r, key), cap)
  {
    WithoutPrefix(r, cap - 1, key);
    PrefixCons(key, Without(Prefix(r, cap), key), cap - 1);
    PrefixCons(key, Without(r, key), cap - 1);
  }

  ghost predicate KeptOk<V>(c: seq<Entry<V>>, cap: nat, touches: seq<string>) {
    KeysOf(c) == Prefix(Recency(touches), cap) && Distinct(Recency(touches))
  }

  lemma FrontDistinct(r: seq<string>, key: string)
    requires Distinct(r)
    ensures Distinct(Front(r, key))
  {
    var w := Without(r, key);
    WithoutOnce(r, key);
    assert forall j :: 0 <= j < |w| ==> w[j] in w;
  }

  lemma TouchedKeys<V>(c: seq<Entry<V>>, cap: nat, op: Op<V>)
    requires 0 < cap && Distinct(KeysOf(c)) && |c| <= cap && (op.GetOp? ==> Cached(c, op.key))
    ensures KeysOf(Apply(c, cap, op)) == Prefix(Front(KeysOf(c), op.key), cap)
  {
    if Cached(c, op.key) {
      HitKeys(c, cap, op.key);
    } else {
      MissKeys(c, cap, op.key, op.value);
    }
  }

  lemma RecencyMore(touches: seq<string>, key: string)
    ensures Recency(touches + [key]) == Front(Recency(touches), key)
  {
    assert (touches + [key])[..|touches|] == touches;
  }

  lemma KeptStep<V>(c: seq<Entry<V>>, cap: nat, touches: seq<string>, op: Op<V>)
    requires 0 < cap && KeptOk(c, cap, touches)
    ensures KeptOk(Apply(c, cap, op), cap, if op.GetOp? && !Cached(c, op.key) then touches else touches + [op.key])
  {
    if op.PutOp? || Cached(c, op.key) {
      assert Distinct(KeysOf(c)) && |c| <= cap;
      TouchedKeys(c, cap, op);
      FrontPrefix(Recency(touches), cap, op.key);
      FrontDistinct(Recency(touches), op.key);
      RecencyMore(touches, op.key);
    }
  }

  /** The cache holds the most recently touched keys, in that order. */
  lemma {:induction false} KeptAreRecent<V>(cap: nat, ops: seq<Op<V>>)
    requires 0 < cap
    ensures KeysOf(Play(cap, ops)) == Prefix(Recency(Touches(cap, ops)), cap)
    ensures KeptOk(Play(cap, ops), cap, Touches(cap, ops))
    decreases |ops|
  {
    if ops != [] {
      var before, op := ops[..|ops| - 1], ops[|ops| - 1];
      KeptAreRecent(cap, before);
      KeptStep(Play(cap, before), cap, Touches(cap, before), op);
    }
  }

  /** A key is kept exactly when it has been touched, and fewer than `cap` different
      keys have been touched since. */
  lemma KeptIff<V>(cap: nat, ops: seq<Op<V>>, key: string)
    requires 0 < cap
    ensures Cached(Play(cap, ops), key) <==>
            key in Touches(cap, ops) && |Since(Touches(cap, ops), key)| < cap
  {
    var c, t := Play(cap, ops), Touches(cap, ops);
    var r := Recency(t);
    KeptAreRecent(cap, ops);
    BeforeIsSince(t);
    KeyIn(c, key);
    if key in t {
      var i :| 0 <= i < |r| && r[i] == key;
      Size(r[..i]);
      assert key in Prefix(r, cap) <==> i < cap by {
        if i < cap { assert Prefix(r, cap)[i] == key; }
      }
    } else {
      assert key !in r;
      assert forall k :: k in Prefix(r, cap) ==> k in r;
    }
  }

  lemma KeyIn<V>(c: seq<Entry<V>>, key: string)
    ensures Cached(c, key) <==> key in KeysOf(c)
  {
    if Cached(c, key) {
      assert KeysOf(c)[IndexOf(c, key)] == key;
    }
  }

  lemma {:induction false} Size(keys: seq<string>)
    requires Distinct(keys)
    ensures |SetOf(keys)| == |keys|
  {
    if keys != [] {
      Size(keys[1..]);
      assert keys == [keys[0]] + keys[1..];
      SetOfCons(keys[0], keys[1..]);
      assert keys[0] !in SetOf(keys[1..]);
    }
  }

  /** A kept key keeps its value, whatever is put under it; a key comes in with the
      value it is put with. */
  lemma ValueStays<V>(c: seq<Entry<V>>, cap: nat, op: Op<V>, key: string)
    requires 0 < cap && Distinct(KeysOf(c)) && Cached(Apply(c, cap, op), key)
    ensures if Cached(c, key) then Lookup(Apply(c, cap, op), key) == Lookup(c, key)
            else op.PutOp? && op.key == key && Lookup(Apply(c, cap, op), key) == op.value
  {
    var d := Apply(c, cap, op);
    var j := IndexOf(d, key);
    if op.PutOp? && !Cached(c, op.key) {
      if key != op.key {
        assert d[j] == c[j - 1];
        Unique(c, key, j - 1);
      }
    } else if d != c {
      var i := IndexOf(c, op.key);
      var k := if j == 0 then i else if j <= i then j - 1 else j;
      assert d[j] == c[k];
      Unique(c, key, k);
    }
  }

  lemma Unique<V>(c: seq<Entry<V>>, key: string, k: nat)
    requires Distinct(KeysOf(c)) && k < |c| && c[k].key == key
    ensures IndexOf(c, key) == k
  {
    var i := IndexOf(c, key);
    assert i <= k;
    assert KeysOf(c)[i] == KeysOf(c)[k];
  }
}
