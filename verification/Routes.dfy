/** What the route trie of the HTTP server means.

    A trie is the set of its nodes, each named by the sequence of edges that leads
    to it; the three kinds of edge are tried in the order static, parameter,
    wildcard.  Names belong to nodes, so the first pattern that creates a
    parameter or wildcard node names it for all later ones.  What is registered
    and what a path matches is told without the search. */
module Routes {
  import opened Collections

  type Handler = nat

  datatype Seg = Static(text: string) | Param | Wild

  type Shape = seq<Seg>

  datatype Node = Node(name: string, isEnd: bool, pattern: string, handles: seq<Handler>)

  type Trie = map<Shape, Node>

  const Empty: Trie := map[[] := Node("", false, "", [])]

  // --------------------------------------------------------------- patterns

  function SegOf(part: string): Seg {
    if part != "" && part[0] == ':' then Param
    else if part != "" && part[0] == '*' then Wild
    else Static(part)
  }

  function NameOf(part: string): string {
    if SegOf(part).Static? then "" else part[1..]
  }

  /** The edges of a pattern, up to and including its first wildcard. */
  function ShapeOf(parts: seq<string>): Shape {
    if parts == [] then []
    else if SegOf(parts[0]).Wild? then [Wild]
    else [SegOf(parts[0])] + ShapeOf(parts[1..])
  }

  function Label(seg: Seg, name: string): string {
    match seg
    case Static(text) => "/" + text
    case Param => "/:" + name
    case Wild => "/" + "*" + name
  }

  // --------------------------------------------------------------- insertion

  function WithChild(t: Trie, child: Shape, part: string): Trie {
    if child in t then t else t[child := Node(NameOf(part), false, "", [])]
  }

  function Finish(t: Trie, at: Shape, pattern: string, hs: seq<Handler>): Trie
    requires at in t
  {
    var n := t[at];
    t[at := n.(isEnd := true, pattern := if pattern == "" then "/" else pattern, handles := n.handles + hs)]
  }

  function InsertFrom(t: Trie, at: Shape, pattern: string, parts: seq<string>, hs: seq<Handler>): Trie
    requires at in t
    decreases |parts|
  {
    if parts == [] then Finish(t, at, pattern, hs)
    else
      var seg := SegOf(parts[0]);
      var child := at + [seg];
      var t1 := WithChild(t, child, parts[0]);
      var pattern1 := pattern + Label(seg, t1[child].name);
      if seg.Wild? then Finish(t1, child, pattern1, hs)
      else InsertFrom(t1, child, pattern1, parts[1..], hs)
  }

  function Insert(t: Trie, parts: seq<string>, hs: seq<Handler>): Trie
    requires [] in t
  {
    InsertFrom(t, [], "", parts, hs)
  }

  // ---------------------------------------------------------------- matching

  function Join(segs: seq<string>): string {
    if segs == [] then ""
    else if |segs| == 1 then segs[0]
    else segs[0] + "/" + Join(segs[1..])
  }

  type Params = map<string, string>

  /** Depth-first search from node `at`; `params` is the table that the search
      fills and, when it backtracks, erases from. */
  function Dfs(t: Trie, at: Shape, segs: seq<string>, params: Params): (r: (Option<Shape>, Params))
    requires at in t
    ensures r.0.Some? ==> r.0.value in t
    decreases |segs|
  {
    if segs == [] then
      if t[at].isEnd then (Some(at), params) else TryWild(t, at, segs, params)
    else
      var (found, params1) := TryStatic(t, at, segs, params);
      if found.Some? then (found, params1)
      else
        var (found, params2) := TryParam(t, at, segs, params1);
        if found.Some? then (found, params2) else TryWild(t, at, segs, params2)
  }

  function TryStatic(t: Trie, at: Shape, segs: seq<string>, params: Params): (r: (Option<Shape>, Params))
    requires segs != []
    ensures r.0.Some? ==> r.0.value in t
    decreases |segs|, 0
  {
    var child := at + [Static(segs[0])];
    if child in t then Dfs(t, child, segs[1..], params) else (None, params)
  }

  function TryParam(t: Trie, at: Shape, segs: seq<string>, params: Params): (r: (Option<Shape>, Params))
    requires segs != []
    ensures r.0.Some? ==> r.0.value in t
    decreases |segs|, 0
  {
    var child := at + [Param];
    if child in t then
      var (found, params1) := Dfs(t, child, segs[1..], params[t[child].name := segs[0]]);
      if found.Some? then (found, params1) else (None, params1 - {t[child].name})
    else (None, params)
  }

  function TryWild(t: Trie, at: Shape, segs: seq<string>, params: Params): (r: (Option<Shape>, Params))
    ensures r.0.Some? ==> r.0.value in t
  {
    var child := at + [Wild];
    if child in t && t[child].isEnd then (Some(child), params[t[child].name := Join(segs)]) else (None, params)
  }

  // ------------------------------------------------------ the declarative spec

  ghost predicate Registered(t: Trie, q: Shape) {
    q in t && t[q].isEnd
  }

  predicate Matches(q: Shape, segs: seq<string>) {
    if q == [] then segs == []
    else match q[0]
      case Wild => |q| == 1
      case Param => segs != [] && Matches(q[1..], segs[1..])
      case Static(text) => segs != [] && segs[0] == text && Matches(q[1..], segs[1..])
  }

  function Rank(s: Seg): nat {
    match s
    case Static(_) => 0
    case Param => 1
    case Wild => 2
  }

  /** `p` comes no later than `q` in the order of preference: at the first edge
      where they differ `p` has the better kind, and an end beats a wildcard. */
  predicate Preferred(p: Shape, q: Shape) {
    if p == [] then true
    else if q == [] then false
    else if p[0] == q[0] then Preferred(p[1..], q[1..])
    else Rank(p[0]) < Rank(q[0])
  }

  ghost predicate Hangs(keys: set<Shape>, q: Shape) {
    q != [] ==> q[..|q| - 1] in keys && (|q| >= 2 ==> !q[|q| - 2].Wild?)
  }

  /** Every node but the root hangs on another, and nothing hangs on a wildcard. */
  ghost predicate IsTree(keys: set<Shape>) {
    [] in keys && forall q :: q in keys ==> Hangs(keys, q)
  }

  lemma {:induction false} PrefixIn(keys: set<Shape>, q: Shape, k: nat)
    requires IsTree(keys) && q in keys && k <= |q|
    ensures q[..k] in keys && (k + 1 < |q| ==> !q[k].Wild?)
    decreases |q| - k
  {
    if k == |q| {
      assert q[..k] == q;
    } else {
      PrefixIn(keys, q, k + 1);
      assert Hangs(keys, q[..k + 1]);
      assert q[..k + 1][..k] == q[..k];
      if k + 1 < |q| {
        PrefixIn(keys, q, k + 2);
        assert Hangs(keys, q[..k + 2]);
      }
    }
  }

  // -------------------------------------------------- what insertion registers

  lemma AddChild(t: Trie, at: Shape, part: string)
    requires IsTree(t.Keys) && at in t && (at != [] ==> !at[|at| - 1].Wild?)
    ensures var child, u := at + [SegOf(part)], WithChild(t, at + [SegOf(part)], part);
            IsTree(u.Keys) && t.Keys <= u.Keys && child in u
  {
    var child, u := at + [SegOf(part)], WithChild(t, at + [SegOf(part)], part);
    assert child[..|child| - 1] == at;
    forall q | q in u ensures Hangs(u.Keys, q) {
      assert q != child ==> Hangs(t.Keys, q);
    }
  }

  lemma FinishTree(t: Trie, at: Shape, pattern: string, hs: seq<Handler>)
    requires IsTree(t.Keys) && at in t
    ensures Finish(t, at, pattern, hs).Keys == t.Keys && IsTree(Finish(t, at, pattern, hs).Keys)
  {
    assert Finish(t, at, pattern, hs).Keys == t.Keys;
  }

  lemma ShapeStep(at: Shape, parts: seq<string>)
    requires parts != []
    ensures at + ShapeOf(parts) ==
            if SegOf(parts[0]).Wild? then at + [Wild] else at + [SegOf(parts[0])] + ShapeOf(parts[1..])
  {
  }

  /** Insertion keeps the tree a tree and reaches the node its pattern names. */
  lemma {:induction false} InsertFromTree(t: Trie, at: Shape, pattern: string, parts: seq<string>, hs: seq<Handler>)
    requires IsTree(t.Keys) && at in t && (at != [] ==> !at[|at| - 1].Wild?)
    ensures var u := InsertFrom(t, at, pattern, parts, hs);
            IsTree(u.Keys) && t.Keys <= u.Keys && at + ShapeOf(parts) in u
    decreases |parts|
  {
    if parts == [] {
      assert at + ShapeOf(parts) == at;
      FinishTree(t, at, pattern, hs);
    } else {
      var seg := SegOf(parts[0]);
      var child := at + [seg];
      var t1 := WithChild(t, child, parts[0]);
      var pattern1 := pattern + Label(seg, t1[child].name);
      AddChild(t, at, parts[0]);
      ShapeStep(at, parts);
      if seg.Wild? {
        FinishTree(t1, child, pattern1, hs);
      } else {
        InsertFromTree(t1, child, pattern1, parts[1..], hs);
      }
    }
  }

  lemma FinishNode(t: Trie, at: Shape, pattern: string, hs: seq<Handler>, p: Shape)
    requires at in t
    ensures var u := Finish(t, at, pattern, hs);
            && (p in u <==> p in t)
            && (p in t ==> u[p].name == t[p].name && (p != at ==> u[p] == t[p]))
            && u[at].isEnd && u[at].handles == t[at].handles + hs
  {
  }

  /** What happens to one node `p`: it keeps its name for good, and only the node
      that the pattern names becomes an end and gains handlers. */
  lemma {:induction false} InsertFromNode(t: Trie, at: Shape, pattern: string, parts: seq<string>, hs: seq<Handler>,
                                          p: Shape)
    requires at in t
    ensures var u, q := InsertFrom(t, at, pattern, parts, hs), at + ShapeOf(parts);
            && (p in t ==> p in u && u[p].name == t[p].name)
            && (p != q && p in t ==> u[p] == t[p])
            && (p != q && p in u && p !in t ==> !u[p].isEnd && u[p].handles == [])
            && (p == q ==> p in u && u[p].isEnd && u[p].handles == (if p in t then t[p].handles else []) + hs)
    decreases |parts|
  {
    if parts == [] {
      assert at + ShapeOf(parts) == at;
    } else {
      var seg := SegOf(parts[0]);
      var child := at + [seg];
      var t1 := WithChild(t, child, parts[0]);
      var pattern1 := pattern + Label(seg, t1[child].name);
      ShapeStep(at, parts);
      if seg.Wild? {
        FinishNode(t1, child, pattern1, hs, p);
      } else {
        InsertFromNode(t1, child, pattern1, parts[1..], hs, p);
      }
    }
  }

  // ------------------------------------------------- after any registrations

  datatype Registration = Registration(parts: seq<string>, handles: seq<Handler>)

  function Build(regs: seq<Registration>): (t: Trie)
    ensures [] in t
    decreases |regs|
  {
    if regs == [] then Empty
    else
      var r := regs[|regs| - 1];
      var t := Build(regs[..|regs| - 1]);
      InsertFromNode(t, [], "", r.parts, r.handles, []);
      Insert(t, r.parts, r.handles)
  }

  /** All handlers registered under patterns of shape `q`, in order. */
  function HandlersFor(regs: seq<Registration>, q: Shape): seq<Handler>
    decreases |regs|
  {
    if regs == [] then []
    else
      var r := regs[|regs| - 1];
      HandlersFor(regs[..|regs| - 1], q) + if ShapeOf(r.parts) == q then r.handles else []
  }

  ghost predicate HasShape(regs: seq<Registration>, q: Shape) {
    exists i :: 0 <= i < |regs| && ShapeOf(regs[i].parts) == q
  }

  lemma HasShapeSnoc(regs: seq<Registration>, q: Shape)
    requires regs != []
    ensures HasShape(regs, q) <==> HasShape(regs[..|regs| - 1], q) || ShapeOf(regs[|regs| - 1].parts) == q
  {
    var n := |regs| - 1;
    if HasShape(regs[..n], q) {
      var i :| 0 <= i < n && ShapeOf(regs[..n][i].parts) == q;
      assert ShapeOf(regs[i].parts) == q;
    }
    if HasShape(regs, q) && ShapeOf(regs[n].parts) != q {
      var i :| 0 <= i < |regs| && ShapeOf(regs[i].parts) == q;
      assert ShapeOf(regs[..n][i].parts) == q;
    }
  }

  /** The trie holds exactly the registered shapes, each with its handlers. */
  lemma {:induction false} BuildMeaning(regs: seq<Registration>, q: Shape)
    ensures IsTree(Build(regs).Keys)
    ensures Registered(Build(regs), q) <==> HasShape(regs, q)
    ensures q in Build(regs) ==> Build(regs)[q].handles == HandlersFor(regs, q)
    ensures q !in Build(regs) ==> HandlersFor(regs, q) == []
    decreases |regs|
  {
    if regs != [] {
      var n := |regs| - 1;
      var r := regs[n];
      BuildMeaning(regs[..n], q);
      HasShapeSnoc(regs, q);
      InsertMeaning(Build(regs[..n]), r.parts, r.handles, q);
    }
  }

  /** One registration: exactly one shape becomes registered, and only it gains
      handlers. */
  lemma InsertMeaning(t: Trie, parts: seq<string>, hs: seq<Handler>, q: Shape)
    requires IsTree(t.Keys)
    ensures var u := Insert(t, parts, hs);
            && IsTree(u.Keys)
            && (Registered(u, q) <==> Registered(t, q) || q == ShapeOf(parts))
            && (q in u ==>
                  u[q].handles == (if q in t then t[q].handles else []) + if q == ShapeOf(parts) then hs else [])
            && (q !in u ==> q !in t && q != ShapeOf(parts))
            && (q in t ==> u[q].name == t[q].name)
  {
    InsertFromTree(t, [], "", parts, hs);
    InsertFromNode(t, [], "", parts, hs, q);
    assert [] + ShapeOf(parts) == ShapeOf(parts);
  }

  // ------------------------------------------------------ the search is right

  /** `rest` leads from `at` to a registered pattern that matches. */
  ghost predicate Candidate(t: Trie, at: Shape, rest: Shape, segs: seq<string>) {
    Registered(t, at + rest) && Matches(rest, segs)
  }

  ghost predicate Open(t: Trie, at: Shape) {
    IsTree(t.Keys) && at in t && (at != [] ==> !at[|at| - 1].Wild?)
  }

  /** What the search finds lies below `at`, is registered and matches. */
  ghost predicate FoundOk(t: Trie, at: Shape, segs: seq<string>, found: Option<Shape>) {
    found.Some? ==>
      && |at| <= |found.value| && found.value[..|at|] == at
      && Candidate(t, at, found.value[|at|..], segs)
  }

  lemma Below(t: Trie, at: Shape, seg: Seg, segs: seq<string>, found: Option<Shape>)
    requires segs != [] && !seg.Wild? && (seg.Static? ==> seg.text == segs[0])
    requires FoundOk(t, at + [seg], segs[1..], found)
    ensures FoundOk(t, at, segs, found)
    ensures found.Some? ==> found.value[|at|..] == [seg] + found.value[|at| + 1..]
  {
    if found.Some? {
      var q := found.value;
      assert (at + [seg])[..|at|] == at;
      assert q[..|at| + 1][..|at|] == q[..|at|];
      assert q[|at|] == q[..|at| + 1][|at|];
      assert at + q[|at|..] == q && at + [seg] + q[|at| + 1..] == q;
      assert q[|at|..][1..] == q[|at| + 1..];
    }
  }

  lemma {:induction false} DfsSound(t: Trie, at: Shape, segs: seq<string>, params: Params)
    requires Open(t, at)
    ensures FoundOk(t, at, segs, Dfs(t, at, segs, params).0)
    decreases |segs|, 1
  {
    if segs == [] {
      if t[at].isEnd {
        assert at[..|at|] == at && at[|at|..] == [] && at + [] == at;
      } else {
        WildSound(t, at, segs, params);
      }
    } else {
      StaticSound(t, at, segs, params);
      var (found, params1) := TryStatic(t, at, segs, params);
      if found.None? {
        ParamSound(t, at, segs, params1);
        WildSound(t, at, segs, TryParam(t, at, segs, params1).1);
      }
    }
  }

  lemma WildSound(t: Trie, at: Shape, segs: seq<string>, params: Params)
    requires Open(t, at)
    ensures FoundOk(t, at, segs, TryWild(t, at, segs, params).0)
  {
    assert (at + [Wild])[..|at|] == at && (at + [Wild])[|at|..] == [Wild];
  }

  lemma {:induction false} StaticSound(t: Trie, at: Shape, segs: seq<string>, params: Params)
    requires Open(t, at) && segs != []
    ensures FoundOk(t, at, segs, TryStatic(t, at, segs, params).0)
    decreases |segs|, 0
  {
    var child := at + [Static(segs[0])];
    if child in t {
      DfsSound(t, child, segs[1..], params);
      Below(t, at, Static(segs[0]), segs, Dfs(t, child, segs[1..], params).0);
    }
  }

  lemma {:induction false} ParamSound(t: Trie, at: Shape, segs: seq<string>, params: Params)
    requires Open(t, at) && segs != []
    ensures FoundOk(t, at, segs, TryParam(t, at, segs, params).0)
    decreases |segs|, 0
  {
    var child := at + [Param];
    if child in t {
      var params1 := params[t[child].name := segs[0]];
      DfsSound(t, child, segs[1..], params1);
      Below(t, at, Param, segs, Dfs(t, child, segs[1..], params1).0);
    }
  }

  lemma Edge(at: Shape, rest: Shape)
    requires rest != []
    ensures var child := at + [rest[0]];
            && child + rest[1..] == at + rest && (at + rest)[..|at| + 1] == child && (at + rest)[|at|] == rest[0]
            && child != [] && child[..|child| - 1] == at && child[|child| - 1] == rest[0]
  {
  }

  /** The first step of a candidate: it stays inside the trie. */
  lemma FirstStep(t: Trie, at: Shape, rest: Shape, segs: seq<string>)
    requires Open(t, at) && Candidate(t, at, rest, segs) && rest != []
    ensures at + [rest[0]] in t
    ensures !rest[0].Wild? ==>
              && segs != [] && Open(t, at + [rest[0]])
              && Candidate(t, at + [rest[0]], rest[1..], segs[1..])
    ensures rest[0].Wild? ==> rest == [Wild]
  {
    Edge(at, rest);
    PrefixIn(t.Keys, at + rest, |at| + 1);
    if rest[0].Wild? {
      assert rest == [rest[0]];
    }
  }

  lemma WildBest(t: Trie, at: Shape, segs: seq<string>, params: Params)
    requires Registered(t, at + [Wild])
    ensures TryWild(t, at, segs, params).0 == Some(at + [Wild]) && (at + [Wild])[|at|..] == [Wild]
  {
  }

  /** Nothing that matches is missed, and nothing preferable is passed over. */
  lemma {:induction false} DfsBest(t: Trie, at: Shape, segs: seq<string>, params: Params, rest: Shape)
    requires Open(t, at) && Candidate(t, at, rest, segs)
    ensures var found := Dfs(t, at, segs, params).0;
            found.Some? && |at| <= |found.value| && Preferred(found.value[|at|..], rest)
    decreases |segs|, 1
  {
    if segs == [] {
      if t[at].isEnd {
        assert at[|at|..] == [];
      } else {
        assert at + [] == at;
        FirstStep(t, at, rest, segs);
        WildBest(t, at, segs, params);
      }
    } else {
      FirstStep(t, at, rest, segs);
      var (found, params1) := TryStatic(t, at, segs, params);
      StaticBest(t, at, segs, params, rest);
      if found.None? {
        ParamBest(t, at, segs, params1, rest);
        var (found, params2) := TryParam(t, at, segs, params1);
        if found.None? {
          WildBest(t, at, segs, params2);
        }
      }
    }
  }

  lemma {:induction false} StaticBest(t: Trie, at: Shape, segs: seq<string>, params: Params, rest: Shape)
    requires Open(t, at) && Candidate(t, at, rest, segs) && segs != [] && rest != []
    ensures var found := TryStatic(t, at, segs, params).0;
            if found.Some? then |at| <= |found.value| && Preferred(found.value[|at|..], rest) else !rest[0].Static?
    decreases |segs|, 0
  {
    var child := at + [Static(segs[0])];
    FirstStep(t, at, rest, segs);
    if rest[0].Static? {
      DfsBest(t, child, segs[1..], params, rest[1..]);
    }
    if child in t {
      DfsSound(t, child, segs[1..], params);
      Below(t, at, Static(segs[0]), segs, Dfs(t, child, segs[1..], params).0);
    }
  }

  lemma {:induction false} ParamBest(t: Trie, at: Shape, segs: seq<string>, params: Params, rest: Shape)
    requires Open(t, at) && Candidate(t, at, rest, segs) && segs != [] && rest != [] && !rest[0].Static?
    ensures var found := TryParam(t, at, segs, params).0;
            if found.Some? then |at| <= |found.value| && Preferred(found.value[|at|..], rest) else rest[0].Wild?
    decreases |segs|, 0
  {
    var child := at + [Param];
    FirstStep(t, at, rest, segs);
    if child in t {
      var params1 := params[t[child].name := segs[0]];
      if rest[0].Param? {
        DfsBest(t, child, segs[1..], params1, rest[1..]);
      }
      DfsSound(t, child, segs[1..], params1);
      Below(t, at, Param, segs, Dfs(t, child, segs[1..], params1).0);
    }
  }

  // --------------------------------------------------------------- the theorem

  /** `match` on the segments of a path. */
  function Match(t: Trie, segs: seq<string>): (Option<Shape>, Params)
    requires [] in t
  {
    Dfs(t, [], segs, map[])
  }

  /** After any registrations, a path is matched iff some registered pattern
      matches it, and by the most preferred one, static before parameter before
      wildcard, and an exact end before an empty wildcard. */
  lemma MatchIsBest(regs: seq<Registration>, segs: seq<string>)
    ensures var found := Match(Build(regs), segs).0;
            && (found.Some? <==> exists q :: HasShape(regs, q) && Matches(q, segs))
            && (found.Some? ==> HasShape(regs, found.value) && Matches(found.value, segs))
            && (found.Some? ==> forall q :: HasShape(regs, q) && Matches(q, segs) ==> Preferred(found.value, q))
  {
    var t := Build(regs);
    BuildMeaning(regs, []);
    DfsSound(t, [], segs, map[]);
    var found := Match(t, segs).0;
    if found.Some? {
      assert found.value[0..] == found.value;
      assert [] + found.value == found.value;
      BuildMeaning(regs, found.value);
    }
    forall q | HasShape(regs, q) && Matches(q, segs)
      ensures found.Some? && Preferred(found.value, q)
    {
      BuildMeaning(regs, q);
      assert [] + q == q;
      DfsBest(t, [], segs, map[], q);
    }
  }

  // ------------------------------------------------------- the pattern string

  /** The canonical pattern of a node: the names are those of the nodes. */
  function Render(t: Trie, q: Shape): string
    decreases |q|
  {
    if q == [] then ""
    else
      var last := q[|q| - 1];
      Render(t, q[..|q| - 1]) + Label(last, if q in t then t[q].name else "")
  }

  lemma {:induction false} RenderStable(t: Trie, u: Trie, q: Shape)
    requires IsTree(t.Keys) && q in t && forall p :: p in t ==> p in u && u[p].name == t[p].name
    ensures Render(u, q) == Render(t, q)
    decreases |q|
  {
    if q != [] {
      PrefixIn(t.Keys, q, |q| - 1);
      RenderStable(t, u, q[..|q| - 1]);
    }
  }

  function Canonical(t: Trie, q: Shape): string {
    if Render(t, q) == "" then "/" else Render(t, q)
  }

  lemma {:induction false} InsertFromPattern(t: Trie, at: Shape, parts: seq<string>, hs: seq<Handler>)
    requires Open(t, at)
    ensures var u, q := InsertFrom(t, at, Render(t, at), parts, hs), at + ShapeOf(parts);
            q in u && u[q].pattern == Canonical(u, q)
    decreases |parts|
  {
    var u := InsertFrom(t, at, Render(t, at), parts, hs);
    if parts == [] {
      assert at + ShapeOf(parts) == at;
      RenderStable(t, u, at);
    } else {
      var seg := SegOf(parts[0]);
      var child := at + [seg];
      var t1 := WithChild(t, child, parts[0]);
      AddChild(t, at, parts[0]);
      ShapeStep(at, parts);
      RenderStable(t, t1, at);
      RenderChild(t1, at, seg);
      assert u == if seg.Wild? then Finish(t1, child, Render(t1, child), hs)
                  else InsertFrom(t1, child, Render(t1, child), parts[1..], hs);
      if seg.Wild? {
        RenderStable(t1, u, child);
      } else {
        InsertFromPattern(t1, child, parts[1..], hs);
      }
    }
  }

  lemma RenderChild(t: Trie, at: Shape, seg: Seg)
    requires at + [seg] in t
    ensures Render(t, at + [seg]) == Render(t, at) + Label(seg, t[at + [seg]].name)
  {
    assert (at + [seg])[..|at|] == at;
  }

  lemma InsertKeepsNames(t: Trie, parts: seq<string>, hs: seq<Handler>)
    requires [] in t
    ensures forall p :: p in t ==> p in Insert(t, parts, hs) && Insert(t, parts, hs)[p].name == t[p].name
  {
    forall p | p in t ensures p in Insert(t, parts, hs) && Insert(t, parts, hs)[p].name == t[p].name {
      InsertFromNode(t, [], "", parts, hs, p);
    }
  }

  /** The pattern reported for a route is its canonical one: every later insertion
      leaves the names on its path, and so the pattern, alone. */
  lemma {:induction false} BuildPattern(regs: seq<Registration>, q: Shape)
    requires Registered(Build(regs), q)
    ensures Build(regs)[q].pattern == Canonical(Build(regs), q)
    decreases |regs|
  {
    var n := |regs| - 1;
    var r := regs[n];
    var t := Build(regs[..n]);
    BuildMeaning(regs[..n], q);
    if ShapeOf(r.parts) == q {
      InsertFromPattern(t, [], r.parts, r.handles);
      assert [] + q == q;
    } else {
      InsertMeaning(t, r.parts, r.handles, q);
      BuildPattern(regs[..n], q);
      InsertFromNode(t, [], "", r.parts, r.handles, q);
      assert [] + ShapeOf(r.parts) == ShapeOf(r.parts);
      InsertKeepsNames(t, r.parts, r.handles);
      RenderStable(t, Build(regs), q);
    }
  }
}
