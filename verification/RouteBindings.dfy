/** The bindings that a match of the route trie hands out.

    The search writes a parameter before it descends and erases it by name when it
    comes back.  Names belong to nodes, so a name used twice on a path is written
    twice and erased once too often.  The end of this module says exactly which
    tables of routes suffer from it. */
module RouteBindings {
  import opened Collections
  import opened Routes
  import opened PathText
  import opened RoutePaths

  // ------------------------------------------------------------- the bindings

  /** The names given to the parameters and wildcards on the way to `q`. */
  function NamesOn(t: Trie, q: Shape): set<string>
    decreases |q|
  {
    if q == [] then {}
    else NamesOn(t, q[..|q| - 1]) + if q[|q| - 1].Static? || q !in t then {} else {t[q].name}
  }

  /** The name of a node is not used on the way to it. */
  predicate NameIsNew(t: Trie, q: Shape)
    requires q in t
  {
    q != [] && !q[|q| - 1].Static? ==> t[q].name !in NamesOn(t, q[..|q| - 1])
  }

  /** On the way to any node no name is used twice. */
  ghost predicate NamesDistinct(t: Trie) {
    forall q :: q in t ==> NameIsNew(t, q)
  }

  /** No parameter has a name that is used on the way to it. */
  ghost predicate ParamsNew(t: Trie) {
    forall q :: q in t && EndsWith(q, Param) ==> NameIsNew(t, q)
  }

  /** No wildcard has a name that is used on the way to it. */
  ghost predicate WildsNew(t: Trie) {
    forall q :: q in t && EndsWith(q, Wild) ==> NameIsNew(t, q)
  }

  /** No name is used twice on the way to `q`. */
  ghost predicate PathNew(t: Trie, q: Shape) {
    forall k :: 0 < k <= |q| && q[..k] in t ==> NameIsNew(t, q[..k])
  }

  /** The table that pattern `at + rest` should give, starting from `params`. */
  function Bind(t: Trie, at: Shape, rest: Shape, segs: seq<string>, params: Params): Params
    requires Matches(rest, segs)
    decreases |rest|
  {
    if rest == [] then params
    else
      var child := at + [rest[0]];
      var name := if child in t then t[child].name else "";
      match rest[0]
      case Static(_) => Bind(t, child, rest[1..], segs[1..], params)
      case Param => Bind(t, child, rest[1..], segs[1..], params[name := segs[0]])
      case Wild => params[name := Join(segs)]
  }

  /** When the search starts with a table of the names on its path, a failure gives
      the table back, and a success adds exactly the bindings of what was found. */
  ghost predicate ParamsOk(t: Trie, at: Shape, segs: seq<string>, params: Params, r: (Option<Shape>, Params)) {
    match r.0
    case None => r.1 == params
    case Some(q) => FoundOk(t, at, segs, r.0) && r.1 == Bind(t, at, q[|at|..], segs, params)
  }

  lemma {:induction false} DfsParams(t: Trie, at: Shape, segs: seq<string>, params: Params)
    requires Open(t, at) && ParamsNew(t) && params.Keys == NamesOn(t, at)
    ensures ParamsOk(t, at, segs, params, Dfs(t, at, segs, params))
    decreases |segs|, 1
  {
    DfsSound(t, at, segs, params);
    if segs == [] {
      if t[at].isEnd {
        assert at[|at|..] == [];
      } else {
        WildParams(t, at, segs, params);
      }
    } else {
      StaticParams(t, at, segs, params);
      var (found, params1) := TryStatic(t, at, segs, params);
      if found.None? {
        ParamParams(t, at, segs, params1);
        WildParams(t, at, segs, TryParam(t, at, segs, params1).1);
      }
    }
  }

  lemma WildParams(t: Trie, at: Shape, segs: seq<string>, params: Params)
    requires Open(t, at)
    ensures ParamsOk(t, at, segs, params, TryWild(t, at, segs, params))
  {
    var child := at + [Wild];
    WildSound(t, at, segs, params);
    if Registered(t, child) {
      assert child[|at|..] == [Wild];
      assert Bind(t, at, [Wild], segs, params) == params[t[child].name := Join(segs)];
    }
  }

  lemma {:induction false} StaticParams(t: Trie, at: Shape, segs: seq<string>, params: Params)
    requires Open(t, at) && ParamsNew(t) && params.Keys == NamesOn(t, at) && segs != []
    ensures ParamsOk(t, at, segs, params, TryStatic(t, at, segs, params))
    decreases |segs|, 0
  {
    var child := at + [Static(segs[0])];
    StaticSound(t, at, segs, params);
    if child in t {
      assert child[..|child| - 1] == at;
      DfsSound(t, child, segs[1..], params);
      DfsParams(t, child, segs[1..], params);
      Below(t, at, Static(segs[0]), segs, Dfs(t, child, segs[1..], params).0);
    }
  }

  lemma {:induction false} ParamParams(t: Trie, at: Shape, segs: seq<string>, params: Params)
    requires Open(t, at) && ParamsNew(t) && params.Keys == NamesOn(t, at) && segs != []
    ensures ParamsOk(t, at, segs, params, TryParam(t, at, segs, params))
    decreases |segs|, 0
  {
    var child := at + [Param];
    ParamSound(t, at, segs, params);
    if child in t {
      assert child[..|child| - 1] == at;
      var name := t[child].name;
      var params1 := params[name := segs[0]];
      assert EndsWith(child, Param);
      assert NameIsNew(t, child);
      assert params1 - {name} == params;
      DfsSound(t, child, segs[1..], params1);
      DfsParams(t, child, segs[1..], params1);
      Below(t, at, Param, segs, Dfs(t, child, segs[1..], params1).0);
    }
  }

  /** What the edge `q[i]` of a matched pattern must be bound to. */
  ghost predicate BoundAt(t: Trie, q: Shape, i: nat, segs: seq<string>, params: Params)
    requires i < |q|
  {
    q[i].Static? ||
    (q[..i + 1] in t && t[q[..i + 1]].name in params && i <= |segs| && (q[i].Param? ==> i < |segs|)
     && params[t[q[..i + 1]].name] == if q[i].Param? then segs[i] else Join(segs[i..]))
  }

  lemma NamesStep(t: Trie, child: Shape)
    requires child in t && child != [] && NameIsNew(t, child)
    ensures var at, last := child[..|child| - 1], child[|child| - 1];
            && NamesOn(t, child) == NamesOn(t, at) + (if last.Static? then {} else {t[child].name})
            && (!last.Static? ==> t[child].name !in NamesOn(t, at))
  {
  }

  /** One edge of a path inside the trie. */
  lemma PathStep(t: Trie, at: Shape, rest: Shape)
    requires IsTree(t.Keys) && PathNew(t, at + rest) && at + rest in t && rest != []
    ensures var child := at + [rest[0]];
            && child in t && NameIsNew(t, child) && child + rest[1..] == at + rest && (at + rest)[..|at| + 1] == child
            && NamesOn(t, child) == NamesOn(t, at) + (if rest[0].Static? then {} else {t[child].name})
            && (!rest[0].Static? ==> t[child].name !in NamesOn(t, at))
  {
    Edge(at, rest);
    PrefixIn(t.Keys, at + rest, |at| + 1);
    assert NameIsNew(t, (at + rest)[..|at| + 1]);
    NamesStep(t, at + [rest[0]]);
  }

  /** The table after one edge. */
  function BindEdge(t: Trie, child: Shape, segs: seq<string>, params: Params): Params
    requires child in t && child != [] && (child[|child| - 1].Param? ==> segs != [])
  {
    match child[|child| - 1]
    case Static(_) => params
    case Param => params[t[child].name := segs[0]]
    case Wild => params[t[child].name := Join(segs)]
  }

  lemma BindStep(t: Trie, at: Shape, rest: Shape, segs: seq<string>, params: Params)
    requires Matches(rest, segs) && rest != [] && at + [rest[0]] in t
    ensures !rest[0].Wild? ==> segs != []
    ensures var child := at + [rest[0]];
            var params1 := BindEdge(t, child, segs, params);
            if rest[0].Wild? then rest == [Wild] && Bind(t, at, rest, segs, params) == params1
            else
              && Matches(rest[1..], segs[1..])
              && Bind(t, at, rest, segs, params) == Bind(t, child, rest[1..], segs[1..], params1)
  {
    if rest[0].Wild? {
      assert rest == [Wild];
    }
  }

  lemma BindEdgeKeys(t: Trie, child: Shape, segs: seq<string>, params: Params)
    requires child in t && child != [] && NameIsNew(t, child) && (child[|child| - 1].Param? ==> segs != [])
    requires params.Keys == NamesOn(t, child[..|child| - 1])
    ensures var r := BindEdge(t, child, segs, params);
            r.Keys == NamesOn(t, child) && forall n :: n in params ==> n in r && r[n] == params[n]
  {
    NamesStep(t, child);
  }

  lemma {:induction false} BindKeeps(t: Trie, at: Shape, rest: Shape, segs: seq<string>, params: Params)
    requires IsTree(t.Keys) && PathNew(t, at + rest) && at + rest in t
    requires Matches(rest, segs) && params.Keys == NamesOn(t, at)
    ensures var r := Bind(t, at, rest, segs, params);
            r.Keys == NamesOn(t, at + rest) && forall n :: n in params ==> n in r && r[n] == params[n]
    decreases |rest|
  {
    if rest == [] {
      assert at + rest == at;
    } else {
      var child := at + [rest[0]];
      Edge(at, rest);
      PathStep(t, at, rest);
      BindStep(t, at, rest, segs, params);
      BindEdgeKeys(t, child, segs, params);
      if !rest[0].Wild? {
        BindKeeps(t, child, rest[1..], segs[1..], BindEdge(t, child, segs, params));
      }
    }
  }

  lemma BoundHere(t: Trie, at: Shape, rest: Shape, all: seq<string>, params: Params)
    requires rest != [] && at + [rest[0]] in t && |at| <= |all| && Matches(rest, all[|at|..])
    requires !rest[0].Static? ==>
               var name := t[at + [rest[0]]].name;
               name in params && params[name] == if rest[0].Param? then all[|at|..][0] else Join(all[|at|..])
    ensures BoundAt(t, at + rest, |at|, all, params)
  {
    Edge(at, rest);
  }

  lemma BindFirst(t: Trie, at: Shape, rest: Shape, params: Params, all: seq<string>)
    requires IsTree(t.Keys) && PathNew(t, at + rest) && at + rest in t && params.Keys == NamesOn(t, at)
    requires |at| <= |all| && rest != [] && Matches(rest, all[|at|..])
    ensures BoundAt(t, at + rest, |at|, all, Bind(t, at, rest, all[|at|..], params))
  {
    var child, segs := at + [rest[0]], all[|at|..];
    Edge(at, rest);
    PathStep(t, at, rest);
    BindStep(t, at, rest, segs, params);
    BindEdgeKeys(t, child, segs, params);
    if !rest[0].Wild? {
      BindKeeps(t, child, rest[1..], segs[1..], BindEdge(t, child, segs, params));
    }
    BoundHere(t, at, rest, all, Bind(t, at, rest, segs, params));
  }

  lemma {:induction false} BindBinds(t: Trie, at: Shape, rest: Shape, params: Params, i: nat, all: seq<string>)
    requires IsTree(t.Keys) && PathNew(t, at + rest) && at + rest in t && params.Keys == NamesOn(t, at)
    requires |at| <= |all| && |at| <= i < |at| + |rest| && Matches(rest, all[|at|..])
    ensures BoundAt(t, at + rest, i, all, Bind(t, at, rest, all[|at|..], params))
    decreases |rest|
  {
    if i == |at| {
      BindFirst(t, at, rest, params, all);
    } else {
      var child, segs := at + [rest[0]], all[|at|..];
      Edge(at, rest);
      PathStep(t, at, rest);
      BindStep(t, at, rest, segs, params);
      BindEdgeKeys(t, child, segs, params);
      assert all[|child|..] == segs[1..];
      BindBinds(t, child, rest[1..], BindEdge(t, child, segs, params), i, all);
    }
  }

  /** With parameter names that are new on their paths, a failure leaves the table
      empty, and a pattern with no name used twice is bound exactly: the table holds
      its names, each parameter (at any place `i` of the pattern) bound to its segment
      and a wildcard to the rest of the path, however often the search backtracked. */
  lemma FoundBinds(regs: seq<Registration>, segs: seq<string>, i: nat)
    requires ParamsNew(Build(regs))
    ensures var (found, params) := Match(Build(regs), segs);
            if found.None? then params == map[]
            else PathNew(Build(regs), found.value) ==>
              && params.Keys == NamesOn(Build(regs), found.value)
              && (i < |found.value| ==> BoundAt(Build(regs), found.value, i, segs, params))
  {
    var t := Build(regs);
    BuildMeaning(regs, []);
    DfsParams(t, [], segs, map[]);
    var (found, params) := Match(t, segs);
    if found.Some? && PathNew(t, found.value) {
      var q := found.value;
      assert q[0..] == q && [] + q == q && segs[0..] == segs;
      BindKeeps(t, [], q, segs, map[]);
      if i < |q| {
        BindBinds(t, [], q, map[], i, segs);
      }
    }
  }

  /** With no name used twice on the way to any node, every match is bound exactly. */
  lemma MatchBinds(regs: seq<Registration>, segs: seq<string>, i: nat)
    requires NamesDistinct(Build(regs))
    ensures var (found, params) := Match(Build(regs), segs);
            if found.Some? then
              && params.Keys == NamesOn(Build(regs), found.value)
              && (i < |found.value| ==> BoundAt(Build(regs), found.value, i, segs, params))
            else params == map[]
  {
    FoundBinds(regs, segs, i);
  }

  // ------------------------------------------- exactly when bindings are right

  /** The edge at place `i` of the pattern found is bound to what it stands for. */
  ghost predicate Right(regs: seq<Registration>, segs: seq<string>, i: nat) {
    var (found, params) := Match(Build(regs), segs);
    found.Some? && i < |found.value| ==> BoundAt(Build(regs), found.value, i, segs, params)
  }

  /** No request path is bound wrong. */
  ghost predicate AlwaysRight(regs: seq<Registration>) {
    forall path: string, i: nat :: Right(regs, Pieces(path), i)
  }

  /** No parameter name is used twice on a path, nor is a wildcard name, unless parameters
      in the place of that wildcard take all its paths. */
  ghost predicate NamesHarmless(regs: seq<Registration>) {
    var t := Build(regs);
    && ParamsNew(t)
    && forall q :: HasShape(regs, q) && q in t && EndsWith(q, Wild) && !NameIsNew(t, q) ==> Shadowed(regs, q[..|q| - 1])
  }

  // ---- what a trie is made of

  /** Insertion makes only nodes on the way to the pattern inserted. */
  lemma {:induction false} NewOnTheWay(t: Trie, at: Shape, pattern: string, parts: seq<string>, hs: seq<Handler>,
                                       p: Shape)
    requires at in t && p !in t && p in InsertFrom(t, at, pattern, parts, hs)
    ensures |p| <= |at + ShapeOf(parts)| && (at + ShapeOf(parts))[..|p|] == p
    decreases |parts|
  {
    if parts == [] {
      FinishNode(t, at, pattern, hs, p);
    } else {
      var seg := SegOf(parts[0]);
      var child := at + [seg];
      var t1 := WithChild(t, child, parts[0]);
      var pattern1 := pattern + Label(seg, t1[child].name);
      ShapeStep(at, parts);
      if seg.Wild? {
        assert InsertFrom(t, at, pattern, parts, hs) == Finish(t1, child, pattern1, hs);
        FinishNode(t1, child, pattern1, hs, p);
        assert at + ShapeOf(parts) == child && (at + ShapeOf(parts))[..|child|] == child;
      } else {
        assert InsertFrom(t, at, pattern, parts, hs) == InsertFrom(t1, child, pattern1, parts[1..], hs);
        assert at + ShapeOf(parts) == child + ShapeOf(parts[1..]);
        assert (at + ShapeOf(parts))[..|child|] == child;
        if p !in t1 {
          NewOnTheWay(t1, child, pattern1, parts[1..], hs, p);
        }
      }
    }
  }

  /** Every node but the root is on the way to a registered pattern. */
  lemma {:induction false} EndBelow(regs: seq<Registration>, p: Shape) returns (q: Shape)
    requires p in Build(regs) && p != []
    ensures HasShape(regs, q) && |p| <= |q| && q[..|p|] == p
    decreases |regs|
  {
    var n := |regs| - 1;
    var t, r := Build(regs[..n]), regs[n];
    if p in t {
      q := EndBelow(regs[..n], p);
      HasShapeSnoc(regs, q);
    } else {
      q := ShapeOf(r.parts);
      NewOnTheWay(t, [], "", r.parts, r.handles, p);
      assert [] + q == q;
      HasShapeSnoc(regs, q);
    }
  }

  /** A name on the way to a node is the name of a node on that way. */
  lemma {:induction false} NamedOn(t: Trie, q: Shape, name: string) returns (i: nat)
    requires name in NamesOn(t, q)
    ensures i < |q| && !q[i].Static? && q[..i + 1] in t && t[q[..i + 1]].name == name
    decreases |q|
  {
    var n := |q| - 1;
    if name in NamesOn(t, q[..n]) {
      i := NamedOn(t, q[..n], name);
      assert q[..n][..i + 1] == q[..i + 1];
    } else {
      i := n;
      assert q[..n + 1] == q;
    }
  }

  // ---- a parameter name used twice

  /** Two edges with one name cannot both be right when their values differ. */
  lemma OneNameOneValue(regs: seq<Registration>, segs: seq<string>, f: Shape, i: nat, j: nat)
    requires Match(Build(regs), segs).0 == Some(f) && i < |f| && j < |f| && !f[i].Static? && !f[j].Static?
    requires f[..i + 1] in Build(regs) && f[..j + 1] in Build(regs)
    requires Build(regs)[f[..i + 1]].name == Build(regs)[f[..j + 1]].name
    requires i < |segs| && f[i].Param? && j <= |segs| && (f[j].Param? ==> j < |segs|)
    requires segs[i] != if f[j].Param? then segs[j] else Join(segs[j..])
    ensures !Right(regs, segs, i) || !Right(regs, segs, j)
  {
  }

  /** Whenever a parameter name is used twice on the way to a registered pattern, some
      path is bound wrong. */
  lemma ParamClash(regs: seq<Registration>, q: Shape, i: nat, j: nat) returns (path: string)
    requires PlainTable(regs) && HasShape(regs, q) && i < j < |q| && q[i].Param? && q[j].Param?
    requires q[..i + 1] in Build(regs) && q[..j + 1] in Build(regs)
    requires Build(regs)[q[..i + 1]].name == Build(regs)[q[..j + 1]].name
    ensures !Right(regs, Pieces(path), i) || !Right(regs, Pieces(path), j)
  {
    var t := Build(regs);
    var len := LongestIn(t.Keys);
    len := len + 1;
    var segs := PathOf(q, len);
    path := TextOf(regs, q, len);
    ShapeWildLast(regs, q);
    PathMatches(q, len);
    MatchIsBest(regs, segs);
    var f := Match(t, segs).0.value;
    ShapeWildLast(regs, f);
    SameWay(q, f, len, j);
    assert f[..i + 1] == f[..j + 1][..i + 1] == q[..i + 1];
    assert f[i] == f[..i + 1][i] && q[i] == q[..i + 1][i] && f[j] == f[..j + 1][j] && q[j] == q[..j + 1][j];
    PathAt(q, len, i);
    PathAt(q, len, j);
    OneNameOneValue(regs, segs, f, i, j);
  }

  // ---- a wildcard name used twice

  /** A text that no pattern mentions could as well be any other. */
  lemma {:induction false} AnyText(p: Shape, segs: seq<string>, i: nat, x: string)
    requires i < |segs| && Matches(p, segs[i := x]) && forall k :: 0 <= k < |p| ==> p[k] != Static(x)
    ensures Matches(p, segs)
    decreases |p|
  {
    if p != [] && !p[0].Wild? && i > 0 {
      assert segs[i := x][1..] == segs[1..][i - 1 := x];
      assert forall k :: 0 <= k < |p| - 1 ==> p[1..][k] == p[k + 1];
      AnyText(p[1..], segs[1..], i - 1, x);
    }
  }

  /** A parameter matches any text. */
  lemma {:induction false} AnyValue(q: Shape, segs: seq<string>, i: nat, x: string)
    requires WildLast(q) && i < |q| && q[i].Param? && Matches(q, segs)
    ensures i < |segs| && Matches(q, segs[i := x])
    decreases |q|
  {
    if i > 0 {
      assert forall k :: 0 <= k < |q| - 1 ==> q[1..][k] == q[k + 1];
      AnyValue(q[1..], segs[1..], i - 1, x);
      assert segs[i := x][1..] == segs[1..][i - 1 := x];
    }
  }

  /** Another text in place of one segment: still a path. */
  lemma Retext(path: string, i: nat, x: string) returns (path1: string)
    requires i < |Pieces(path)| && Plain(x)
    ensures Pieces(path1) == Pieces(path)[i := x]
  {
    var segs := Pieces(path)[i := x];
    SplitPlain(path, "");
    assert forall s :: s in segs ==> s == x || s in Pieces(path);
    SplitJoin(segs);
    path1 := Join(segs);
  }

  /** Whenever a wildcard wins some path and its name is used before it, some path is
      bound wrong: the one with a fresh text at that place. */
  lemma WildClash(regs: seq<Registration>, q: Shape, i: nat, path: string) returns (path1: string)
    requires HasShape(regs, q) && EndsWith(q, Wild) && i < |q| - 1 && q[i].Param? && Wins(regs, q, Pieces(path))
    requires q in Build(regs) && q[..i + 1] in Build(regs)
    requires Build(regs)[q[..i + 1]].name == Build(regs)[q].name
    ensures !Right(regs, Pieces(path1), i) || !Right(regs, Pieces(path1), |q| - 1)
  {
    var t, segs, n := Build(regs), Pieces(path), |q| - 1;
    var len := LongestIn(t.Keys);
    MatchesLength(q, segs);
    var x := Fresh(len + |Join(segs[n..])| + 1);
    FreshPlain(len + |Join(segs[n..])| + 1);
    ShapeWildLast(regs, q);
    AnyValue(q, segs, i, x);
    path1 := Retext(path, i, x);
    var segs1 := segs[i := x];
    forall p | HasShape(regs, p) && Matches(p, segs1) ensures Preferred(q, p) {
      ShapeWildLast(regs, p);
      assert Shorter(p, len);
      AnyText(p, segs, i, x);
    }
    FoundIffWins(regs, q, segs1);
    assert segs1[n..] == segs[n..] && q[..n + 1] == q;
    OneNameOneValue(regs, segs1, q, i, n);
  }

  // ---- the theorem

  /** A node with a name used before it, and where. */
  lemma ClashAt(t: Trie, q: Shape) returns (i: nat)
    requires IsTree(t.Keys) && q in t && q != [] && !NameIsNew(t, q)
    ensures i < |q| - 1 && q[i].Param? && q[..i + 1] in t && t[q[..i + 1]].name == t[q].name
  {
    var n := |q| - 1;
    i := NamedOn(t, q[..n], t[q].name);
    assert q[..n][..i + 1] == q[..i + 1] && q[..n][i] == q[i];
    PrefixIn(t.Keys, q, i);
  }

  lemma ParamClashIsWrong(regs: seq<Registration>, p: Shape)
    requires PlainTable(regs) && p in Build(regs) && EndsWith(p, Param) && !NameIsNew(Build(regs), p)
    ensures !AlwaysRight(regs)
  {
    BuildMeaning(regs, []);
    var i := ClashAt(Build(regs), p);
    var j := |p| - 1;
    var q := EndBelow(regs, p);
    assert q[..j + 1] == p && q[j] == p[j] && q[i] == p[i] && q[..i + 1] == p[..i + 1];
    var path := ParamClash(regs, q, i, j);
  }

  lemma WildClashIsWrong(regs: seq<Registration>, q: Shape)
    requires HasShape(regs, q) && q in Build(regs) && EndsWith(q, Wild)
    requires !NameIsNew(Build(regs), q) && EverWins(regs, q)
    ensures !AlwaysRight(regs)
  {
    BuildMeaning(regs, []);
    var i := ClashAt(Build(regs), q);
    var path: string :| Wins(regs, q, Pieces(path));
    var path1 := WildClash(regs, q, i, path);
  }

  lemma RightMeansHarmless(regs: seq<Registration>)
    requires PlainTable(regs)
    ensures AlwaysRight(regs) ==> NamesHarmless(regs)
  {
    var t := Build(regs);
    forall p: Shape ensures AlwaysRight(regs) && p in t && EndsWith(p, Param) ==> NameIsNew(t, p) {
      if p in t && EndsWith(p, Param) && !NameIsNew(t, p) {
        ParamClashIsWrong(regs, p);
      }
    }
    forall q | AlwaysRight(regs) && HasShape(regs, q) && q in t && EndsWith(q, Wild) && !NameIsNew(t, q)
      ensures Shadowed(regs, q[..|q| - 1])
    {
      WinsIffUnshadowed(regs, q);
      if EverWins(regs, q) {
        WildClashIsWrong(regs, q);
      }
    }
  }

  lemma HarmlessPath(regs: seq<Registration>, q: Shape)
    requires PlainTable(regs) && NamesHarmless(regs) && HasShape(regs, q) && EverWins(regs, q)
    ensures PathNew(Build(regs), q)
  {
    var t := Build(regs);
    ShapeWildLast(regs, q);
    if EndsWith(q, Wild) {
      WinsIffUnshadowed(regs, q);
    }
    forall k | 0 < k <= |q| && q[..k] in t ensures NameIsNew(t, q[..k]) {
      var p := q[..k];
      assert p[k - 1] == q[k - 1];
      assert k == |q| ==> p == q;
      assert EndsWith(p, Param) || EndsWith(p, Wild) || p[|p| - 1].Static?;
    }
  }

  lemma HarmlessMeansRight(regs: seq<Registration>, path: string, i: nat)
    requires PlainTable(regs) && NamesHarmless(regs)
    ensures Right(regs, Pieces(path), i)
  {
    FoundBinds(regs, Pieces(path), i);
    var found := Match(Build(regs), Pieces(path)).0;
    if found.Some? {
      MatchIsBest(regs, Pieces(path));
      FoundIffWins(regs, found.value, Pieces(path));
      HarmlessPath(regs, found.value);
    }
  }

  /** Whatever the routes: every request path is bound right if and only if names are
      harmless. */
  lemma RightIffHarmless(routes: seq<Route>)
    ensures AlwaysRight(Registrations(routes)) <==> NamesHarmless(Registrations(routes))
  {
    var regs := Registrations(routes);
    RegistrationsPlain(routes);
    RightMeansHarmless(regs);
    if NamesHarmless(regs) {
      forall path: string, i: nat ensures Right(regs, Pieces(path), i) {
        HarmlessMeansRight(regs, path, i);
      }
    }
  }

  /** For tables whose wildcard names are new on their paths: every request path is bound
      right if and only if no name is used twice on the way to any node. */
  lemma RightIffDistinct(routes: seq<Route>)
    requires WildsNew(Build(Registrations(routes)))
    ensures AlwaysRight(Registrations(routes)) <==> NamesDistinct(Build(Registrations(routes)))
  {
    var regs := Registrations(routes);
    RightIffHarmless(routes);
    var t := Build(regs);
    if NamesHarmless(regs) {
      forall q: Shape | q in t ensures NameIsNew(t, q) {
        assert q == [] || EndsWith(q, Param) || EndsWith(q, Wild) || q[|q| - 1].Static?;
      }
    }
  }

  // ------------------------------------------------- names used twice on a path

  /** Two routes: parameter, parameter of the same name, `x`; and parameter,
      wildcard. */
  const Clashing: seq<Registration> :=
    [Registration([":a", ":a", "x"], [1]), Registration([":a", "*r"], [2])]

  /** Insertion of a parameter named `a` for which there is no node yet. */
  lemma InsertParam(t: Trie, at: Shape, pattern: string, rest: seq<string>, hs: seq<Handler>)
    requires at in t && at + [Param] !in t
    ensures InsertFrom(t, at, pattern, [":a"] + rest, hs)
         == InsertFrom(t[at + [Param] := Node("a", false, "", [])], at + [Param], pattern + "/:a", rest, hs)
  {
    assert ([":a"] + rest)[1..] == rest && ":a"[1..] == "a" && Label(Param, "a") == "/:a";
  }

  lemma InsertLast(t: Trie, at: Shape, pattern: string, hs: seq<Handler>)
    requires at in t && at + [Static("x")] !in t
    ensures InsertFrom(t, at, pattern, ["x"], hs)
         == Finish(t[at + [Static("x")] := Node("", false, "", [])], at + [Static("x")], pattern + "/x", hs)
  {
    assert ["x"][1..] == [] && "x" == ['x'] && Label(Static("x"), "") == "/x";
  }

  /** The trie of the first route, node by node. */
  lemma ClashNodes() returns (t: Trie)
    ensures t == InsertFrom(Empty, [], "", [":a", ":a", "x"], [1])
    ensures t.Keys == {[], [Param], [Param, Param], [Param, Param, Static("x")]}
    ensures t[[Param]] == t[[Param, Param]] == Node("a", false, "", []) && !t[[]].isEnd
  {
    var p1: Shape := [Param];
    var p2: Shape := [Param, Param];
    var p3: Shape := [Param, Param, Static("x")];
    assert [] + [Param] == p1 && p1 + [Param] == p2 && p2 + [Static("x")] == p3;
    assert [":a", ":a", "x"] == [":a"] + ([":a"] + ["x"]);
    var t1 := Empty[p1 := Node("a", false, "", [])];
    var t2 := t1[p2 := Node("a", false, "", [])];
    InsertParam(Empty, [], "", [":a"] + ["x"], [1]);
    InsertParam(t1, p1, "" + "/:a", ["x"], [1]);
    InsertLast(t2, p2, "" + "/:a" + "/:a", [1]);
    t := Finish(t2[p3 := Node("", false, "", [])], p3, "" + "/:a" + "/:a" + "/x", [1]);
  }

  lemma ClashFirst() returns (t: Trie)
    ensures t == Build(Clashing[..1])
    ensures t.Keys == {[], [Param], [Param, Param], [Param, Param, Static("x")]}
    ensures t[[Param]] == t[[Param, Param]] == Node("a", false, "", []) && !t[[]].isEnd
  {
    t := ClashNodes();
    var r := Clashing[0];
    assert Clashing[..1] == [r] && [r][..0] == [] && Build([]) == Empty;
  }

  lemma ClashBoth() returns (t: Trie)
    ensures t == Build(Clashing)
    ensures t.Keys == {[], [Param], [Param, Param], [Param, Param, Static("x")], [Param, Wild]}
    ensures t[[Param]] == t[[Param, Param]] == Node("a", false, "", []) && !t[[]].isEnd
    ensures t[[Param, Wild]].name == "r" && t[[Param, Wild]].isEnd
  {
    var u := ClashFirst();
    var p1: Shape := [Param];
    var p2: Shape := [Param, Wild];
    assert [] + [Param] == p1 && p1 + [Wild] == p2;
    assert [":a", "*r"][1..] == ["*r"] && "*r"[1..] == "r";
    var s1 := "" + Label(Param, "a");
    var u2 := u[p2 := Node("r", false, "", [])];
    t := Finish(u2, p2, s1 + Label(Wild, "r"), [2]);
    assert InsertFrom(u, p1, s1, ["*r"], [2]) == t;
    assert InsertFrom(u, [], "", [":a", "*r"], [2]) == t;
  }

  lemma ClashKeys(q: Shape)
    requires q in {[], [Param], [Param, Param], [Param, Param, Static("x")], [Param, Wild]}
    ensures |q| == 1 ==> q[0].Param?
    ensures |q| == 2 ==> !q[1].Static?
    ensures |q| == 3 ==> q[2].Static?
  {
  }

  /** The second segment, below the first parameter: its binding hides the outer one,
      and is erased. */
  lemma ClashInner(t: Trie)
    requires t.Keys == {[], [Param], [Param, Param], [Param, Param, Static("x")], [Param, Wild]}
    requires t[[Param]] == t[[Param, Param]] == Node("a", false, "", [])
    requires t[[Param, Wild]].name == "r" && t[[Param, Wild]].isEnd
    ensures Dfs(t, [Param], ["2"], map["a" := "1"]) == (Some([Param, Wild]), map["r" := "2"])
  {
    var p1: Shape := [Param];
    var p2: Shape := [Param, Param];
    assert ["2"][1..] == [] && p1 + [Param] == p2 && p1 + [Wild] == [Param, Wild];
    forall q: Shape | q in t ensures q != p1 + [Static("2")] && q != p2 + [Wild] {
      ClashKeys(q);
    }
    var m1, m2 := map["a" := "1"], map["a" := "2"];
    assert Dfs(t, p2, [], m2) == (None, m2);
    assert m1["a" := "2"] == m2 && m2 - {"a"} == map[];
    assert TryParam(t, p1, ["2"], m1) == (None, map[]);
    assert Join(["2"]) == "2";
    var none: Params := map[];
    assert none["r" := "2"] == map["r" := "2"];
    assert TryWild(t, p1, ["2"], none) == (Some([Param, Wild]), map["r" := "2"]);
    assert TryStatic(t, p1, ["2"], m1) == (None, m1);
  }

  /** With a name used twice on a path, backtracking erases the outer binding too:
      the path `/1/2` reaches the second route without its parameter `a`. */
  lemma ClashLosesBinding()
    ensures Match(Build(Clashing), ["1", "2"]) == (Some([Param, Wild]), map["r" := "2"])
  {
    var t := ClashBoth();
    ClashInner(t);
    var p0: Shape := [];
    assert ["1", "2"][1..] == ["2"] && p0 + [Param] == [Param];
    forall q: Shape | q in t ensures q != p0 + [Static("1")] {
      ClashKeys(q);
    }
    var none: Params := map[];
    assert none["a" := "1"] == map["a" := "1"];
    assert TryStatic(t, p0, ["1", "2"], none) == (None, none);
  }
}
