/** The route trie as the server keeps it: nodes that point to their children,
    grown in a loop, and a search that writes and erases one table of parameters in
    place.

    Nodes live in an arena; a pointer is an index into it.  A ghost says which trie of
    module Routes the arena stands for. */
module RouteTree {
  import opened Collections
  import opened PathText
  import opened RouteBindings
  import opened RoutePaths
  import opened Routes

  datatype TreeNode = TreeNode(
    children: map<string, nat>,
    paramChild: Option<nat>,
    wildChild: Option<nat>,
    node: Node)

  function Child(n: TreeNode, seg: Seg): Option<nat> {
    match seg
    case Static(text) => if text in n.children then Some(n.children[text]) else None
    case Param => n.paramChild
    case Wild => n.wildChild
  }

  function Linked(n: TreeNode, seg: Seg, c: nat): TreeNode {
    match seg
    case Static(text) => n.(children := n.children[text := c])
    case Param => n.(paramChild := Some(c))
    case Wild => n.(wildChild := Some(c))
  }

  /** How an arena stands for a trie: `paths` are the edges that lead to each node,
      `index` finds the node again. */
  datatype Ghost = Ghost(trie: Trie, paths: seq<Shape>, index: map<Shape, nat>)

  ghost predicate PathsOk(nodes: seq<TreeNode>, g: Ghost) {
    && |g.paths| == |nodes| && g.index.Keys == g.trie.Keys
    && (forall q :: q in g.index ==> g.index[q] < |nodes| && g.paths[g.index[q]] == q)
    && (forall k :: 0 <= k < |nodes| ==> g.paths[k] in g.index && g.index[g.paths[k]] == k)
  }

  /** The pointer that an edge from node `k` should be. */
  function PointerTo(g: Ghost, q: Shape): Option<nat> {
    if q in g.index then Some(g.index[q]) else None
  }

  ghost predicate NodeOk(n: TreeNode, g: Ghost, q: Shape) {
    && q in g.trie && g.trie[q] == n.node
    && forall seg :: Child(n, seg) == PointerTo(g, q + [seg])
  }

  ghost predicate SlotOk(nodes: seq<TreeNode>, g: Ghost, k: nat)
    requires k < |nodes| && k < |g.paths|
  {
    NodeOk(nodes[k], g, g.paths[k])
  }

  ghost predicate Stands(nodes: seq<TreeNode>, g: Ghost) {
    && IsTree(g.trie.Keys) && PathsOk(nodes, g) && 0 < |nodes| && g.paths[0] == []
    && forall k :: 0 <= k < |nodes| ==> SlotOk(nodes, g, k)
  }

  const Leaf := TreeNode(map[], None, None, Node("", false, "", []))

  /** The ghost after a new node hangs on `at`. */
  function Grown(g: Ghost, at: Shape, part: string, c: nat): Ghost {
    var q := at + [SegOf(part)];
    Ghost(WithChild(g.trie, q, part), g.paths + [q], g.index[q := c])
  }

  lemma LastEdge(a: Shape, s: Seg, b: Shape, r: Seg)
    ensures a + [s] == b + [r] <==> a == b && s == r
  {
    if a + [s] == b + [r] {
      assert (a + [s])[..|a|] == a && (b + [r])[..|b|] == b && (a + [s])[|a|] == s;
    }
  }

  /** Nothing hangs on a path that is not there. */
  lemma NothingBelow(keys: set<Shape>, q: Shape, s: Seg)
    requires IsTree(keys) && q !in keys
    ensures q + [s] !in keys
  {
    var c := q + [s];
    assert c[..|c| - 1] == q;
    assert c in keys ==> Hangs(keys, c);
  }

  /** The new node has no children. */
  lemma NewNodeOk(g: Ghost, at: Shape, part: string, c: nat)
    requires IsTree(g.trie.Keys) && g.index.Keys == g.trie.Keys && at + [SegOf(part)] !in g.trie
    ensures NodeOk(Leaf.(node := Node(NameOf(part), false, "", [])), Grown(g, at, part, c), at + [SegOf(part)])
  {
    var q := at + [SegOf(part)];
    forall s ensures q + [s] !in g.index {
      NothingBelow(g.trie.Keys, q, s);
    }
  }

  /** The node it hangs on gains one pointer. */
  lemma ParentOk(n: TreeNode, g: Ghost, at: Shape, part: string, c: nat)
    requires NodeOk(n, g, at) && at + [SegOf(part)] !in g.trie && g.index.Keys == g.trie.Keys
    ensures NodeOk(Linked(n, SegOf(part), c), Grown(g, at, part, c), at)
  {
    var seg, h, m := SegOf(part), Grown(g, at, part, c), Linked(n, SegOf(part), c);
    forall s ensures Child(m, s) == PointerTo(h, at + [s]) {
      LastEdge(at, s, at, seg);
      assert Child(n, s) == PointerTo(g, at + [s]);
    }
    assert at != at + [seg];
  }

  /** Every other node keeps its pointers. */
  lemma OtherOk(n: TreeNode, g: Ghost, p: Shape, at: Shape, part: string, c: nat)
    requires NodeOk(n, g, p) && p != at && at + [SegOf(part)] !in g.trie && g.index.Keys == g.trie.Keys
    ensures NodeOk(n, Grown(g, at, part, c), p)
  {
    var h := Grown(g, at, part, c);
    forall s ensures Child(n, s) == PointerTo(h, p + [s]) {
      LastEdge(p, s, at, SegOf(part));
      assert Child(n, s) == PointerTo(g, p + [s]);
    }
  }

  /** The arena after a new child of node `cur`. */
  function GrownNodes(nodes: seq<TreeNode>, cur: nat, part: string): seq<TreeNode>
    requires cur < |nodes|
  {
    nodes[cur := Linked(nodes[cur], SegOf(part), |nodes|)] + [Leaf.(node := Node(NameOf(part), false, "", []))]
  }

  lemma GrownPaths(nodes: seq<TreeNode>, g: Ghost, cur: nat, part: string)
    requires PathsOk(nodes, g) && cur < |nodes| && g.paths[cur] + [SegOf(part)] !in g.trie
    ensures PathsOk(GrownNodes(nodes, cur, part), Grown(g, g.paths[cur], part, |nodes|))
  {
    var h := Grown(g, g.paths[cur], part, |nodes|);
    forall k | 0 <= k < |nodes| + 1 ensures h.paths[k] in h.index && h.index[h.paths[k]] == k {
      if k < |nodes| { assert g.paths[k] in g.index; }
    }
  }

  lemma GrownNodeOk(nodes: seq<TreeNode>, g: Ghost, cur: nat, part: string, k: nat)
    requires Stands(nodes, g) && cur < |nodes| && g.paths[cur] + [SegOf(part)] !in g.trie && k <= |nodes|
    ensures var h := Grown(g, g.paths[cur], part, |nodes|);
            SlotOk(GrownNodes(nodes, cur, part), h, k)
  {
    if k == |nodes| {
      NewNodeOk(g, g.paths[cur], part, |nodes|);
    } else {
      assert SlotOk(nodes, g, k);
      assert g.index[g.paths[k]] == k && g.index[g.paths[cur]] == cur;
      if k == cur {
        ParentOk(nodes[cur], g, g.paths[cur], part, |nodes|);
      } else {
        OtherOk(nodes[k], g, g.paths[k], g.paths[cur], part, |nodes|);
      }
    }
  }

  /** The last node is the new child. */
  lemma NewChild(nodes: seq<TreeNode>, g: Ghost, cur: nat, part: string)
    requires Stands(nodes, g) && cur < |nodes| && Child(nodes[cur], SegOf(part)) == None
    ensures var q, h := g.paths[cur] + [SegOf(part)], Grown(g, g.paths[cur], part, |nodes|);
            && h.paths[|nodes|] == q && h.trie == WithChild(g.trie, q, part)
            && q in h.trie && GrownNodes(nodes, cur, part)[|nodes|].node == h.trie[q]
  {
    PointerOk(nodes, g, cur, SegOf(part));
  }

  /** A change of the trie at `at` only, pointers untouched. */
  lemma RelabelledOk(n: TreeNode, g: Ghost, q: Shape, t: Trie)
    requires NodeOk(n, g, q) && q in t && t.Keys == g.trie.Keys
    ensures NodeOk(n.(node := t[q]), g.(trie := t), q)
  {
    var m, h := n.(node := t[q]), g.(trie := t);
    forall s ensures Child(m, s) == PointerTo(h, q + [s]) {
      assert Child(n, s) == PointerTo(g, q + [s]);
    }
  }

  /** The arena after a node became the end of a route. */
  function MarkedNodes(nodes: seq<TreeNode>, cur: nat, pattern: string, hs: seq<Handler>): seq<TreeNode>
    requires cur < |nodes|
  {
    var n := nodes[cur].node;
    nodes[cur := nodes[cur].(node := n.(isEnd := true, pattern := if pattern == "" then "/" else pattern,
                                        handles := n.handles + hs))]
  }

  lemma MarkedNodeOk(nodes: seq<TreeNode>, g: Ghost, cur: nat, pattern: string, hs: seq<Handler>, k: nat)
    requires Stands(nodes, g) && cur < |nodes| && k < |nodes| && g.paths[cur] in g.trie
    ensures SlotOk(MarkedNodes(nodes, cur, pattern, hs), g.(trie := Finish(g.trie, g.paths[cur], pattern, hs)), k)
  {
    assert SlotOk(nodes, g, k);
    assert g.index[g.paths[k]] == k && g.index[g.paths[cur]] == cur;
    RelabelledOk(nodes[k], g, g.paths[k], Finish(g.trie, g.paths[cur], pattern, hs));
  }

  /** Marking a node as the end of a route. */
  lemma MarkedStands(nodes: seq<TreeNode>, g: Ghost, cur: nat, pattern: string, hs: seq<Handler>)
    requires Stands(nodes, g) && cur < |nodes| && g.paths[cur] in g.trie
    ensures Stands(MarkedNodes(nodes, cur, pattern, hs), g.(trie := Finish(g.trie, g.paths[cur], pattern, hs)))
  {
    assert Finish(g.trie, g.paths[cur], pattern, hs).Keys == g.trie.Keys;
    forall k | 0 <= k < |nodes|
      ensures SlotOk(MarkedNodes(nodes, cur, pattern, hs), g.(trie := Finish(g.trie, g.paths[cur], pattern, hs)), k)
    {
      MarkedNodeOk(nodes, g, cur, pattern, hs, k);
    }
  }

  /** A pointer leads to the node of its edge, and is absent when there is none. */
  lemma PointerOk(nodes: seq<TreeNode>, g: Ghost, k: nat, seg: Seg)
    requires Stands(nodes, g) && k < |nodes|
    ensures match Child(nodes[k], seg)
            case None => g.paths[k] + [seg] !in g.trie
            case Some(c) => c < |nodes| && g.paths[c] == g.paths[k] + [seg] && g.paths[c] in g.trie
                            && nodes[c].node == g.trie[g.paths[c]]
  {
    assert SlotOk(nodes, g, k);
    assert Child(nodes[k], seg) == PointerTo(g, g.paths[k] + [seg]);
    if Child(nodes[k], seg).Some? {
      var c := Child(nodes[k], seg).value;
      assert SlotOk(nodes, g, c);
    }
  }

  class PrefixTree {
    var nodes: seq<TreeNode>
    var params: Params      // the table of the search under way
    ghost var means: Ghost  // what the nodes stand for
    ghost var routes: seq<Route>

    constructor ()
      ensures Serves() && routes == []
    {
      routes := [];
      nodes := [Leaf];
      params := map[];
      means := Ghost(Empty, [[]], map[[] := 0]);
      new;
      assert NodeOk(Leaf, means, []);
      assert SlotOk(nodes, means, 0);
    }

    ghost predicate Valid()
      reads this
    {
      Stands(nodes, means)
    }

    ghost function Means(): Trie
      reads this
    {
      means.trie
    }

    /** What was registered, cut into parts. */
    ghost function Table(): seq<Registration>
      reads this
    {
      Registrations(routes)
    }

    /** The tree stands for the trie of the routes registered so far. */
    ghost predicate Serves()
      reads this
    {
      Valid() && Means() == Build(Table())
    }

    /** Follows the edge of `part` from `cur`, making the child if need be. */
    method Follow(cur: nat, part: string) returns (c: nat)
      requires Valid() && cur < |nodes| && Open(Means(), means.paths[cur])
      modifies `nodes, `means
      ensures Valid() && c < |nodes| && means.paths[c] == old(means.paths[cur]) + [SegOf(part)]
      ensures Means() == WithChild(old(Means()), means.paths[c], part)
      ensures means.paths[c] in Means() && nodes[c].node == Means()[means.paths[c]]
    {
      PointerOk(nodes, means, cur, SegOf(part));
      match Child(nodes[cur], SegOf(part)) {
        case Some(p) =>
          c := p;
        case None =>
          c := MakeChild(cur, part);
      }
    }

    method MakeChild(cur: nat, part: string) returns (c: nat)
      requires Valid() && cur < |nodes| && Open(Means(), means.paths[cur]) && Child(nodes[cur], SegOf(part)) == None
      modifies `nodes, `means
      ensures Valid() && c < |nodes| && means.paths[c] == old(means.paths[cur]) + [SegOf(part)]
      ensures Means() == WithChild(old(Means()), means.paths[c], part)
      ensures means.paths[c] in Means() && nodes[c].node == Means()[means.paths[c]]
    {
      PointerOk(nodes, means, cur, SegOf(part));
      NewChild(nodes, means, cur, part);
      AddChild(Means(), means.paths[cur], part);
      GrownPaths(nodes, means, cur, part);
      ghost var was, g, at := nodes, means, cur;
      forall k | 0 <= k < |was| + 1
        ensures SlotOk(GrownNodes(was, at, part), Grown(g, g.paths[at], part, |was|), k)
      {
        GrownNodeOk(was, g, at, part, k);
      }
      c := |nodes|;
      nodes, means := GrownNodes(nodes, cur, part), Grown(means, means.paths[cur], part, c);
    }

    /** Registers handlers at a node. */
    method MarkEnd(cur: nat, pattern: string, hs: seq<Handler>)
      requires Valid() && cur < |nodes| && means.paths[cur] in Means()
      modifies `nodes, `means
      ensures Valid() && Means() == Finish(old(Means()), old(means.paths[cur]), pattern, hs)
    {
      MarkedStands(nodes, means, cur, pattern, hs);
      nodes, means :=
        MarkedNodes(nodes, cur, pattern, hs), means.(trie := Finish(Means(), means.paths[cur], pattern, hs));
    }

    /** Grows the path of a pattern and registers it at its last node. */
    method Register(parts: seq<string>, hs: seq<Handler>) returns (cur: nat)
      requires Valid()
      modifies `nodes, `means
      ensures Valid() && Means() == Insert(old(Means()), parts, hs)
    {
      cur := 0;
      var pattern := "";
      var i := 0;
      ghost var goal := Insert(Means(), parts, hs);
      assert parts[0..] == parts;
      var wild := false;
      while i < |parts| && !wild
        invariant Valid() && 0 <= i <= |parts| && cur < |nodes|
        invariant wild || Open(Means(), means.paths[cur])
        invariant means.paths[cur] in Means()
        invariant goal == if wild then Finish(Means(), means.paths[cur], pattern, hs)
                          else InsertFrom(Means(), means.paths[cur], pattern, parts[i..], hs)
      {
        var part := parts[i];
        AddChild(Means(), means.paths[cur], part);
        assert parts[i..][1..] == parts[i + 1..] && parts[i..][0] == part;
        cur := Follow(cur, part);
        pattern := pattern + Label(SegOf(part), nodes[cur].node.name);
        wild := SegOf(part).Wild?;
        i := i + 1;
      }
      MarkEnd(cur, pattern, hs);
    }

    /** The rest of a path, as a wildcard takes it. */
    method JoinFrom(segs: seq<string>, idx: nat) returns (rest: string)
      requires idx <= |segs|
      ensures rest == Join(segs[idx..])
    {
      rest := "";
      for i := idx to |segs|
        invariant rest == Join(segs[idx..i])
      {
        JoinSnoc(segs[idx..i], segs[i]);
        assert segs[idx..i + 1] == segs[idx..i] + [segs[i]];
        if i > idx {
          rest := rest + "/";
        }
        rest := rest + segs[i];
      }
      assert segs[idx..|segs|] == segs[idx..];
    }

    /** The search: static child, parameter child with its binding written before
        and erased after a failure, wildcard child. */
    method Search(cur: nat, segs: seq<string>, idx: nat) returns (ok: bool, k: nat)
      requires Valid() && cur < |nodes| && idx <= |segs| && means.paths[cur] in Means()
      modifies `params
      ensures var r := Dfs(Means(), means.paths[cur], segs[idx..], old(params));
              && params == r.1 && ok == r.0.Some?
              && (ok ==> k < |nodes| && means.paths[k] == r.0.value)
      decreases |segs| - idx
    {
      ok, k := false, 0;
      ghost var at, rest := means.paths[cur], segs[idx..];
      if idx == |segs| {
        assert SlotOk(nodes, means, cur);
        if nodes[cur].node.isEnd {
          return true, cur;
        }
        ok, k := SearchWild(cur, segs, idx);
        return;
      }
      assert rest[0] == segs[idx] && rest[1..] == segs[idx + 1..];
      ok, k := SearchStatic(cur, segs, idx);
      if ok {
        return;
      }
      ok, k := SearchParam(cur, segs, idx);
      if ok {
        return;
      }
      ok, k := SearchWild(cur, segs, idx);
    }

    method SearchStatic(cur: nat, segs: seq<string>, idx: nat) returns (ok: bool, k: nat)
      requires Valid() && cur < |nodes| && idx < |segs| && means.paths[cur] in Means()
      modifies `params
      ensures var r := TryStatic(Means(), means.paths[cur], segs[idx..], old(params));
              && params == r.1 && ok == r.0.Some?
              && (ok ==> k < |nodes| && means.paths[k] == r.0.value)
      decreases |segs| - idx, 0
    {
      ok, k := false, 0;
      PointerOk(nodes, means, cur, Static(segs[idx]));
      assert segs[idx..][0] == segs[idx] && segs[idx..][1..] == segs[idx + 1..];
      if segs[idx] in nodes[cur].children {
        ok, k := Search(nodes[cur].children[segs[idx]], segs, idx + 1);
      }
    }

    method SearchParam(cur: nat, segs: seq<string>, idx: nat) returns (ok: bool, k: nat)
      requires Valid() && cur < |nodes| && idx < |segs| && means.paths[cur] in Means()
      modifies `params
      ensures var r := TryParam(Means(), means.paths[cur], segs[idx..], old(params));
              && params == r.1 && ok == r.0.Some?
              && (ok ==> k < |nodes| && means.paths[k] == r.0.value)
      decreases |segs| - idx, 0
    {
      ok, k := false, 0;
      PointerOk(nodes, means, cur, Param);
      assert segs[idx..][0] == segs[idx] && segs[idx..][1..] == segs[idx + 1..];
      if nodes[cur].paramChild.Some? {
        var c := nodes[cur].paramChild.value;
        var name := nodes[c].node.name;
        params := params[name := segs[idx]];
        ok, k := Search(c, segs, idx + 1);
        if !ok {
          params := params - {name};
        }
      }
    }

    method SearchWild(cur: nat, segs: seq<string>, idx: nat) returns (ok: bool, k: nat)
      requires Valid() && cur < |nodes| && idx <= |segs| && means.paths[cur] in Means()
      modifies `params
      ensures var r := TryWild(Means(), means.paths[cur], segs[idx..], old(params));
              && params == r.1 && ok == r.0.Some?
              && (ok ==> k < |nodes| && means.paths[k] == r.0.value)
    {
      ok, k := false, 0;
      PointerOk(nodes, means, cur, Wild);
      if nodes[cur].wildChild.Some? {
        var c := nodes[cur].wildChild.value;
        if nodes[c].node.isEnd {
          var rest := JoinFrom(segs, idx);
          params := params[nodes[c].node.name := rest];
          ok, k := true, c;
        }
      }
    }

    /** match: the handlers and the pattern of the route found. */
    method Lookup(segs: seq<string>) returns (ok: bool, handles: seq<Handler>, pattern: string)
      requires Valid()
      modifies `params
      ensures var r := Match(Means(), segs);
              && params == r.1 && ok == r.0.Some?
              && (ok ==> handles == Means()[r.0.value].handles && pattern == Means()[r.0.value].pattern)
    {
      params := map[];
      handles, pattern := [], "";
      var k;
      assert segs[0..] == segs;
      ok, k := Search(0, segs, 0);
      if ok {
        assert SlotOk(nodes, means, k);
        handles, pattern := nodes[k].node.handles, nodes[k].node.pattern;
      }
    }

    /** insert: one more route, given as text. */
    method Add(path: string, hs: seq<Handler>)
      requires Serves()
      modifies this
      ensures Serves() && routes == old(routes) + [Route(path, hs)]
    {
      var parts := SplitPath(path);
      var _ := Register(parts, hs);
      OneRouteMore(routes, Route(path, hs));
      routes := routes + [Route(path, hs)];
    }

    /** From the text of a path to its route: there is one iff some pattern registered
        matches, it is the preferred one, its handlers are all that were registered
        for it, in order, and where names are harmless each of its parameters is bound. */
    method Find(path: string) returns (ok: bool, handles: seq<Handler>, pattern: string, ghost q: Shape)
      requires Serves()
      modifies `params
      ensures ok <==> exists p :: HasShape(Table(), p) && Matches(p, Pieces(path))
      ensures ok ==> HasShape(Table(), q) && Wins(Table(), q, Pieces(path))
      ensures ok ==> handles == HandlersFor(Table(), q) && pattern == Canonical(Means(), q)
      ensures ok && NamesHarmless(Table()) ==>
                && params.Keys == NamesOn(Means(), q)
                && forall i :: 0 <= i < |q| ==> BoundAt(Means(), q, i, Pieces(path), params)
    {
      q := [];
      var segs := SplitPath(path);
      ok, handles, pattern := Lookup(segs);
      MatchIsBest(Table(), segs);
      if ok {
        q := Match(Means(), segs).0.value;
        FoundIffWins(Table(), q, segs);
        BuildMeaning(Table(), q);
        BuildPattern(Table(), q);
        FoundBound(routes, path, q);
      }
    }
  }

  lemma OneRouteMore(routes: seq<Route>, r: Route)
    ensures Build(Registrations(routes + [r])) == Insert(Build(Registrations(routes)), Pieces(r.path), r.handles)
  {
    var regs := Registrations(routes + [r]);
    assert regs == Registrations(routes) + [Registration(Pieces(r.path), r.handles)];
    assert regs[..|routes|] == Registrations(routes);
  }

  /** Where names are harmless a match binds exactly its own names. */
  lemma FoundBound(routes: seq<Route>, path: string, q: Shape)
    requires HasShape(Registrations(routes), q) && Wins(Registrations(routes), q, Pieces(path))
    ensures var regs := Registrations(routes);
            var params := Match(Build(regs), Pieces(path)).1;
            NamesHarmless(regs) ==>
              && params.Keys == NamesOn(Build(regs), q)
              && forall i :: 0 <= i < |q| ==> BoundAt(Build(regs), q, i, Pieces(path), params)
  {
    var regs, segs := Registrations(routes), Pieces(path);
    FoundIffWins(regs, q, segs);
    if NamesHarmless(regs) {
      RegistrationsPlain(routes);
      HarmlessPath(regs, q);
      FoundBinds(regs, segs, 0);
      forall i | 0 <= i < |q| ensures BoundAt(Build(regs), q, i, segs, Match(Build(regs), segs).1) {
        FoundBinds(regs, segs, i);
      }
    }
  }

  lemma {:induction false} JoinSnoc(segs: seq<string>, s: string)
    ensures Join(segs + [s]) == if segs == [] then s else Join(segs) + "/" + s
    decreases |segs|
  {
    if |segs| > 1 {
      assert (segs + [s])[1..] == segs[1..] + [s];
      JoinSnoc(segs[1..], s);
    } else if |segs| == 1 {
      assert (segs + [s])[1..] == [s];
    }
  }
}
