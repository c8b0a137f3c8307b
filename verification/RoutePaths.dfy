/** Which request paths a route wins: on which it is the preferred match. */
module RoutePaths {
  import opened Collections
  import opened Routes
  import opened PathText

  predicate EndsWith(q: Shape, seg: Seg) {
    q != [] && q[|q| - 1] == seg
  }

  /** `q` matches the path, and nothing else that does is preferred to it. */
  ghost predicate Wins(regs: seq<Registration>, q: Shape, segs: seq<string>) {
    Matches(q, segs) && forall p :: HasShape(regs, p) && Matches(p, segs) ==> Preferred(q, p)
  }

  ghost predicate EverWins(regs: seq<Registration>, q: Shape) {
    exists path: string :: Wins(regs, q, Pieces(path))
  }

  lemma {:induction false} PreferredBoth(p: Shape, q: Shape)
    requires Preferred(p, q) && Preferred(q, p)
    ensures p == q
    decreases |p|
  {
    if p != [] && q != [] && p[0] == q[0] {
      PreferredBoth(p[1..], q[1..]);
      assert p == [p[0]] + p[1..] && q == [q[0]] + q[1..];
    }
  }

  /** The search finds a registered pattern exactly on the paths that it wins. */
  lemma FoundIffWins(regs: seq<Registration>, q: Shape, segs: seq<string>)
    requires HasShape(regs, q)
    ensures Match(Build(regs), segs).0 == Some(q) <==> Wins(regs, q, segs)
  {
    MatchIsBest(regs, segs);
    var found := Match(Build(regs), segs).0;
    if Wins(regs, q, segs) {
      PreferredBoth(found.value, q);
    }
  }

  // ------------------------------------------ texts that no pattern mentions

  predicate Shorter(p: Shape, len: nat) {
    forall k :: 0 <= k < |p| && p[k].Static? ==> |p[k].text| < len
  }

  lemma {:induction false} Longest(p: Shape) returns (len: nat)
    ensures Shorter(p, len)
  {
    if p == [] {
      len := 0;
    } else {
      len := Longest(p[1..]);
      if p[0].Static? && |p[0].text| >= len {
        len := |p[0].text| + 1;
      }
      assert forall k :: 0 < k < |p| ==> p[k] == p[1..][k - 1];
    }
  }

  /** Static texts of a finite trie are shorter than some length. */
  lemma {:induction false} LongestIn(keys: set<Shape>) returns (len: nat)
    ensures forall p: Shape :: p in keys ==> Shorter(p, len)
    decreases |keys|
  {
    if keys == {} {
      len := 0;
    } else {
      var q :| q in keys;
      var a := LongestIn(keys - {q});
      var b := Longest(q);
      len := if a < b then b else a;
      forall p | p in keys ensures Shorter(p, len) {
        assert p == q || p in keys - {q};
        assert Shorter(p, if p == q then b else a);
      }
    }
  }

  function Fresh(len: nat): string {
    seq(len, _ => 'x')
  }

  /** A path for `q`: its own texts, and for each parameter a text of a length that
      occurs nowhere else. */
  function PathOf(q: Shape, len: nat): seq<string>
    decreases |q|
  {
    if q == [] then []
    else match q[0]
      case Static(text) => [text] + PathOf(q[1..], len + 1)
      case Param => [Fresh(len)] + PathOf(q[1..], len + 1)
      case Wild => []
  }

  ghost predicate PlainShape(q: Shape) {
    forall k :: 0 <= k < |q| && q[k].Static? ==> Plain(q[k].text)
  }

  lemma {:induction false} PartsPlain(parts: seq<string>)
    requires AllPlain(parts)
    ensures PlainShape(ShapeOf(parts))
    decreases |parts|
  {
    if parts != [] && !SegOf(parts[0]).Wild? {
      assert parts[0] in parts && forall s :: s in parts[1..] ==> s in parts;
      PartsPlain(parts[1..]);
      assert forall k :: 0 < k < |ShapeOf(parts)| ==> ShapeOf(parts)[k] == ShapeOf(parts[1..])[k - 1];
    }
  }

  lemma FreshPlain(len: nat)
    requires 0 < len
    ensures Plain(Fresh(len))
  {
    assert |Fresh(len)| == len;
  }

  /** The path is one that a request can have. */
  lemma {:induction false} PathPlain(q: Shape, len: nat)
    requires PlainShape(q) && 0 < len
    ensures AllPlain(PathOf(q, len))
    decreases |q|
  {
    if q != [] && !q[0].Wild? {
      FreshPlain(len);
      assert forall k :: 0 <= k < |q| - 1 ==> q[1..][k] == q[k + 1];
      PathPlain(q[1..], len + 1);
    }
  }

  /** A wildcard comes last. */
  ghost predicate WildLast(q: Shape) {
    forall k :: 0 <= k < |q| && q[k].Wild? ==> k == |q| - 1
  }

  lemma {:induction false} PathMatches(q: Shape, len: nat)
    requires WildLast(q)
    ensures Matches(q, PathOf(q, len))
    decreases |q|
  {
    if q != [] && !q[0].Wild? {
      assert forall k :: 0 <= k < |q| - 1 ==> q[1..][k] == q[k + 1];
      PathMatches(q[1..], len + 1);
    }
  }

  lemma {:induction false} PathAt(q: Shape, len: nat, i: nat)
    requires WildLast(q) && i < |q| && q[i].Param?
    ensures i < |PathOf(q, len)| && |PathOf(q, len)[i]| == len + i
    decreases |q|
  {
    if i > 0 {
      assert forall k :: 0 <= k < |q| - 1 ==> q[1..][k] == q[k + 1];
      PathAt(q[1..], len + 1, i - 1);
    }
  }

  /** What matches that path and is preferred to `q` goes the same way up to any of
      its parameters. */
  lemma {:induction false} SameWay(q: Shape, f: Shape, len: nat, j: nat)
    requires WildLast(q) && j < |q| && q[j].Param?
    requires Matches(f, PathOf(q, len)) && Preferred(f, q) && Shorter(f, len)
    ensures j < |f| && f[..j + 1] == q[..j + 1]
    decreases |q|
  {
    assert f != [] && f[0] == q[0];
    if j > 0 {
      assert forall k :: 0 <= k < |q| - 1 ==> q[1..][k] == q[k + 1];
      assert forall k :: 0 <= k < |f| - 1 ==> f[1..][k] == f[k + 1];
      SameWay(q[1..], f[1..], len + 1, j - 1);
      assert f[..j + 1] == [f[0]] + f[1..][..j] && q[..j + 1] == [q[0]] + q[1..][..j];
    }
  }

  lemma ShapeWildLast(regs: seq<Registration>, q: Shape)
    requires HasShape(regs, q)
    ensures q in Build(regs) && WildLast(q)
  {
    BuildMeaning(regs, q);
    forall k | 0 <= k < |q| && q[k].Wild? ensures k == |q| - 1 {
      PrefixIn(Build(regs).Keys, q, k);
    }
  }

  lemma TextOf(regs: seq<Registration>, q: Shape, len: nat) returns (path: string)
    requires PlainTable(regs) && HasShape(regs, q) && 0 < len
    ensures Pieces(path) == PathOf(q, len)
  {
    var i :| 0 <= i < |regs| && ShapeOf(regs[i].parts) == q;
    PartsPlain(regs[i].parts);
    PathPlain(q, len);
    SplitJoin(PathOf(q, len));
    path := Join(PathOf(q, len));
  }

  lemma {:induction false} MatchesLength(q: Shape, segs: seq<string>)
    requires Matches(q, segs) && EndsWith(q, Wild)
    ensures |q| - 1 <= |segs|
    decreases |q|
  {
    if !q[0].Wild? {
      MatchesLength(q[1..], segs[1..]);
    }
  }

  // ------------------------------------------- wildcards that win no path at all

  function Blanks(m: nat): Shape {
    seq(m, _ => Param)
  }

  /** Parameters alone, or parameters and a wildcard, take every rest of a path that the
      wildcard behind `at` takes. */
  ghost predicate ShadowedBy(regs: seq<Registration>, at: Shape, k: nat) {
    && k > 0 && HasShape(regs, at + Blanks(k) + [Wild])
    && forall m: nat :: m < k ==> HasShape(regs, at + Blanks(m))
  }

  ghost predicate Shadowed(regs: seq<Registration>, at: Shape) {
    exists k: nat :: ShadowedBy(regs, at, k)
  }

  lemma {:induction false} MatchesBelow(at: Shape, rest: Shape, segs: seq<string>)
    requires Matches(at + [Wild], segs) && |at| <= |segs| && Matches(rest, segs[|at|..])
    ensures Matches(at + rest, segs)
    decreases |at|
  {
    if at == [] {
      assert at + rest == rest && segs[0..] == segs;
    } else {
      assert (at + [Wild])[1..] == at[1..] + [Wild] && (at + rest)[1..] == at[1..] + rest;
      assert segs[1..][|at| - 1..] == segs[|at|..];
      MatchesBelow(at[1..], rest, segs[1..]);
    }
  }

  lemma {:induction false} PreferredBelow(at: Shape, p: Shape, q: Shape)
    ensures Preferred(at + p, at + q) <==> Preferred(p, q)
    decreases |at|
  {
    if at == [] {
      assert at + p == p && at + q == q;
    } else {
      assert (at + p)[1..] == at[1..] + p && (at + q)[1..] == at[1..] + q;
      PreferredBelow(at[1..], p, q);
    }
  }

  lemma BlanksMore(m: nat)
    ensures Blanks(m + 1) == [Param] + Blanks(m)
    ensures Blanks(m + 1) + [Wild] == [Param] + (Blanks(m) + [Wild])
  {
  }

  lemma {:induction false} BlanksMatch(m: nat, segs: seq<string>)
    requires m <= |segs|
    ensures Matches(Blanks(m) + [Wild], segs)
    ensures m == |segs| ==> Matches(Blanks(m), segs)
    decreases m
  {
    if m == 0 {
      assert Blanks(0) + [Wild] == [Wild];
    } else {
      BlanksMore(m - 1);
      assert Blanks(m)[1..] == Blanks(m - 1) && (Blanks(m) + [Wild])[1..] == Blanks(m - 1) + [Wild];
      BlanksMatch(m - 1, segs[1..]);
    }
  }

  /** A shadowed wildcard wins nothing. */
  lemma ShadowedLoses(regs: seq<Registration>, at: Shape, k: nat, segs: seq<string>)
    requires ShadowedBy(regs, at, k)
    ensures !Wins(regs, at + [Wild], segs)
  {
    if Matches(at + [Wild], segs) {
      MatchesLength(at + [Wild], segs);
      var m := |segs| - |at|;
      var rest := if m < k then Blanks(m) else Blanks(k) + [Wild];
      BlanksMatch(if m < k then m else k, segs[|at|..]);
      MatchesBelow(at, rest, segs);
      assert at + Blanks(k) + [Wild] == at + (Blanks(k) + [Wild]);
      PreferredBelow(at, [Wild], rest);
      assert rest != [] ==> rest[0] == Param;
    }
  }

  /** What matches fresh texts only: parameters, and perhaps a wildcard. */
  lemma {:induction false} FreshShape(p: Shape, m: nat, len: nat) returns (k: nat)
    requires Matches(p, PathOf(Blanks(m), len)) && Shorter(p, len)
    ensures k <= m && (p == Blanks(m) || p == Blanks(k) + [Wild])
    decreases m
  {
    k := 0;
    if p == [] {
      assert m == 0 && p == Blanks(0);
    } else if p[0].Wild? {
      assert p == Blanks(0) + [Wild];
    } else {
      BlanksMore(m - 1);
      assert Blanks(m)[1..] == Blanks(m - 1);
      assert forall j :: 0 <= j < |p| - 1 ==> p[1..][j] == p[j + 1];
      k := FreshShape(p[1..], m - 1, len + 1);
      assert p == [p[0]] + p[1..];
      k := k + 1;
      BlanksMore(k - 1);
    }
  }

  ghost predicate NoWild(q: Shape) {
    forall k :: 0 <= k < |q| ==> !q[k].Wild?
  }

  /** Where a pattern leaves the way of `at`, it has a worse edge. */
  lemma LeavesWorse(at: Shape, m: nat, len: nat, p: Shape)
    requires NoWild(at) && at != [] && Matches(p, PathOf(at + Blanks(m), len)) && Shorter(p, len)
    requires p == [] || p[0] != at[0]
    ensures Preferred(at + [Wild], p)
  {
    assert (at + Blanks(m))[0] == at[0];
  }

  lemma OneEdgeMore(at: Shape, m: nat)
    requires at != []
    ensures (at + Blanks(m))[1..] == at[1..] + Blanks(m) && (at + [Wild])[1..] == at[1..] + [Wild]
    ensures at + Blanks(m) == [at[0]] + (at[1..] + Blanks(m))
    ensures at + Blanks(m) + [Wild] == [at[0]] + (at[1..] + Blanks(m) + [Wild])
  {
  }

  lemma TailMatches(at: Shape, m: nat, len: nat, p: Shape)
    requires NoWild(at) && at != [] && p != [] && p[0] == at[0]
    requires Matches(p, PathOf(at + Blanks(m), len)) && Shorter(p, len)
    ensures NoWild(at[1..]) && Matches(p[1..], PathOf(at[1..] + Blanks(m), len + 1)) && Shorter(p[1..], len + 1)
  {
    OneEdgeMore(at, m);
    assert forall j :: 0 <= j < |p| - 1 ==> p[1..][j] == p[j + 1];
    assert forall j :: 0 <= j < |at| - 1 ==> at[1..][j] == at[j + 1];
  }

  /** On the way of `at` and `m` fresh texts behind it the wildcard behind `at` beats all
      that are not made of parameters from there on. */
  lemma {:induction false} WildBeats(at: Shape, m: nat, len: nat, p: Shape) returns (k: nat)
    requires NoWild(at) && Matches(p, PathOf(at + Blanks(m), len)) && Shorter(p, len)
    ensures k <= m && (Preferred(at + [Wild], p) || p == at + Blanks(m) || (k > 0 && p == at + Blanks(k) + [Wild]))
    decreases |at|
  {
    k := 0;
    if at == [] {
      assert at + Blanks(m) == Blanks(m) && at + [Wild] == [Wild];
      k := FreshShape(p, m, len);
      assert at + Blanks(k) + [Wild] == Blanks(k) + [Wild];
      assert k == 0 ==> Blanks(k) + [Wild] == [Wild];
    } else if p == [] || p[0] != at[0] {
      LeavesWorse(at, m, len, p);
    } else {
      TailMatches(at, m, len, p);
      k := WildBeats(at[1..], m, len + 1, p[1..]);
      OneEdgeMore(at, m);
      OneEdgeMore(at, k);
      assert p == [p[0]] + p[1..];
    }
  }

  /** The first number of parameters behind `at` that is not registered. */
  lemma {:induction false} FirstGap(regs: seq<Registration>, at: Shape, from: nat, len: nat) returns (m: nat)
    requires forall p :: HasShape(regs, p) ==> |p| < len
    requires forall i: nat :: i < from ==> HasShape(regs, at + Blanks(i))
    ensures !HasShape(regs, at + Blanks(m)) && forall i: nat :: i < m ==> HasShape(regs, at + Blanks(i))
    decreases len - from
  {
    m := from;
    if HasShape(regs, at + Blanks(from)) {
      assert |at + Blanks(from)| >= from;
      m := FirstGap(regs, at, from + 1, len);
    }
  }

  lemma {:induction false} Deepest(regs: seq<Registration>) returns (len: nat)
    ensures forall p :: HasShape(regs, p) ==> |p| < len
    decreases |regs|
  {
    len := 0;
    if regs != [] {
      var n := |regs| - 1;
      len := Deepest(regs[..n]);
      len := len + |ShapeOf(regs[n].parts)| + 1;
      forall p | HasShape(regs, p) ensures |p| < len {
        HasShapeSnoc(regs, p);
      }
    }
  }

  /** A wildcard that is not shadowed wins the path of fresh texts up to the first gap. */
  lemma UnshadowedWins(regs: seq<Registration>, at: Shape) returns (path: string)
    requires PlainTable(regs) && HasShape(regs, at + [Wild]) && !Shadowed(regs, at)
    ensures Wins(regs, at + [Wild], Pieces(path))
  {
    var depth := Deepest(regs);
    var m := FirstGap(regs, at, 0, depth);
    var len := LongestIn(Build(regs).Keys);
    len := len + 1;
    ShapeWildLast(regs, at + [Wild]);
    assert NoWild(at) by {
      assert forall k :: 0 <= k < |at| ==> at[k] == (at + [Wild])[k];
    }
    path := GapText(regs, at, m, len);
    GapMatches(at, m, len);
    forall p | HasShape(regs, p) && Matches(p, Pieces(path)) ensures Preferred(at + [Wild], p) {
      ShapeWildLast(regs, p);
      var k := WildBeats(at, m, len, p);
      assert k > 0 && p == at + Blanks(k) + [Wild] ==> ShadowedBy(regs, at, k);
    }
  }

  lemma GapText(regs: seq<Registration>, at: Shape, m: nat, len: nat) returns (path: string)
    requires PlainTable(regs) && HasShape(regs, at + [Wild]) && 0 < len
    ensures Pieces(path) == PathOf(at + Blanks(m), len)
  {
    var i :| 0 <= i < |regs| && ShapeOf(regs[i].parts) == at + [Wild];
    PartsPlain(regs[i].parts);
    assert forall k :: 0 <= k < |at| ==> (at + Blanks(m))[k] == (at + [Wild])[k];
    PathPlain(at + Blanks(m), len);
    SplitJoin(PathOf(at + Blanks(m), len));
    path := Join(PathOf(at + Blanks(m), len));
  }

  lemma {:induction false} GapMatches(at: Shape, m: nat, len: nat)
    requires NoWild(at)
    ensures Matches(at + [Wild], PathOf(at + Blanks(m), len))
    decreases |at|
  {
    if at == [] {
      assert at + [Wild] == [Wild];
    } else {
      assert (at + Blanks(m))[1..] == at[1..] + Blanks(m) && (at + [Wild])[1..] == at[1..] + [Wild];
      assert forall k :: 0 <= k < |at| - 1 ==> at[1..][k] == at[k + 1];
      GapMatches(at[1..], m, len + 1);
    }
  }

  /** A registered wildcard wins some request path if and only if the table does not
      shadow it. */
  lemma WinsIffUnshadowed(regs: seq<Registration>, q: Shape)
    requires PlainTable(regs) && HasShape(regs, q) && EndsWith(q, Wild)
    ensures EverWins(regs, q) <==> !Shadowed(regs, q[..|q| - 1])
  {
    var at := q[..|q| - 1];
    assert q == at + [Wild];
    if Shadowed(regs, at) {
      var k: nat :| ShadowedBy(regs, at, k);
      forall path: string ensures !Wins(regs, q, Pieces(path)) {
        ShadowedLoses(regs, at, k, Pieces(path));
      }
    } else {
      var path := UnshadowedWins(regs, at);
    }
  }
}
