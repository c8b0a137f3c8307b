/** Paths as text: what the server cuts requests and patterns into. */
module PathText {
  import opened Routes

  /** What a path can have between its slashes. */
  predicate Plain(s: string) { s != "" && '/' !in s }

  ghost predicate AllPlain(parts: seq<string>) {
    forall s :: s in parts ==> Plain(s)
  }

  /** The non-empty pieces of a path between slashes; `piece` is read so far. */
  function Split(path: string, piece: string): seq<string>
    decreases |path|
  {
    var done := if piece == "" then [] else [piece];
    if path == [] then done
    else if path[0] == '/' then done + Split(path[1..], "")
    else Split(path[1..], piece + [path[0]])
  }

  function Pieces(path: string): seq<string> {
    Split(path, "")
  }

  method SplitPath(path: string) returns (parts: seq<string>)
    ensures parts == Pieces(path)
  {
    parts := [];
    var piece := "";
    var i := 0;
    assert path[0..] == path;
    while i < |path|
      invariant 0 <= i <= |path| && parts + Split(path[i..], piece) == Split(path, "")
    {
      assert path[i..][0] == path[i] && path[i..][1..] == path[i + 1..];
      if path[i] == '/' {
        if piece != "" {
          parts := parts + [piece];
        }
        piece := "";
      } else {
        piece := piece + [path[i]];
      }
      i := i + 1;
    }
    if piece != "" {
      parts := parts + [piece];
    }
  }

  lemma {:induction false} SplitPiece(s: string, rest: string, piece: string)
    requires '/' !in s && (rest == "" || rest[0] == '/')
    ensures Split(s + rest, piece) == (if piece + s == "" then [] else [piece + s]) + Split(rest, "")
    decreases |s|
  {
    if s == "" {
      assert s + rest == rest && piece + s == piece;
    } else {
      assert (s + rest)[1..] == s[1..] + rest;
      assert piece + [s[0]] + s[1..] == piece + s;
      SplitPiece(s[1..], rest, piece + [s[0]]);
    }
  }

  lemma SplitSlash(path: string)
    ensures Pieces("/" + path) == Pieces(path)
  {
    assert ("/" + path)[1..] == path;
  }

  /** Cutting undoes joining; a leading slash changes nothing. */
  lemma {:induction false} SplitJoin(parts: seq<string>)
    requires AllPlain(parts)
    ensures Pieces(Join(parts)) == parts && Pieces("/" + Join(parts)) == parts
    decreases |parts|
  {
    SplitSlash(Join(parts));
    if parts != [] {
      var head, tail := parts[0], parts[1..];
      assert Plain(head) && "" + head == head && [head] + tail == parts;
      if tail == [] {
        SplitPiece(head, "", "");
        assert head + "" == head;
      } else {
        assert AllPlain(tail);
        SplitJoin(tail);
        JoinCons(head, tail);
        SplitPiece(head, "/" + Join(tail), "");
      }
    }
  }

  lemma JoinCons(head: string, tail: seq<string>)
    requires tail != []
    ensures Join([head] + tail) == head + ("/" + Join(tail))
  {
    assert ([head] + tail)[1..] == tail;
  }

  /** Cutting gives plain pieces only, and so, by SplitJoin, all lists of them. */
  lemma {:induction false} SplitPlain(path: string, piece: string)
    requires '/' !in piece
    ensures AllPlain(Split(path, piece))
    decreases |path|
  {
    if path != [] {
      SplitPlain(path[1..], if path[0] == '/' then "" else piece + [path[0]]);
    }
  }

  // ------------------------------------------------------- routes given as text

  /** A pattern, as the caller writes it, and its handlers. */
  datatype Route = Route(path: string, handles: seq<Handler>)

  function Registrations(routes: seq<Route>): seq<Registration> {
    seq(|routes|, i requires 0 <= i < |routes| => Registration(Pieces(routes[i].path), routes[i].handles))
  }

  ghost predicate PlainTable(regs: seq<Registration>) {
    forall i :: 0 <= i < |regs| ==> AllPlain(regs[i].parts)
  }

  lemma RegistrationsPlain(routes: seq<Route>)
    ensures PlainTable(Registrations(routes))
  {
    forall i | 0 <= i < |routes| ensures AllPlain(Registrations(routes)[i].parts) {
      SplitPlain(routes[i].path, "");
    }
  }
}
