/** The code of the Redis client that works by loops and a moving cursor, against
    the grammar of module Resp. */
module RespClient {
  import opened Collections
  import opened Resp
  import opened RespLanguage

  function Bulks(args: seq<Bytes>): seq<Reply> {
    seq(|args|, i requires 0 <= i < |args| => Bulk(args[i]))
  }

  lemma {:induction false} EncodeAllAppend(es: seq<Reply>, e: Reply)
    ensures EncodeAll(es + [e]) == EncodeAll(es) + Encode(e)
    decreases |es|
  {
    if es == [] {
      assert [e][1..] == [];
      assert EncodeAll([e]) == Encode(e) + EncodeAll([]);
    } else {
      assert (es + [e])[1..] == es[1..] + [e];
      EncodeAllAppend(es[1..], e);
    }
  }

  /** The request: an array of bulk strings. */
  method Serialize(args: seq<Bytes>) returns (out: Bytes)
    ensures out == Encode(Array(Bulks(args)))
  {
    out := "*";
    out := out + Decimal(|args|);
    out := out + CRLF;
    ghost var head := out;
    for i := 0 to |args|
      invariant out == head + EncodeAll(Bulks(args[..i]))
    {
      var arg := args[i];
      ghost var before := out;
      out := out + "$";
      out := out + Decimal(|arg|);
      out := out + CRLF;
      out := out + arg;
      out := out + CRLF;
      Spliced(before, "$", Decimal(|arg|), arg);
      OneMore(args, i, head);
    }
    assert args[..|args|] == args;
    HeadFirst("*", Decimal(|args|), EncodeAll(Bulks(args)));
  }

  lemma HeadFirst(t: Bytes, d: Bytes, rest: Bytes)
    ensures t + d + CRLF + rest == t + ((d + CRLF) + rest)
  {
  }

  lemma OneMore(args: seq<Bytes>, i: nat, head: Bytes)
    requires i < |args|
    ensures head + EncodeAll(Bulks(args[..i])) + Encode(Bulk(args[i])) == head + EncodeAll(Bulks(args[..i + 1]))
  {
    EncodeAllAppend(Bulks(args[..i]), Bulk(args[i]));
    assert Bulks(args[..i + 1]) == Bulks(args[..i]) + [Bulk(args[i])];
  }

  lemma Spliced(b: Bytes, t: Bytes, d: Bytes, x: Bytes)
    ensures b + t + d + CRLF + x + CRLF == b + (t + ((d + CRLF) + (x + CRLF)))
  {
    assert b + t + d + CRLF + x + CRLF == (b + t + (d + CRLF)) + (x + CRLF);
    assert (b + t + (d + CRLF)) + (x + CRLF) == (b + t) + ((d + CRLF) + (x + CRLF));
  }

  /** What was serialized parses back, whatever bytes the arguments hold, and the
      whole buffer is consumed. */
  lemma SerializedParses(args: seq<Bytes>)
    ensures var out := Encode(Array(Bulks(args))); ParseOne(out, 0) == Got(Array(Bulks(args)), |out|)
  {
    RoundTrip(Encode(Array(Bulks(args))), 0, Array(Bulks(args)));
  }

  datatype Code = Success | Short | ProtocolError

  function CodeOf<T>(r: Parsed<T>): Code {
    match r
    case Got(_, _) => Success
    case NeedMore => Short
    case Malformed => ProtocolError
  }

  class Parser {
    const buf: Bytes
    var pos: nat

    constructor (b: Bytes)
      ensures buf == b && pos == 0
    {
      buf := b;
      pos := 0;
    }

    /** Moves the cursor past the next CRLF. */
    method FindLine() returns (ok: bool, first: nat, last: nat)
      requires pos <= |buf|
      modifies this
      ensures ok == (FindCrlf(buf, old(pos)) < |buf|)
      ensures ok ==> first == old(pos) && last == FindCrlf(buf, old(pos)) && pos == last + 2 <= |buf|
      ensures !ok ==> pos == old(pos)
    {
      var p := FindCrlf(buf, pos);
      ok, first, last := p < |buf|, pos, p;
      if ok {
        pos := p + 2;
      }
    }

    static method ReadInt(s: Bytes) returns (ok: bool, v: int)
      ensures (ok, if ok then v else 0) == (ParseInt(s).0, if ok then ParseInt(s).1 else 0)
    {
      ok, v := false, 0;
      if s == [] {
        return;
      }
      var i := if s[0] == '-' then 1 else 0;
      if i >= |s| {
        return;
      }
      var start := i;
      while i < |s|
        invariant start <= i <= |s|
        invariant Digits(s[start..], 0) == Digits(s[i..], v)
      {
        if !IsDigit(s[i]) {
          return;
        }
        assert s[i..][1..] == s[i + 1..];
        v := v * 10 + (s[i] as int - '0' as int);
        i := i + 1;
      }
      assert s[0..] == s;
      ok := true;
      if s[0] == '-' {
        v := -v;
      }
    }

    method ReadNumber() returns (code: Code, v: int)
      requires pos <= |buf|
      modifies this
      ensures old(pos) <= pos <= |buf| && code == CodeOf(ParseNumber(buf, old(pos)))
      ensures code == Success ==> ParseNumber(buf, old(pos)) == Got(v, pos)
    {
      v := 0;
      var found, b, e := FindLine();
      if !found {
        return Short, 0;
      }
      var ok;
      ok, v := ReadInt(buf[b..e]);
      code := if ok then Success else ProtocolError;
    }

    /** parse_one: the cursor ends behind the reply. */
    method ReadOne() returns (code: Code, out: Reply)
      requires pos <= |buf|
      modifies this
      ensures old(pos) <= pos <= |buf| && code == CodeOf(ParseOne(buf, old(pos)))
      ensures code == Success ==> ParseOne(buf, old(pos)) == Got(out, pos)
      decreases |buf| - pos, 0
    {
      out := Nil;
      if pos >= |buf| {
        return Short, Nil;
      }
      var t := buf[pos];
      pos := pos + 1;
      match t {
        case '+' => code, out := ReadLine(false);
        case '-' => code, out := ReadLine(true);
        case ':' =>
          var v;
          code, v := ReadNumber();
          out := Integer(v);
        case '$' => code, out := ReadBulk();
        case '*' => code, out := ReadArray();
        case _ => code := ProtocolError;
      }
    }

    method ReadLine(error: bool) returns (code: Code, out: Reply)
      requires pos <= |buf|
      modifies this
      ensures old(pos) <= pos <= |buf| && code == CodeOf(ParseLine(buf, old(pos), error))
      ensures code == Success ==> ParseLine(buf, old(pos), error) == Got(out, pos)
    {
      var found, b, e := FindLine();
      if !found {
        return Short, Nil;
      }
      code, out := Success, if error then Error(buf[b..e]) else Status(buf[b..e]);
    }

    method ReadBulk() returns (code: Code, out: Reply)
      requires pos <= |buf|
      modifies this
      ensures old(pos) <= pos <= |buf| && code == CodeOf(ParseBulk(buf, old(pos)))
      ensures code == Success ==> ParseBulk(buf, old(pos)) == Got(out, pos)
    {
      out := Nil;
      var len;
      code, len := ReadNumber();
      if code != Success || len < 0 {
        return;
      }
      if |buf| - pos < len + 2 {
        return Short, Nil;
      }
      out := Bulk(buf[pos..pos + len]);
      pos := pos + len + 2;
    }

    method ReadArray() returns (code: Code, out: Reply)
      requires pos <= |buf|
      modifies this
      ensures old(pos) <= pos <= |buf| && code == CodeOf(ParseArray(buf, old(pos)))
      ensures code == Success ==> ParseArray(buf, old(pos)) == Got(out, pos)
      decreases |buf| - pos, 2
    {
      out := Nil;
      var cnt;
      code, cnt := ReadNumber();
      if code != Success || cnt < 0 {
        return;
      }
      ghost var start := pos;
      var elements: seq<Reply> := [];
      var i := 0;
      ThenEnds([], pos, ParseMany(buf, pos, cnt));
      while i < cnt
        invariant code == Success && 0 <= i <= cnt && |elements| == i && old(pos) < start <= pos <= |buf|
        invariant ParseMany(buf, start, cnt) == Then(elements, ParseMany(buf, pos, cnt - i))
      {
        ghost var at := pos;
        var r;
        code, r := ReadOne();
        if code != Success {
          assert ParseMany(buf, at, cnt - i) == if code == Short then NeedMore else Malformed;
          return code, Nil;
        }
        ThenCons(elements, r, ParseMany(buf, pos, cnt - i - 1));
        elements := elements + [r];
        i := i + 1;
      }
      ThenEnds(elements, pos, NeedMore);
      out := Array(elements);
    }
  }

  /** The elements read so far, followed by whatever comes next. */
  function Then(rs: seq<Reply>, r: Parsed<seq<Reply>>): Parsed<seq<Reply>> {
    match r
    case Got(more, p) => Got(rs + more, p)
    case NeedMore => NeedMore
    case Malformed => Malformed
  }

  lemma ThenEnds(rs: seq<Reply>, pos: nat, r: Parsed<seq<Reply>>)
    ensures Then(rs, Got([], pos)) == Got(rs, pos) && Then([], r) == r
  {
    assert rs + [] == rs;
    if r.Got? {
      assert [] + r.value == r.value;
    }
  }

  lemma ThenCons(rs: seq<Reply>, e: Reply, r: Parsed<seq<Reply>>)
    ensures Then(rs, Then([e], r)) == Then(rs + [e], r)
  {
    if r.Got? {
      assert rs + ([e] + r.value) == rs + [e] + r.value;
    }
  }

  // ---------------------------------------------------------- reading a reply

  /** What one receive brings: bytes, none of them if the peer has closed, or an error,
      a time-out included. */
  datatype Received = Data(bytes: Bytes) | Failed(code: int)

  datatype Outcome = Answer(reply: Reply) | Protocol | Closed | Broken(code: int)

  predicate Ends(r: Received) { r.Failed? || r.bytes == [] }

  /** The bytes that arrive before the end. */
  function Stream(received: seq<Received>): Bytes {
    if received == [] || Ends(received[0]) then [] else received[0].bytes + Stream(received[1..])
  }

  /** How it ends; after the last receive the peer has closed. */
  function Ending(received: seq<Received>): Outcome {
    if received == [] then Closed
    else match received[0]
      case Failed(code) => Broken(code)
      case Data(bytes) => if bytes == [] then Closed else Ending(received[1..])
  }

  /** What a stream of bytes and its end mean to read_reply. */
  function Verdict(stream: Bytes, ending: Outcome): Outcome {
    match ParseOne(stream, 0)
    case Got(r, _) => Answer(r)
    case NeedMore => ending
    case Malformed => Protocol
  }

  /** Feeds the bytes as they arrive, one receive after another, until the parser
      has a verdict or the stream ends.  The answer depends on the bytes and the end alone,
      not on where they were split. */
  method ReadReply(received: seq<Received>) returns (outcome: Outcome)
    ensures outcome == Verdict(Stream(received), Ending(received))
  {
    var rbuf: Bytes := [];
    var i := 0;
    assert received[0..] == received && rbuf + Stream(received) == Stream(received);
    while true
      invariant 0 <= i <= |received| && rbuf + Stream(received[i..]) == Stream(received)
      invariant Ending(received[i..]) == Ending(received)
      decreases |received| - i
    {
      var p := new Parser(rbuf);
      var code, r := p.ReadOne();
      if code != Short {
        ParseOneAppend(rbuf, Stream(received[i..]), 0);
        return if code == Success then Answer(r) else Protocol;
      }
      if i == |received| {
        assert rbuf == Stream(received);
        return Closed;
      }
      if received[i].Failed? {
        assert rbuf == Stream(received);
        return Broken(received[i].code);
      }
      if received[i].bytes == [] {
        assert rbuf == Stream(received);
        return Closed;
      }
      assert rbuf + Stream(received[i..]) == rbuf + received[i].bytes + Stream(received[i + 1..]);
      rbuf := rbuf + received[i].bytes;
      i := i + 1;
    }
  }

  /** An answer is what the bytes received spell; a protocol error is a broken stream. */
  lemma AnswerIffSpelled(received: seq<Received>, r: Reply)
    ensures var stream, verdict := Stream(received), Verdict(Stream(received), Ending(received));
            && (verdict == Answer(r) <==> exists p: nat :: Spells(stream, 0, p, r))
            && (verdict == Protocol <==> Ruined(stream, 0))
  {
    var stream := Stream(received);
    RefusedIffRuined(stream, 0);
    var one := ParseOne(stream, 0);
    EndingIsNoAnswer(received);
    if one.Got? {
      ReadIffSpelled(stream, 0, one.value, one.pos);
    }
    if p: nat :| Spells(stream, 0, p, r) {
      ReadIffSpelled(stream, 0, r, p);
    }
  }

  lemma {:induction false} EndingIsNoAnswer(received: seq<Received>)
    ensures Ending(received) == Closed || Ending(received).Broken?
    decreases |received|
  {
    if received != [] {
      EndingIsNoAnswer(received[1..]);
    }
  }

  /** A reply sent whole is answered as such, however it is split, whatever follows it and
      however the stream ends. */
  lemma AnsweredWhole(received: seq<Received>, r: Reply, rest: Bytes)
    requires Stream(received) == Encode(r) + rest && WellFormed(r)
    ensures Verdict(Stream(received), Ending(received)) == Answer(r)
  {
    RoundTrip(Encode(r) + rest, 0, r);
  }
}
