/** RESP2: the request serializer and the incremental recursive-descent parser of
    the Redis client. */
module Resp {

  import opened Collections

  const CRLF: Bytes := "\r\n"

  /** A reply; an error keeps its text, as the client stores it. */
  datatype Reply =
    | Status(text: Bytes)
    | Error(text: Bytes)
    | Integer(value: int)
    | Bulk(text: Bytes)
    | Nil
    | Array(elements: seq<Reply>)

  /** The verdict of parse_one: enough and well-formed, not enough yet, or a
      protocol error. */
  datatype Parsed<T> = Got(value: T, pos: nat) | NeedMore | Malformed

  // ------------------------------------------------------------ the grammar

  predicate IsCrlf(buf: Bytes, k: nat) {
    k + 2 <= |buf| && buf[k] == '\r' && buf[k + 1] == '\n'
  }

  /** The first CRLF at or after `pos`; |buf| if there is none. */
  function FindCrlf(buf: Bytes, pos: nat): (p: nat)
    requires pos <= |buf|
    ensures pos <= p <= |buf|
    ensures p < |buf| ==> IsCrlf(buf, p)
    ensures forall k :: pos <= k < p ==> !IsCrlf(buf, k)
    decreases |buf| - pos
  {
    if pos == |buf| || IsCrlf(buf, pos) then pos else FindCrlf(buf, pos + 1)
  }

  predicate IsDigit(c: char) { '0' <= c <= '9' }

  function Digits(s: Bytes, acc: int): (r: (bool, int))
    decreases |s|
  {
    if s == [] then (true, acc)
    else if !IsDigit(s[0]) then (false, 0)
    else Digits(s[1..], acc * 10 + (s[0] as int - '0' as int))
  }

  /** parse_int: an optional minus and at least one digit. */
  function ParseInt(s: Bytes): (bool, int) {
    if s == [] then (false, 0)
    else if s[0] == '-' then
      if |s| == 1 then (false, 0)
      else var (ok, v) := Digits(s[1..], 0); (ok, -v)
    else Digits(s, 0)
  }

  /** A line that holds a number, and the position after it. */
  function ParseNumber(buf: Bytes, pos: nat): (r: Parsed<int>)
    requires pos <= |buf|
    ensures r.Got? ==> pos < r.pos <= |buf|
  {
    var e := FindCrlf(buf, pos);
    if e == |buf| then NeedMore
    else
      var (ok, v) := ParseInt(buf[pos..e]);
      if ok then Got(v, e + 2) else Malformed
  }

  function ParseOne(buf: Bytes, pos: nat): (r: Parsed<Reply>)
    requires pos <= |buf|
    ensures r.Got? ==> pos < r.pos <= |buf|
    decreases |buf| - pos, 0, 0
  {
    if pos == |buf| then NeedMore
    else
      match buf[pos]
      case '+' => ParseLine(buf, pos + 1, false)
      case '-' => ParseLine(buf, pos + 1, true)
      case ':' => ParseInteger(buf, pos + 1)
      case '$' => ParseBulk(buf, pos + 1)
      case '*' => ParseArray(buf, pos + 1)
      case _ => Malformed
  }

  function ParseInteger(buf: Bytes, pos: nat): (r: Parsed<Reply>)
    requires pos <= |buf|
    ensures r.Got? ==> pos < r.pos <= |buf|
  {
    match ParseNumber(buf, pos)
    case Got(v, p) => Got(Integer(v), p)
    case NeedMore => NeedMore
    case Malformed => Malformed
  }

  /** The data is taken by its length, whatever it contains; the two bytes after
      it are skipped unseen. */
  function ParseBulk(buf: Bytes, pos: nat): (r: Parsed<Reply>)
    requires pos <= |buf|
    ensures r.Got? ==> pos < r.pos <= |buf|
  {
    match ParseNumber(buf, pos)
    case Got(len, p) =>
      if len < 0 then Got(Nil, p)
      else if |buf| - p < len + 2 then NeedMore
      else Got(Bulk(buf[p..p + len]), p + len + 2)
    case NeedMore => NeedMore
    case Malformed => Malformed
  }

  function ParseArray(buf: Bytes, pos: nat): (r: Parsed<Reply>)
    requires pos <= |buf|
    ensures r.Got? ==> pos < r.pos <= |buf|
    decreases |buf| - pos, 2, 0
  {
    match ParseNumber(buf, pos)
    case Got(cnt, p) =>
      if cnt < 0 then Got(Nil, p)
      else
        (match ParseMany(buf, p, cnt)
         case Got(rs, q) => Got(Array(rs), q)
         case NeedMore => NeedMore
         case Malformed => Malformed)
    case NeedMore => NeedMore
    case Malformed => Malformed
  }

  function ParseLine(buf: Bytes, pos: nat, error: bool): (r: Parsed<Reply>)
    requires pos <= |buf|
    ensures r.Got? ==> pos < r.pos <= |buf|
  {
    var e := FindCrlf(buf, pos);
    if e == |buf| then NeedMore
    else Got(if error then Error(buf[pos..e]) else Status(buf[pos..e]), e + 2)
  }

  function ParseMany(buf: Bytes, pos: nat, cnt: nat): (r: Parsed<seq<Reply>>)
    requires pos <= |buf|
    ensures r.Got? ==> pos <= r.pos <= |buf| && |r.value| == cnt
    decreases |buf| - pos, 1, cnt
  {
    if cnt == 0 then Got([], pos)
    else
      match ParseOne(buf, pos)
      case Got(r, p) =>
        (match ParseMany(buf, p, cnt - 1)
         case Got(rs, q) => Got([r] + rs, q)
         case NeedMore => NeedMore
         case Malformed => Malformed)
      case NeedMore => NeedMore
      case Malformed => Malformed
  }

  // ------------------------------------------------- appending bytes

  lemma {:induction false} FindCrlfAppend(buf: Bytes, ext: Bytes, pos: nat)
    requires pos <= |buf| && FindCrlf(buf, pos) < |buf|
    ensures FindCrlf(buf + ext, pos) == FindCrlf(buf, pos)
    decreases |buf| - pos
  {
    if !IsCrlf(buf, pos) {
      FindCrlfAppend(buf, ext, pos + 1);
    }
  }

  lemma ParseNumberAppend(buf: Bytes, ext: Bytes, pos: nat)
    requires pos <= |buf| && ParseNumber(buf, pos) != NeedMore
    ensures ParseNumber(buf + ext, pos) == ParseNumber(buf, pos)
  {
    FindCrlfAppend(buf, ext, pos);
    var e := FindCrlf(buf, pos);
    assert (buf + ext)[pos..e] == buf[pos..e];
  }

  lemma ParseLineAppend(buf: Bytes, ext: Bytes, pos: nat, error: bool)
    requires pos <= |buf| && ParseLine(buf, pos, error) != NeedMore
    ensures ParseLine(buf + ext, pos, error) == ParseLine(buf, pos, error)
  {
    FindCrlfAppend(buf, ext, pos);
    var e := FindCrlf(buf, pos);
    assert (buf + ext)[pos..e] == buf[pos..e];
  }

  lemma ParseBulkAppend(buf: Bytes, ext: Bytes, pos: nat)
    requires pos <= |buf| && ParseBulk(buf, pos) != NeedMore
    ensures ParseBulk(buf + ext, pos) == ParseBulk(buf, pos)
  {
    ParseNumberAppend(buf, ext, pos);
    var n := ParseNumber(buf, pos);
    if n.Got? && n.value >= 0 {
      assert (buf + ext)[n.pos..n.pos + n.value] == buf[n.pos..n.pos + n.value];
    }
  }

  /** A verdict, good or bad, is final: more bytes change neither the reply nor
      the position. */
  lemma {:induction false} ParseOneAppend(buf: Bytes, ext: Bytes, pos: nat)
    requires pos <= |buf| && ParseOne(buf, pos) != NeedMore
    ensures ParseOne(buf + ext, pos) == ParseOne(buf, pos)
    decreases |buf| - pos, 0, 0
  {
    assert (buf + ext)[pos] == buf[pos];
    match buf[pos]
    case '+' => ParseLineAppend(buf, ext, pos + 1, false);
    case '-' => ParseLineAppend(buf, ext, pos + 1, true);
    case ':' => ParseNumberAppend(buf, ext, pos + 1);
    case '$' => ParseBulkAppend(buf, ext, pos + 1);
    case '*' => ParseArrayAppend(buf, ext, pos + 1);
    case _ =>
  }

  lemma {:induction false} ParseArrayAppend(buf: Bytes, ext: Bytes, pos: nat)
    requires pos <= |buf| && ParseArray(buf, pos) != NeedMore
    ensures ParseArray(buf + ext, pos) == ParseArray(buf, pos)
    decreases |buf| - pos, 2, 0
  {
    ParseNumberAppend(buf, ext, pos);
    var n := ParseNumber(buf, pos);
    if n.Got? && n.value >= 0 {
      ParseManyAppend(buf, ext, n.pos, n.value);
    }
  }

  lemma {:induction false} ParseManyAppend(buf: Bytes, ext: Bytes, pos: nat, cnt: nat)
    requires pos <= |buf| && ParseMany(buf, pos, cnt) != NeedMore
    ensures ParseMany(buf + ext, pos, cnt) == ParseMany(buf, pos, cnt)
    decreases |buf| - pos, 1, cnt
  {
    if cnt > 0 {
      ParseOneAppend(buf, ext, pos);
      var r := ParseOne(buf, pos);
      if r.Got? {
        ParseManyAppend(buf, ext, r.pos, cnt - 1);
      }
    }
  }

  /** Every proper prefix of a well-formed reply needs more bytes. */
  lemma PrefixNeedsMore(buf: Bytes, k: nat)
    requires k < |buf| && ParseOne(buf, 0).Got? && ParseOne(buf, 0).pos == |buf|
    ensures ParseOne(buf[..k], 0) == NeedMore
  {
    assert buf[..k] + buf[k..] == buf;
    if ParseOne(buf[..k], 0) != NeedMore {
      ParseOneAppend(buf[..k], buf[k..], 0);
    }
  }

  // ------------------------------------------------- the reference encoding

  function Decimal(n: nat): (s: Bytes)
    ensures |s| > 0
  {
    var last := [('0' as int + n % 10) as char];
    if n < 10 then last else Decimal(n / 10) + last
  }

  lemma {:induction false} DecimalIsDigits(n: nat)
    ensures forall c :: c in Decimal(n) ==> IsDigit(c)
  {
    if n >= 10 { DecimalIsDigits(n / 10); }
  }

  /** No CRLF inside: what a status or error line may hold. */
  predicate OneLine(t: Bytes) {
    forall k :: 0 <= k < |t| ==> !IsCrlf(t, k)
  }

  predicate WellFormed(r: Reply) {
    match r
    case Status(t) => OneLine(t)
    case Error(t) => OneLine(t)
    case Array(es) => AllWellFormed(es)
    case _ => true
  }

  predicate AllWellFormed(es: seq<Reply>) {
    forall e :: e in es ==> WellFormed(e)
  }

  function Signed(v: int): Bytes {
    if v < 0 then "-" + Decimal(-v) else Decimal(v)
  }

  function Encode(r: Reply): Bytes {
    match r
    case Status(t) => "+" + (t + CRLF)
    case Error(t) => "-" + (t + CRLF)
    case Integer(v) => ":" + (Signed(v) + CRLF)
    case Bulk(t) => "$" + ((Signed(|t|) + CRLF) + (t + CRLF))
    case Nil => "$" + (Signed(-1) + CRLF)
    case Array(es) => "*" + ((Signed(|es|) + CRLF) + EncodeAll(es))
  }

  function EncodeAll(es: seq<Reply>): Bytes {
    if es == [] then [] else Encode(es[0]) + EncodeAll(es[1..])
  }

  /** `e` stands in `buf` at `pos`. */
  predicate Stands(buf: Bytes, pos: nat, e: Bytes) {
    pos + |e| <= |buf| && buf[pos..pos + |e|] == e
  }

  lemma StandsSplit(buf: Bytes, pos: nat, a: Bytes, b: Bytes)
    requires Stands(buf, pos, a + b)
    ensures Stands(buf, pos, a) && Stands(buf, pos + |a|, b)
  {
    var e := a + b;
    assert buf[pos..pos + |a|] == e[..|a|] == a;
    assert buf[pos + |a|..pos + |a| + |b|] == e[|a|..] == b;
  }

  lemma {:induction false} DigitsAppend(s: Bytes, c: char, acc: int)
    requires Digits(s, acc).0 && IsDigit(c)
    ensures Digits(s + [c], acc) == (true, Digits(s, acc).1 * 10 + (c as int - '0' as int))
    decreases |s|
  {
    if s != [] {
      assert (s + [c])[1..] == s[1..] + [c];
      DigitsAppend(s[1..], c, acc * 10 + (s[0] as int - '0' as int));
    }
  }

  lemma {:induction false} DecimalDigits(n: nat)
    ensures Digits(Decimal(n), 0) == (true, n)
  {
    var last := ('0' as int + n % 10) as char;
    if n < 10 {
      assert Digits([last][1..], n) == (true, n);
    } else {
      DecimalDigits(n / 10);
      DigitsAppend(Decimal(n / 10), last, 0);
    }
  }

  lemma ParseIntSigned(v: int)
    ensures ParseInt(Signed(v)) == (true, v) && OneLine(Signed(v))
  {
    if v < 0 {
      DecimalDigits(-v);
      DecimalIsDigits(-v);
      assert Signed(v)[1..] == Decimal(-v);
    } else {
      DecimalDigits(v);
      DecimalIsDigits(v);
      assert Decimal(v)[0] in Decimal(v);
    }
    forall k | 0 <= k < |Signed(v)| ensures !IsCrlf(Signed(v), k) {
      if v >= 0 || k > 0 {
        assert Signed(v)[k] in Decimal(if v < 0 then -v else v);
      }
    }
  }

  lemma Tag(buf: Bytes, pos: nat, c: char, rest: Bytes)
    requires Stands(buf, pos, [c] + rest)
    ensures pos < |buf| && buf[pos] == c && Stands(buf, pos + 1, rest)
  {
    StandsSplit(buf, pos, [c], rest);
    assert buf[pos..pos + 1][0] == c;
  }

  /** The end of a line that stands in the buffer is found where it is. */
  lemma LineFound(buf: Bytes, pos: nat, t: Bytes)
    requires Stands(buf, pos, t + CRLF) && OneLine(t)
    ensures FindCrlf(buf, pos) == pos + |t| < |buf| && buf[pos..pos + |t|] == t
  {
    StandsSplit(buf, pos, t, CRLF);
    var q := pos + |t|;
    assert buf[q] == buf[q..q + 2][0] && buf[q + 1] == buf[q..q + 2][1];
    assert IsCrlf(buf, q);
    forall k | pos <= k < q ensures !IsCrlf(buf, k) {
      assert !IsCrlf(t, k - pos);
      assert buf[k] == buf[pos..q][k - pos];
      if k + 1 < q { assert buf[k + 1] == buf[pos..q][k + 1 - pos]; }
    }
  }

  lemma NumberFound(buf: Bytes, pos: nat, v: int)
    requires Stands(buf, pos, Signed(v) + CRLF)
    ensures ParseNumber(buf, pos) == Got(v, pos + |Signed(v)| + 2)
  {
    ParseIntSigned(v);
    LineFound(buf, pos, Signed(v));
  }

  /** Whatever bytes the bulk string holds, CRLF included. */
  lemma BulkRoundTrip(buf: Bytes, pos: nat, t: Bytes)
    requires Stands(buf, pos, (Signed(|t|) + CRLF) + (t + CRLF))
    ensures ParseBulk(buf, pos) == Got(Bulk(t), pos + |(Signed(|t|) + CRLF) + (t + CRLF)|)
  {
    var head := Signed(|t|) + CRLF;
    StandsSplit(buf, pos, head, t + CRLF);
    StandsSplit(buf, pos + |head|, t, CRLF);
    NumberFound(buf, pos, |t|);
  }

  lemma ParseManyCons(buf: Bytes, pos: nat, n: nat, r: Reply, p: nat, rs: seq<Reply>, q: nat)
    requires pos <= |buf| && p <= |buf| && ParseOne(buf, pos) == Got(r, p) && ParseMany(buf, p, n) == Got(rs, q)
    ensures ParseMany(buf, pos, n + 1) == Got([r] + rs, q)
  {
  }

  /** A count line followed by as many replies. */
  lemma ParseArrayOf(buf: Bytes, pos: nat, n: nat, rest: Bytes, rs: seq<Reply>)
    requires Stands(buf, pos, (Signed(n) + CRLF) + rest)
    requires var p := pos + |Signed(n)| + 2; p + |rest| <= |buf| && ParseMany(buf, p, n) == Got(rs, p + |rest|)
    ensures ParseArray(buf, pos) == Got(Array(rs), pos + |(Signed(n) + CRLF) + rest|)
  {
    StandsSplit(buf, pos, Signed(n) + CRLF, rest);
    NumberFound(buf, pos, n);
  }

  /** The elements stand behind the count line. */
  lemma ElementsStand(buf: Bytes, pos: nat, n: nat, rest: Bytes)
    requires Stands(buf, pos, (Signed(n) + CRLF) + rest)
    ensures Stands(buf, pos + |Signed(n)| + 2, rest) && pos + |Signed(n)| + 2 + |rest| <= |buf|
  {
    StandsSplit(buf, pos, Signed(n) + CRLF, rest);
  }

  lemma {:induction false} ArrayRoundTrip(buf: Bytes, pos: nat, es: seq<Reply>)
    requires Stands(buf, pos, (Signed(|es|) + CRLF) + EncodeAll(es)) && AllWellFormed(es)
    ensures ParseArray(buf, pos) == Got(Array(es), pos + |(Signed(|es|) + CRLF) + EncodeAll(es)|)
    decreases es, 2
  {
    var rest, p := EncodeAll(es), pos + |Signed(|es|)| + 2;
    ElementsStand(buf, pos, |es|, rest);
    RoundTripAll(buf, p, es);
    ParseArrayOf(buf, pos, |es|, rest, es);
  }

  /** A status, an error, an integer or nil. */
  lemma LineRoundTrip(buf: Bytes, pos: nat, r: Reply)
    requires Stands(buf, pos, Encode(r)) && WellFormed(r) && !r.Bulk? && !r.Array?
    ensures ParseOne(buf, pos) == Got(r, pos + |Encode(r)|)
  {
    var tag, rest := Encode(r)[0], Encode(r)[1..];
    assert Encode(r) == [tag] + rest;
    Tag(buf, pos, tag, rest);
    match r
    case Status(t) => LineFound(buf, pos + 1, t);
    case Error(t) => LineFound(buf, pos + 1, t);
    case Integer(v) => NumberFound(buf, pos + 1, v);
    case Nil => NumberFound(buf, pos + 1, -1);
  }

  /** Every well-formed reply, at any place in a stream, parses back to itself and
      consumes exactly its own bytes. */
  lemma {:induction false} RoundTrip(buf: Bytes, pos: nat, r: Reply)
    requires Stands(buf, pos, Encode(r)) && WellFormed(r)
    ensures ParseOne(buf, pos) == Got(r, pos + |Encode(r)|)
    decreases r, 0
  {
    if r.Bulk? {
      var rest := (Signed(|r.text|) + CRLF) + (r.text + CRLF);
      assert Encode(r) == ['$'] + rest;
      Tag(buf, pos, '$', rest);
      BulkRoundTrip(buf, pos + 1, r.text);
    } else if r.Array? {
      var rest := (Signed(|r.elements|) + CRLF) + EncodeAll(r.elements);
      assert Encode(r) == ['*'] + rest;
      Tag(buf, pos, '*', rest);
      ArrayRoundTrip(buf, pos + 1, r.elements);
    } else {
      LineRoundTrip(buf, pos, r);
    }
  }

  lemma {:induction false} RoundTripAll(buf: Bytes, pos: nat, es: seq<Reply>)
    requires Stands(buf, pos, EncodeAll(es)) && AllWellFormed(es)
    ensures ParseMany(buf, pos, |es|) == Got(es, pos + |EncodeAll(es)|)
    decreases es, 1
  {
    if es == [] {
      assert ParseMany(buf, pos, 0) == Got([], pos);
    } else {
      var e, rest := es[0], es[1..];
      StandsSplit(buf, pos, Encode(e), EncodeAll(rest));
      RoundTrip(buf, pos, e);
      RoundTripAll(buf, pos + |Encode(e)|, rest);
      ParseManyCons(buf, pos, |rest|, e, pos + |Encode(e)|, rest, pos + |EncodeAll(es)|);
      assert [e] + rest == es;
    }
  }
}
