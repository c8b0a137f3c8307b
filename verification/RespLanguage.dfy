/** What the bytes of RESP2 mean, told without the parser. */
module RespLanguage {
  // A reply is spelled by the bytes between two positions of a stream; a stream is
  // broken at a position if no further bytes can make a reply of what is there.
  // The parser is proved to tell exactly this.
  import opened Collections
  import opened Resp

  // ----------------------------------------------------------------- numbers

  /** The value of decimal digits. */
  function Value(s: Bytes): int {
    if s == [] then 0 else Value(s[..|s| - 1]) * 10 + (s[|s| - 1] as int - '0' as int)
  }

  ghost predicate AllDigits(s: Bytes) {
    s != [] && forall c :: c in s ==> IsDigit(c)
  }

  /** At least one digit, perhaps behind a minus. */
  ghost predicate IsNumber(line: Bytes, v: int) {
    || (AllDigits(line) && v == Value(line))
    || (line != [] && line[0] == '-' && AllDigits(line[1..]) && v == -Value(line[1..]))
  }

  ghost predicate NoNumber(line: Bytes) {
    !AllDigits(line) && !(line != [] && line[0] == '-' && AllDigits(line[1..]))
  }

  lemma {:induction false} DigitsAll(s: Bytes, acc: int)
    ensures Digits(s, acc).0 <==> forall c :: c in s ==> IsDigit(c)
    decreases |s|
  {
    if s != [] {
      DigitsAll(s[1..], acc * 10 + (s[0] as int - '0' as int));
      assert forall c :: c in s <==> c == s[0] || c in s[1..];
    }
  }

  lemma {:induction false} DigitsValue(s: Bytes)
    requires forall c :: c in s ==> IsDigit(c)
    ensures Digits(s, 0) == (true, Value(s))
    decreases |s|
  {
    if s != [] {
      var init, last := s[..|s| - 1], s[|s| - 1];
      assert s == init + [last];
      DigitsValue(init);
      DigitsAppend(init, last, 0);
    }
  }

  lemma NumberIff(line: Bytes)
    ensures ParseInt(line).0 ==> IsNumber(line, ParseInt(line).1)
    ensures !ParseInt(line).0 <==> NoNumber(line)
    ensures forall v :: IsNumber(line, v) ==> ParseInt(line) == (true, v)
  {
    DigitsAll(line, 0);
    if AllDigits(line) {
      DigitsValue(line);
    }
    if line != [] {
      DigitsAll(line[1..], 0);
      if AllDigits(line[1..]) {
        DigitsValue(line[1..]);
      }
      assert line[0] in line;
    }
  }

  // ------------------------------------------------------------------- lines

  /** The line from `pos` ends at `e`: the first CRLF is there. */
  ghost predicate LineTo(buf: Bytes, pos: nat, e: nat) {
    pos <= e && e + 2 <= |buf| && buf[e..e + 2] == CRLF && OneLine(buf[pos..e])
  }

  lemma LineIff(buf: Bytes, pos: nat, e: nat)
    requires pos <= |buf| && e < |buf|
    ensures FindCrlf(buf, pos) == e <==> LineTo(buf, pos, e)
  {
    if LineTo(buf, pos, e) {
      var t := buf[pos..e];
      assert buf[pos..pos + |t + CRLF|] == t + CRLF;
      LineFound(buf, pos, t);
    }
    if FindCrlf(buf, pos) == e {
      forall k | 0 <= k < |buf[pos..e]| ensures !IsCrlf(buf[pos..e], k) {
        assert !IsCrlf(buf, pos + k);
      }
      assert buf[e..e + 2] == [buf[e], buf[e + 1]];
    }
  }

  ghost predicate NumberTo(buf: Bytes, pos: nat, p: nat, v: int) {
    2 <= p && LineTo(buf, pos, p - 2) && IsNumber(buf[pos..p - 2], v)
  }

  ghost predicate NegativeTo(buf: Bytes, pos: nat, p: nat) {
    exists v :: v < 0 && NumberTo(buf, pos, p, v)
  }

  /** A length, that many bytes, and any two more. */
  ghost predicate BulkTo(buf: Bytes, pos: nat, p: nat, t: Bytes)
    requires p <= |buf|
  {
    exists q: nat :: NumberTo(buf, pos, q, |t|) && p == q + |t| + 2 && buf[q..q + |t|] == t
  }

  /** A whole line that should be a number and is none. */
  ghost predicate BadNumber(buf: Bytes, pos: nat) {
    exists e: nat :: LineTo(buf, pos, e) && NoNumber(buf[pos..e])
  }

  lemma NumberToIff(buf: Bytes, pos: nat, p: nat, v: int)
    requires pos <= |buf|
    ensures ParseNumber(buf, pos) == Got(v, p) <==> NumberTo(buf, pos, p, v)
  {
    var e := FindCrlf(buf, pos);
    if e < |buf| {
      LineIff(buf, pos, e);
      NumberIff(buf[pos..e]);
    }
    if NumberTo(buf, pos, p, v) {
      LineIff(buf, pos, p - 2);
    }
  }

  lemma BadNumberIff(buf: Bytes, pos: nat)
    requires pos <= |buf|
    ensures ParseNumber(buf, pos) == Malformed <==> BadNumber(buf, pos)
  {
    var e := FindCrlf(buf, pos);
    if e < |buf| {
      LineIff(buf, pos, e);
      NumberIff(buf[pos..e]);
    }
    if d: nat :| LineTo(buf, pos, d) && NoNumber(buf[pos..d]) {
      LineIff(buf, pos, d);
    }
  }

  // ----------------------------------------------------------------- replies

  /** The bytes from `pos` to `p` spell the reply.  Both `$` and `*` with a negative
      number spell the nil reply; the two bytes behind bulk data may be any. */
  ghost predicate Spells(buf: Bytes, pos: nat, p: nat, r: Reply)
    decreases r, 0
  {
    pos < p <= |buf| &&
    match r
    case Status(t) => buf[pos] == '+' && 2 <= p && LineTo(buf, pos + 1, p - 2) && buf[pos + 1..p - 2] == t
    case Error(t) => buf[pos] == '-' && 2 <= p && LineTo(buf, pos + 1, p - 2) && buf[pos + 1..p - 2] == t
    case Integer(v) => buf[pos] == ':' && NumberTo(buf, pos + 1, p, v)
    case Nil => (buf[pos] == '$' || buf[pos] == '*') && NegativeTo(buf, pos + 1, p)
    case Bulk(t) => buf[pos] == '$' && BulkTo(buf, pos + 1, p, t)
    case Array(es) => buf[pos] == '*' && exists q: nat :: NumberTo(buf, pos + 1, q, |es|) && SpellAll(buf, q, p, es)
  }

  ghost predicate SpellAll(buf: Bytes, pos: nat, p: nat, es: seq<Reply>)
    decreases es, 1
  {
    if es == [] then pos == p
    else exists q: nat :: Spells(buf, pos, q, es[0]) && SpellAll(buf, q, p, es[1..])
  }

  lemma NilIsRead(buf: Bytes, pos: nat, p: nat)
    requires Spells(buf, pos, p, Nil)
    ensures ParseOne(buf, pos) == Got(Nil, p)
  {
    var v :| v < 0 && NumberTo(buf, pos + 1, p, v);
    NumberToIff(buf, pos + 1, p, v);
  }

  lemma BulkIsRead(buf: Bytes, pos: nat, p: nat, t: Bytes)
    requires Spells(buf, pos, p, Bulk(t))
    ensures ParseOne(buf, pos) == Got(Bulk(t), p)
  {
    var q: nat :| NumberTo(buf, pos + 1, q, |t|) && p == q + |t| + 2 && buf[q..q + |t|] == t;
    NumberToIff(buf, pos + 1, q, |t|);
  }

  lemma LineIsRead(buf: Bytes, pos: nat, p: nat, r: Reply)
    requires Spells(buf, pos, p, r) && (r.Status? || r.Error? || r.Integer?)
    ensures ParseOne(buf, pos) == Got(r, p)
  {
    if r.Integer? {
      NumberToIff(buf, pos + 1, p, r.value);
    } else {
      LineIff(buf, pos + 1, p - 2);
    }
  }

  /** A count line and the verdict on what follows it. */
  lemma ArrayIsRead(buf: Bytes, pos: nat, q: nat, cnt: nat)
    requires pos < |buf| && buf[pos] == '*' && NumberTo(buf, pos + 1, q, cnt)
    ensures q <= |buf|
    ensures match ParseMany(buf, q, cnt)
            case Got(es, p) => ParseOne(buf, pos) == Got(Array(es), p)
            case NeedMore => ParseOne(buf, pos) == NeedMore
            case Malformed => ParseOne(buf, pos) == Malformed
  {
    NumberToIff(buf, pos + 1, q, cnt);
  }

  /** The bytes spell: the parser reads them so. */
  lemma {:induction false} SpelledIsRead(buf: Bytes, pos: nat, p: nat, r: Reply)
    requires Spells(buf, pos, p, r)
    ensures ParseOne(buf, pos) == Got(r, p)
    decreases r, 0
  {
    match r
    case Nil => NilIsRead(buf, pos, p);
    case Bulk(t) => BulkIsRead(buf, pos, p, t);
    case Array(es) =>
      var q: nat :| NumberTo(buf, pos + 1, q, |es|) && SpellAll(buf, q, p, es);
      ArrayIsRead(buf, pos, q, |es|);
      AllSpelledIsRead(buf, q, p, es);
    case _ => LineIsRead(buf, pos, p, r);
  }

  lemma {:induction false} AllSpelledIsRead(buf: Bytes, pos: nat, p: nat, es: seq<Reply>)
    requires pos <= |buf| && SpellAll(buf, pos, p, es)
    ensures ParseMany(buf, pos, |es|) == Got(es, p)
    decreases es, 1
  {
    if es != [] {
      var q: nat :| Spells(buf, pos, q, es[0]) && SpellAll(buf, q, p, es[1..]);
      SpelledIsRead(buf, pos, q, es[0]);
      AllSpelledIsRead(buf, q, p, es[1..]);
      assert [es[0]] + es[1..] == es;
    }
  }

  lemma LineIsSpelled(buf: Bytes, pos: nat)
    requires pos < |buf| && buf[pos] in ['+', '-', ':'] && ParseOne(buf, pos).Got?
    ensures var r := ParseOne(buf, pos); Spells(buf, pos, r.pos, r.value)
  {
    var r := ParseOne(buf, pos);
    if buf[pos] == ':' {
      NumberToIff(buf, pos + 1, r.pos, r.value.value);
    } else {
      LineIff(buf, pos + 1, FindCrlf(buf, pos + 1));
    }
  }

  lemma NilIsSpelled(buf: Bytes, pos: nat)
    requires pos < |buf| && (buf[pos] == '$' || buf[pos] == '*')
    requires var n := ParseNumber(buf, pos + 1); n.Got? && n.value < 0
    ensures var r := ParseOne(buf, pos); r.Got? && Spells(buf, pos, r.pos, r.value)
  {
    var n := ParseNumber(buf, pos + 1);
    NumberToIff(buf, pos + 1, n.pos, n.value);
    assert NegativeTo(buf, pos + 1, n.pos);
  }

  lemma BulkIsSpelled(buf: Bytes, pos: nat)
    requires pos < |buf| && buf[pos] == '$' && ParseOne(buf, pos).Got?
    requires var n := ParseNumber(buf, pos + 1); n.Got? && n.value >= 0
    ensures var r := ParseOne(buf, pos); Spells(buf, pos, r.pos, r.value)
  {
    var n, r := ParseNumber(buf, pos + 1), ParseOne(buf, pos);
    NumberToIff(buf, pos + 1, n.pos, n.value);
    assert r.value.Bulk? && |r.value.text| == n.value;
    assert BulkTo(buf, pos + 1, r.pos, r.value.text);
  }

  lemma ArrayIsSpelled(buf: Bytes, pos: nat, q: nat, p: nat, es: seq<Reply>)
    requires pos < |buf| && buf[pos] == '*' && ParseNumber(buf, pos + 1) == Got(|es|, q)
    requires ParseOne(buf, pos) == Got(Array(es), p) && SpellAll(buf, q, p, es)
    ensures Spells(buf, pos, p, Array(es))
  {
    NumberToIff(buf, pos + 1, q, |es|);
  }

  /** And what it reads is spelled. */
  lemma {:induction false} ReadIsSpelled(buf: Bytes, pos: nat)
    requires pos <= |buf| && ParseOne(buf, pos).Got?
    ensures var r := ParseOne(buf, pos); Spells(buf, pos, r.pos, r.value)
    decreases |buf| - pos, 0, 0
  {
    if buf[pos] in ['+', '-', ':'] {
      LineIsSpelled(buf, pos);
    } else {
      var n := ParseNumber(buf, pos + 1);
      if n.value < 0 {
        NilIsSpelled(buf, pos);
      } else if buf[pos] == '$' {
        BulkIsSpelled(buf, pos);
      } else {
        AllReadIsSpelled(buf, n.pos, n.value);
        var many := ParseMany(buf, n.pos, n.value);
        ArrayIsSpelled(buf, pos, n.pos, many.pos, many.value);
      }
    }
  }

  lemma {:induction false} AllReadIsSpelled(buf: Bytes, pos: nat, cnt: nat)
    requires pos <= |buf| && ParseMany(buf, pos, cnt).Got?
    ensures var r := ParseMany(buf, pos, cnt); SpellAll(buf, pos, r.pos, r.value)
    decreases |buf| - pos, 1, cnt
  {
    if cnt > 0 {
      ReadIsSpelled(buf, pos);
      var one := ParseOne(buf, pos);
      AllReadIsSpelled(buf, one.pos, cnt - 1);
      var rest := ParseMany(buf, one.pos, cnt - 1);
      assert ([one.value] + rest.value)[1..] == rest.value;
    }
  }

  /** The parser answers a reply and a position if and only if the bytes up to there spell
      that reply, anywhere in any stream. */
  lemma ReadIffSpelled(buf: Bytes, pos: nat, r: Reply, p: nat)
    requires pos <= |buf|
    ensures ParseOne(buf, pos) == Got(r, p) <==> Spells(buf, pos, p, r)
  {
    if ParseOne(buf, pos) == Got(r, p) {
      ReadIsSpelled(buf, pos);
    }
    if Spells(buf, pos, p, r) {
      SpelledIsRead(buf, pos, p, r);
    }
  }

  // ---------------------------------------------------------- protocol errors

  /** An unknown type byte, a line that is no number where one belongs, or an array broken
      at an element that is reached. */
  ghost predicate Ruined(buf: Bytes, pos: nat)
    decreases |buf| - pos
  {
    pos < |buf| &&
    (|| buf[pos] !in ['+', '-', ':', '$', '*']
     || (buf[pos] in [':', '$', '*'] && BadNumber(buf, pos + 1))
     || (buf[pos] == '*' && exists q: nat, cnt: nat, k: nat ::
           NumberTo(buf, pos + 1, q, cnt) && pos < k <= |buf| && Reaches(buf, q, k, cnt) && Ruined(buf, k)))
  }

  /** Fewer than `cnt` replies are spelled from `pos` to `k`. */
  ghost predicate Reaches(buf: Bytes, pos: nat, k: nat, cnt: nat) {
    exists es :: |es| < cnt && SpellAll(buf, pos, k, es)
  }

  lemma ReachesFirst(buf: Bytes, pos: nat, cnt: nat)
    requires 0 < cnt
    ensures Reaches(buf, pos, pos, cnt)
  {
    var none: seq<Reply> := [];
    assert SpellAll(buf, pos, pos, none);
  }

  lemma ReachesMore(buf: Bytes, pos: nat, q: nat, k: nat, cnt: nat, r: Reply)
    requires Spells(buf, pos, q, r) && Reaches(buf, q, k, cnt)
    ensures Reaches(buf, pos, k, cnt + 1)
  {
    var es :| |es| < cnt && SpellAll(buf, q, k, es);
    assert ([r] + es)[1..] == es && ([r] + es)[0] == r;
    assert SpellAll(buf, pos, k, [r] + es);
  }

  lemma {:induction false} RefusedIsRuined(buf: Bytes, pos: nat)
    requires pos <= |buf| && ParseOne(buf, pos) == Malformed
    ensures Ruined(buf, pos)
    decreases |buf| - pos, 0, 0
  {
    if buf[pos] in [':', '$', '*'] {
      BadNumberIff(buf, pos + 1);
      if buf[pos] == '*' && ParseNumber(buf, pos + 1).Got? {
        var n := ParseNumber(buf, pos + 1);
        NumberToIff(buf, pos + 1, n.pos, n.value);
        var k := ManyRefused(buf, n.pos, n.value);
      }
    }
  }

  lemma {:induction false} ManyRefused(buf: Bytes, pos: nat, cnt: nat) returns (k: nat)
    requires pos <= |buf| && ParseMany(buf, pos, cnt) == Malformed
    ensures pos <= k <= |buf| && Reaches(buf, pos, k, cnt) && Ruined(buf, k)
    decreases |buf| - pos, 1, cnt
  {
    var one := ParseOne(buf, pos);
    if one == Malformed {
      k := pos;
      ReachesFirst(buf, pos, cnt);
      RefusedIsRuined(buf, pos);
    } else {
      ReadIsSpelled(buf, pos);
      k := ManyRefused(buf, one.pos, cnt - 1);
      ReachesMore(buf, pos, one.pos, k, cnt - 1, one.value);
    }
  }

  lemma {:induction false} RuinedIsRefused(buf: Bytes, pos: nat)
    requires Ruined(buf, pos)
    ensures ParseOne(buf, pos) == Malformed
    decreases |buf| - pos
  {
    if buf[pos] in [':', '$', '*'] {
      BadNumberIff(buf, pos + 1);
      if !BadNumber(buf, pos + 1) {
        var q: nat, cnt: nat, k: nat :|
          NumberTo(buf, pos + 1, q, cnt) && pos < k <= |buf| && Reaches(buf, q, k, cnt) && Ruined(buf, k);
        ArrayIsRead(buf, pos, q, cnt);
        RuinedIsRefused(buf, k);
        var es :| |es| < cnt && SpellAll(buf, q, k, es);
        ReachedIsRefused(buf, q, k, cnt, es);
      }
    }
  }

  lemma {:induction false} ReachedIsRefused(buf: Bytes, pos: nat, k: nat, cnt: nat, es: seq<Reply>)
    requires pos <= |buf| && k <= |buf| && |es| < cnt && SpellAll(buf, pos, k, es) && ParseOne(buf, k) == Malformed
    ensures ParseMany(buf, pos, cnt) == Malformed
    decreases |es|
  {
    if es != [] {
      var q: nat :| Spells(buf, pos, q, es[0]) && SpellAll(buf, q, k, es[1..]);
      SpelledIsRead(buf, pos, q, es[0]);
      ReachedIsRefused(buf, q, k, cnt - 1, es[1..]);
    }
  }

  /** The parser reports a protocol error if and only if the stream is broken there; and
      it asks for more bytes if and only if it is neither broken nor begins with a
      reply. */
  lemma RefusedIffRuined(buf: Bytes, pos: nat)
    requires pos <= |buf|
    ensures ParseOne(buf, pos) == Malformed <==> Ruined(buf, pos)
    ensures ParseOne(buf, pos) == NeedMore <==> !Ruined(buf, pos) && forall r, p :: !Spells(buf, pos, p, r)
  {
    if ParseOne(buf, pos) == Malformed {
      RefusedIsRuined(buf, pos);
    }
    if Ruined(buf, pos) {
      RuinedIsRefused(buf, pos);
    }
    forall r, p ensures Spells(buf, pos, p, r) <==> ParseOne(buf, pos) == Got(r, p) {
      ReadIffSpelled(buf, pos, r, p);
    }
    var one := ParseOne(buf, pos);
    if one.Got? {
      assert Spells(buf, pos, one.pos, one.value);
    }
  }

  // --------------------------------------------------- what a header means

  /** A negative count or length, printed anywhere in a stream, is the nil reply, and takes
      exactly its line. */
  lemma NegativeIsNil(buf: Bytes, pos: nat, tag: char, v: int)
    requires v < 0 && (tag == '$' || tag == '*') && Stands(buf, pos, [tag] + (Signed(v) + CRLF))
    ensures ParseOne(buf, pos) == Got(Nil, pos + |Signed(v)| + 3)
    ensures Spells(buf, pos, pos + |Signed(v)| + 3, Nil)
  {
    Tag(buf, pos, tag, Signed(v) + CRLF);
    NumberFound(buf, pos + 1, v);
    NilIsSpelled(buf, pos);
    var p := pos + |Signed(v)| + 3;
    assert ParseOne(buf, pos) == Got(Nil, p);
  }

  lemma BadLine(buf: Bytes, pos: nat, line: Bytes)
    requires pos <= |buf| && Stands(buf, pos, line + CRLF) && OneLine(line) && NoNumber(line)
    ensures ParseNumber(buf, pos) == Malformed
  {
    LineFound(buf, pos, line);
    NumberIff(line);
  }

  /** An unknown type byte, or a whole line that is no number behind a type byte that wants
      one, is a protocol error, whatever follows. */
  lemma BadHeader(buf: Bytes, pos: nat, line: Bytes)
    requires pos < |buf|
    requires || buf[pos] !in ['+', '-', ':', '$', '*']
             || (buf[pos] in [':', '$', '*'] && Stands(buf, pos + 1, line + CRLF) && OneLine(line) && NoNumber(line))
    ensures ParseOne(buf, pos) == Malformed
  {
    if buf[pos] in [':', '$', '*'] {
      BadLine(buf, pos + 1, line);
    }
  }
}
