/** The flat JSON that sessions are stored in: an object of strings, and the array of
    strings that holds flash messages.  Characters stand for bytes.

    Section 7 of RFC 8259 gives the escapes of strings, sections 3 and 4 of RFC 3629
    the UTF-8 that a `u` escape stands for. */
module SessionJson {

  import opened Collections

  // ---------------------------------------------------------------- printing

  function HexDigit(v: nat): char
    requires v < 16
  {
    "0123456789abcdef"[v]
  }

  function EscapeChar(c: char): Bytes {
    if c == '"' then "\\\""
    else if c == '\\' then "\\\\"
    else if c == 8 as char then "\\b"
    else if c == 12 as char then "\\f"
    else if c == '\n' then "\\n"
    else if c == '\r' then "\\r"
    else if c == '\t' then "\\t"
    else if c < 32 as char then "\\u00" + [HexDigit(c as int / 16), HexDigit(c as int % 16)]
    else [c]
  }

  function EscapeAll(s: Bytes): Bytes {
    if s == [] then [] else EscapeChar(s[0]) + EscapeAll(s[1..])
  }

  function Quoted(s: Bytes): Bytes {
    "\"" + EscapeAll(s) + "\""
  }

  function Member(kv: (Bytes, Bytes)): Bytes {
    Quoted(kv.0) + ":" + Quoted(kv.1)
  }

  function Members(kvs: seq<(Bytes, Bytes)>): Bytes {
    if kvs == [] then "" else if |kvs| == 1 then Member(kvs[0]) else Member(kvs[0]) + "," + Members(kvs[1..])
  }

  function DumpObject(kvs: seq<(Bytes, Bytes)>): Bytes {
    "{" + Members(kvs) + "}"
  }

  function Items(v: seq<Bytes>): Bytes {
    if v == [] then "" else if |v| == 1 then Quoted(v[0]) else Quoted(v[0]) + "," + Items(v[1..])
  }

  function DumpArray(v: seq<Bytes>): Bytes {
    "[" + Items(v) + "]"
  }

  // ----------------------------------------------------------------- parsing
  //
  // Each function takes the bytes not yet read and gives back what is left of them.

  predicate IsWs(c: char) {
    c == ' ' || c == '\t' || c == '\n' || c == '\r'
  }

  /** White space skipped. */
  function Ws(s: Bytes): (r: Bytes)
    ensures |r| <= |s| && (r != [] ==> !IsWs(r[0]))
  {
    if s != [] && IsWs(s[0]) then Ws(s[1..]) else s
  }

  predicate Eats(s: Bytes, c: char) {
    Ws(s) != [] && Ws(s)[0] == c
  }

  /** What a call of Eat leaves, whether it ate or not. */
  function Ate(s: Bytes, c: char): (r: Bytes)
    ensures |r| <= |s| && (Eats(s, c) ==> |r| < |s|)
  {
    if Eats(s, c) then Ws(s)[1..] else Ws(s)
  }

  function HexValue(c: char): (v: Option<nat>)
    ensures v.Some? ==> v.value < 16
  {
    if '0' <= c <= '9' then Some(c as int - '0' as int)
    else if 'a' <= c <= 'f' then Some(c as int - 'a' as int + 10)
    else if 'A' <= c <= 'F' then Some(c as int - 'A' as int + 10)
    else None
  }

  /** Four hexadecimal digits. */
  function Hex4(s: Bytes): (v: Option<nat>)
    ensures v.Some? ==> 4 <= |s| && v.value < 0x10000
  {
    if |s| < 4 then None
    else
      match (HexValue(s[0]), HexValue(s[1]), HexValue(s[2]), HexValue(s[3]))
      case (Some(a), Some(b), Some(c), Some(d)) => Some(((a * 16 + b) * 16 + c) * 16 + d)
      case _ => None
  }

  const REPLACEMENT: nat := 0xFFFD

  predicate HighSurrogate(cp: nat) { 0xD800 <= cp <= 0xDBFF }
  predicate LowSurrogate(cp: nat) { 0xDC00 <= cp <= 0xDFFF }

  /** A Unicode scalar value. */
  predicate Scalar(cp: nat) { cp <= 0x10FFFF && !HighSurrogate(cp) && !LowSurrogate(cp) }

  function Joined(hi: nat, lo: nat): (cp: nat)
    requires HighSurrogate(hi) && LowSurrogate(lo)
    ensures 0x10000 <= cp <= 0x10FFFF
  {
    0x10000 + (hi - 0xD800) * 0x400 + (lo - 0xDC00)
  }

  /** The code point after a `\u`: a surrogate pair makes one code point, a lone
      surrogate the replacement character. */
  function CodePoint(s: Bytes): (r: Option<(nat, Bytes)>)
    ensures r.Some? ==> Scalar(r.value.0) && |r.value.1| < |s|
  {
    match Hex4(s)
    case None => None
    case Some(cp) =>
      var rest := s[4..];
      if HighSurrogate(cp) && |rest| >= 2 && rest[0] == '\\' && rest[1] == 'u' then
        match Hex4(rest[2..])
        case Some(lo) => if LowSurrogate(lo) then Some((Joined(cp, lo), rest[6..])) else Some((REPLACEMENT, rest))
        case None => Some((REPLACEMENT, rest))
      else if HighSurrogate(cp) || LowSurrogate(cp) then Some((REPLACEMENT, rest))
      else Some((cp, rest))
  }

  function Utf8(cp: nat): Bytes
    requires Scalar(cp)
  {
    if cp <= 0x7F then [cp as char]
    else if cp <= 0x7FF then [(0xC0 + cp / 0x40) as char, Low6(cp)]
    else if cp <= 0xFFFF then [(0xE0 + cp / 0x1000) as char, Low6(cp / 0x40), Low6(cp)]
    else [(0xF0 + cp / 0x40000) as char, Low6(cp / 0x1000), Low6(cp / 0x40), Low6(cp)]
  }

  /** A continuation byte with the low six bits of `v`. */
  function Low6(v: nat): char {
    (0x80 + v % 0x40) as char
  }

  function Simple(e: char): Option<char> {
    if e == '"' then Some('"')
    else if e == '\\' then Some('\\')
    else if e == '/' then Some('/')
    else if e == 'b' then Some(8 as char)
    else if e == 'f' then Some(12 as char)
    else if e == 'n' then Some('\n')
    else if e == 'r' then Some('\r')
    else if e == 't' then Some('\t')
    else None
  }

  /** One piece of a string, before its closing quote: what it stands for. */
  function Piece(s: Bytes): (r: Option<(Bytes, Bytes)>)
    requires s != []
    ensures r.Some? ==> |r.value.1| < |s|
  {
    if s[0] < 32 as char then None
    else if s[0] != '\\' then Some(([s[0]], s[1..]))
    else if |s| == 1 then None
    else if s[1] == 'u' then
      match CodePoint(s[2..])
      case None => None
      case Some((cp, rest)) => Some((Utf8(cp), rest))
    else
      match Simple(s[1])
      case None => None
      case Some(c) => Some(([c], s[2..]))
  }

  /** The rest of a string, after `out` was read. */
  function StringBody(s: Bytes, out: Bytes): (r: Option<(Bytes, Bytes)>)
    ensures r.Some? ==> |r.value.1| < |s|
    decreases |s|
  {
    if s == [] then None
    else if s[0] == '"' then Some((out, s[1..]))
    else
      match Piece(s)
      case None => None
      case Some((p, rest)) => StringBody(rest, out + p)
  }

  function ParseString(s: Bytes): (r: Option<(Bytes, Bytes)>)
    ensures r.Some? ==> |r.value.1| < |s|
  {
    if Eats(s, '"') then StringBody(Ate(s, '"'), "") else None
  }

  type Map = map<Bytes, Bytes>

  /** What a member adds: the first value of a key stays. */
  function Emplaced(kv: Map, k: Bytes, v: Bytes): Map {
    if k in kv then kv else kv[k := v]
  }

  /** One `"k":"v"`. */
  function ParseMember(s: Bytes): (r: Option<(Bytes, Bytes, Bytes)>)
    ensures r.Some? ==> |r.value.2| < |s|
  {
    match ParseString(s)
    case None => None
    case Some((k, s1)) =>
      if !Eats(s1, ':') then None
      else
        match ParseString(Ate(s1, ':'))
        case None => None
        case Some((v, s2)) => Some((k, v, s2))
  }

  /** Members up to the closing brace: what is left if all is well, and what was read
      in any case. */
  function ParseMembers(s: Bytes, kv: Map): (Option<Bytes>, Map)
    decreases |s|
  {
    match ParseMember(s)
    case None => (None, kv)
    case Some((k, v, rest)) =>
      if Eats(rest, ',') then ParseMembers(Ate(rest, ','), Emplaced(kv, k, v))
      else (if Eats(rest, '}') then Some(Ate(rest, '}')) else None, Emplaced(kv, k, v))
  }

  /** JsonFlatParser::Parse. */
  function ParseFlat(s: Bytes): (Option<Bytes>, Map) {
    if !Eats(s, '{') then (None, map[])
    else
      var rest := Ate(s, '{');
      if Eats(rest, '}') then (Some(Ate(rest, '}')), map[]) else ParseMembers(Ws(rest), map[])
  }

  /** ParseSessionJson: exactly one object, with white space around it. */
  function ParseObject(s: Bytes): (bool, Map) {
    var (rest, kv) := ParseFlat(s);
    (rest.Some? && Ws(rest.value) == [], kv)
  }

  /** Items up to the closing bracket. */
  function ParseItems(s: Bytes, v: seq<Bytes>): (Option<Bytes>, seq<Bytes>)
    decreases |s|
  {
    match ParseString(s)
    case None => (None, v)
    case Some((x, rest)) =>
      if Eats(rest, ',') then ParseItems(Ate(rest, ','), v + [x])
      else (if Eats(rest, ']') then Some(Ate(rest, ']')) else None, v + [x])
  }

  /** ParseFlashArray: the verdict, and what was read even if it is false. */
  function ParseArray(s: Bytes): (bool, seq<Bytes>) {
    if !Eats(s, '[') then (false, [])
    else
      var rest := Ate(s, '[');
      if Eats(rest, ']') then (true, [])
      else
        var (left, v) := ParseItems(Ws(rest), []);
        (left.Some? && Ws(left.value) == [], v)
  }

  // ------------------------------------------------------- reading back a string

  lemma HexBack(v: nat)
    requires v < 16
    ensures HexValue(HexDigit(v)) == Some(v)
  {
  }

  lemma ControlRead(c: char, rest: Bytes)
    requires c < 32 as char
    ensures Piece("\\u00" + [HexDigit(c as int / 16), HexDigit(c as int % 16)] + rest) == Some(([c], rest))
  {
    var s := "\\u00" + [HexDigit(c as int / 16), HexDigit(c as int % 16)] + rest;
    HexBack(c as int / 16);
    HexBack(c as int % 16);
    var d := s[2..];
    assert d[0] == '0' && d[1] == '0' && d[2] == HexDigit(c as int / 16) && d[3] == HexDigit(c as int % 16);
    assert Hex4(d) == Some(c as int) && d[4..] == rest;
    assert CodePoint(d) == Some((c as int, rest));
  }

  /** Every way to print a character reads back as that character. */
  lemma EscapeRead(c: char, rest: Bytes)
    ensures var s := EscapeChar(c) + rest;
            s != [] && s[0] != '"' && Piece(s) == Some(([c], rest))
  {
    var e := EscapeChar(c);
    var s := e + rest;
    if |e| == 6 {
      ControlRead(c, rest);
    } else if |e| == 2 {
      assert s[0] == '\\' && s[1] == e[1] && s[2..] == rest;
    } else {
      assert s[1..] == rest;
    }
  }

  lemma BodyStep(s: Bytes, c: char, rest: Bytes, out: Bytes)
    requires s != [] && s[0] != '"' && Piece(s) == Some(([c], rest))
    ensures StringBody(s, out) == StringBody(rest, out + [c])
  {
  }

  lemma EscapedTail(t: Bytes, rest: Bytes)
    requires t != []
    ensures EscapeAll(t) + rest == EscapeChar(t[0]) + (EscapeAll(t[1..]) + rest)
  {
  }

  lemma {:induction false} BodyRead(t: Bytes, rest: Bytes, out: Bytes)
    ensures StringBody(EscapeAll(t) + (['"'] + rest), out) == Some((out + t, rest))
    decreases |t|
  {
    var tail := ['"'] + rest;
    if t == [] {
      assert EscapeAll(t) + tail == tail && tail[1..] == rest && out + t == out;
    } else {
      EscapedTail(t, tail);
      EscapeRead(t[0], EscapeAll(t[1..]) + tail);
      BodyStep(EscapeAll(t) + tail, t[0], EscapeAll(t[1..]) + tail, out);
      BodyRead(t[1..], rest, out + [t[0]]);
      Regroup(out, t);
    }
  }

  /** The next byte is not white space. */
  lemma NextChar(c: char, rest: Bytes)
    requires !IsWs(c)
    ensures Ate([c] + rest, c) == rest && forall d :: Eats([c] + rest, d) <==> d == c
  {
    assert ([c] + rest)[1..] == rest;
  }

  /** A printed string reads back as itself, whatever bytes it holds. */
  lemma StringRead(t: Bytes, rest: Bytes)
    ensures ParseString(Quoted(t) + rest) == Some((t, rest))
  {
    var body := EscapeAll(t) + (['"'] + rest);
    assert Quoted(t) + rest == ['"'] + body;
    NextChar('"', body);
    BodyRead(t, rest, "");
    assert "" + t == t;
  }

  // ------------------------------------------------------------- whole objects

  /** The members of a list, entered one by one. */
  function Entered(kvs: seq<(Bytes, Bytes)>, kv: Map): Map {
    if kvs == [] then kv else Entered(kvs[1..], Emplaced(kv, kvs[0].0, kvs[0].1))
  }

  lemma MemberParts(s: Bytes, key: Bytes, tail: Bytes, value: Bytes, rest: Bytes)
    requires ParseString(s) == Some((key, [':'] + tail)) && ParseString(tail) == Some((value, rest))
    ensures ParseMember(s) == Some((key, value, rest))
  {
    NextChar(':', tail);
  }

  lemma MemberRead(kv: (Bytes, Bytes), rest: Bytes)
    ensures ParseMember(Member(kv) + rest) == Some((kv.0, kv.1, rest))
  {
    var tail := Quoted(kv.1) + rest;
    assert Member(kv) + rest == Quoted(kv.0) + ([':'] + tail);
    StringRead(kv.0, [':'] + tail);
    StringRead(kv.1, rest);
    MemberParts(Member(kv) + rest, kv.0, tail, kv.1, rest);
  }

  lemma LastMember(one: (Bytes, Bytes), kv: Map, rest: Bytes)
    ensures ParseMembers(Member(one) + (['}'] + rest), kv) == (Some(rest), Emplaced(kv, one.0, one.1))
  {
    MemberRead(one, ['}'] + rest);
    NextChar('}', rest);
  }

  lemma NextMember(one: (Bytes, Bytes), kv: Map, more: Bytes)
    ensures ParseMembers(Member(one) + ([','] + more), kv) == ParseMembers(more, Emplaced(kv, one.0, one.1))
  {
    MemberRead(one, [','] + more);
    NextChar(',', more);
  }

  lemma MembersTail(kvs: seq<(Bytes, Bytes)>, rest: Bytes)
    requires |kvs| > 1
    ensures Members(kvs) + rest == Member(kvs[0]) + ([','] + (Members(kvs[1..]) + rest))
  {
    var m, more := Member(kvs[0]), Members(kvs[1..]);
    Assoc(m + ",", more, rest);
    Assoc(m, ",", more + rest);
  }

  lemma {:induction false} MembersRead(kvs: seq<(Bytes, Bytes)>, kv: Map, rest: Bytes)
    requires kvs != []
    ensures ParseMembers(Members(kvs) + (['}'] + rest), kv) == (Some(rest), Entered(kvs, kv))
    decreases |kvs|
  {
    var kv1 := Emplaced(kv, kvs[0].0, kvs[0].1);
    if |kvs| == 1 {
      LastMember(kvs[0], kv, rest);
      assert Entered(kvs[1..], kv1) == kv1;
    } else {
      var more := Members(kvs[1..]) + (['}'] + rest);
      MembersTail(kvs, ['}'] + rest);
      NextMember(kvs[0], kv, more);
      MembersRead(kvs[1..], kv1, rest);
    }
  }

  lemma MembersBegin(kvs: seq<(Bytes, Bytes)>)
    requires kvs != []
    ensures Members(kvs) != [] && Members(kvs)[0] == '"'
  {
  }

  /** After the opening brace. */
  lemma ObjectBody(kvs: seq<(Bytes, Bytes)>, rest: Bytes)
    ensures var body := Members(kvs) + (['}'] + rest);
            if kvs == [] then Eats(body, '}') && Ate(body, '}') == rest
            else !Eats(body, '}') && Ws(body) == body
  {
    var body := Members(kvs) + (['}'] + rest);
    if kvs == [] {
      assert body == ['}'] + rest;
      NextChar('}', rest);
    } else {
      MembersBegin(kvs);
      assert body == ['"'] + body[1..];
      NextChar('"', body[1..]);
    }
  }

  /** A printed list of members reads back, and what follows is left. */
  lemma ObjectRead(kvs: seq<(Bytes, Bytes)>, rest: Bytes)
    ensures ParseFlat(DumpObject(kvs) + rest) == (Some(rest), Entered(kvs, map[]))
  {
    var body := Members(kvs) + (['}'] + rest);
    assert DumpObject(kvs) + rest == ['{'] + body;
    NextChar('{', body);
    ObjectBody(kvs, rest);
    if kvs != [] {
      MembersRead(kvs, map[], rest);
    }
  }

  predicate AllWs(s: Bytes) {
    forall k :: 0 <= k < |s| ==> IsWs(s[k])
  }

  lemma {:induction false} WsAll(s: Bytes)
    ensures Ws(s) == [] <==> AllWs(s)
  {
    if s != [] {
      WsAll(s[1..]);
      assert s == [s[0]] + s[1..];
    }
  }

  /** The order in which a map is walked: every key once. */
  ghost predicate Enumerates(keys: seq<Bytes>, m: Map) {
    && (forall k :: k in keys <==> k in m)
    && (forall i, j :: 0 <= i < j < |keys| ==> keys[i] != keys[j])
  }

  function Pairs(keys: seq<Bytes>, m: Map): seq<(Bytes, Bytes)>
    requires forall k :: k in keys ==> k in m
  {
    if keys == [] then [] else [(keys[0], m[keys[0]])] + Pairs(keys[1..], m)
  }

  lemma {:induction false} EnteredPairs(keys: seq<Bytes>, m: Map, kv: Map)
    requires forall k :: k in keys ==> k in m
    requires forall k :: k in kv ==> k in m && kv[k] == m[k]
    requires forall k :: k in m <==> k in kv || k in keys
    ensures Entered(Pairs(keys, m), kv) == m
    decreases |keys|
  {
    if keys != [] {
      var k := keys[0];
      assert keys == [k] + keys[1..];
      assert Pairs(keys, m)[1..] == Pairs(keys[1..], m);
      EnteredPairs(keys[1..], m, Emplaced(kv, k, m[k]));
    }
  }

  /** Whatever bytes its keys and values hold, and in whatever order it is walked, a
      map that is printed reads back as itself; what follows may only be white space. */
  lemma ObjectRoundTrip(m: Map, keys: seq<Bytes>, rest: Bytes)
    requires Enumerates(keys, m)
    ensures ParseObject(DumpObject(Pairs(keys, m)) + rest) == (AllWs(rest), m)
  {
    EnteredPairs(keys, m, map[]);
    ObjectRead(Pairs(keys, m), rest);
    WsAll(rest);
  }

  // -------------------------------------------------------------- whole arrays

  lemma LastItem(x: Bytes, before: seq<Bytes>, rest: Bytes)
    ensures ParseItems(Quoted(x) + ([']'] + rest), before) == (Some(rest), before + [x])
  {
    StringRead(x, [']'] + rest);
    NextChar(']', rest);
  }

  lemma NextItem(x: Bytes, before: seq<Bytes>, more: Bytes)
    ensures ParseItems(Quoted(x) + ([','] + more), before) == ParseItems(more, before + [x])
  {
    StringRead(x, [','] + more);
    NextChar(',', more);
  }

  lemma ItemsTail(v: seq<Bytes>, rest: Bytes)
    requires |v| > 1
    ensures Items(v) + rest == Quoted(v[0]) + ([','] + (Items(v[1..]) + rest))
  {
    var q, more := Quoted(v[0]), Items(v[1..]);
    Assoc(q + ",", more, rest);
    Assoc(q, ",", more + rest);
  }

  lemma {:induction false} ItemsRead(v: seq<Bytes>, before: seq<Bytes>, rest: Bytes)
    requires v != []
    ensures ParseItems(Items(v) + ([']'] + rest), before) == (Some(rest), before + v)
    decreases |v|
  {
    if |v| == 1 {
      LastItem(v[0], before, rest);
      assert before + [v[0]] == before + v;
    } else {
      var more := Items(v[1..]) + ([']'] + rest);
      ItemsTail(v, [']'] + rest);
      NextItem(v[0], before, more);
      ItemsRead(v[1..], before + [v[0]], rest);
      Regroup(before, v);
    }
  }

  lemma ItemsBegin(v: seq<Bytes>)
    requires v != []
    ensures Items(v) != [] && Items(v)[0] == '"'
  {
  }

  /** After the opening bracket. */
  lemma ArrayRead(v: seq<Bytes>, rest: Bytes)
    ensures var body := Items(v) + ([']'] + rest);
            if v == [] then Eats(body, ']')
            else !Eats(body, ']') && ParseItems(body, []) == (Some(rest), v)
  {
    var body := Items(v) + ([']'] + rest);
    if v == [] {
      assert body == [']'] + rest;
      NextChar(']', rest);
    } else {
      ItemsBegin(v);
      assert body == ['"'] + body[1..];
      NextChar('"', body[1..]);
      ItemsRead(v, [], rest);
      assert [] + v == v;
    }
  }

  /** A printed array reads back.  What follows it may only be white space, unless the
      array is empty: then the rest is not looked at. */
  lemma ArrayRoundTrip(v: seq<Bytes>, rest: Bytes)
    ensures ParseArray(DumpArray(v) + rest) == (v == [] || AllWs(rest), v)
  {
    var body := Items(v) + ([']'] + rest);
    assert DumpArray(v) + rest == ['['] + body;
    NextChar('[', body);
    ArrayRead(v, rest);
    WsAll(rest);
  }

  /** The text is one array with nothing but white space around it. */
  predicate WholeArray(s: Bytes) {
    Eats(s, '[') &&
    var rest := Ate(s, '[');
    if Eats(rest, ']') then Ws(Ate(rest, ']')) == []
    else var left := ParseItems(Ws(rest), []).0; left.Some? && Ws(left.value) == []
  }

  /** An empty array and something behind it. */
  predicate EmptyAndMore(s: Bytes) {
    Eats(s, '[') && Eats(Ate(s, '['), ']') && Ws(Ate(Ate(s, '['), ']')) != []
  }

  /** For every text: the verdict is that of the whole text if and only if the text is
      not an empty array with something behind it; such a text is accepted. */
  lemma WholeIff(s: Bytes)
    ensures ParseArray(s).0 == WholeArray(s) <==> !EmptyAndMore(s)
    ensures EmptyAndMore(s) ==> ParseArray(s) == (true, [])
  {
  }

  /** For instance. */
  lemma JunkBehindEmpty()
    ensures ParseArray("[]junk") == (true, []) && !WholeArray("[]junk")
  {
    var s := "[]junk";
    assert s == ['['] + "]junk" && "]junk" == [']'] + "junk";
    NextChar('[', "]junk");
    NextChar(']', "junk");
    assert Ws("junk") == "junk";
  }

  // ---------------------------------------------------------- Unicode escapes

  function Hex4Text(v: nat): Bytes
    requires v < 0x10000
  {
    [HexDigit(v / 0x1000), HexDigit(v / 0x100 % 16), HexDigit(v / 16 % 16), HexDigit(v % 16)]
  }

  /** The escape of section 7 of RFC 8259: one `\u`, or two for a code point beyond
      the basic multilingual plane. */
  function UnicodeEscape(cp: nat): Bytes
    requires Scalar(cp)
  {
    if cp < 0x10000 then "\\u" + Hex4Text(cp)
    else "\\u" + Hex4Text(High(cp)) + "\\u" + Hex4Text(Low(cp))
  }

  lemma Hex4Read(v: nat, rest: Bytes)
    requires v < 0x10000
    ensures Hex4(Hex4Text(v) + rest) == Some(v) && (Hex4Text(v) + rest)[4..] == rest
  {
    HexBack(v / 0x1000);
    HexBack(v / 0x100 % 16);
    HexBack(v / 16 % 16);
    HexBack(v % 16);
    var s := Hex4Text(v) + rest;
    assert s[0] == Hex4Text(v)[0] && s[1] == Hex4Text(v)[1] && s[2] == Hex4Text(v)[2] && s[3] == Hex4Text(v)[3];
    Base16(v);
  }

  lemma Base16(v: nat)
    requires v < 0x10000
    ensures ((v / 0x1000 * 16 + v / 0x100 % 16) * 16 + v / 16 % 16) * 16 + v % 16 == v
  {
  }

  predicate StartsLow(s: Bytes) {
    |s| >= 2 && s[0] == '\\' && s[1] == 'u' && Hex4(s[2..]).Some? && LowSurrogate(Hex4(s[2..]).value)
  }

  /** A surrogate with no partner stands for the replacement character. */
  lemma LoneSurrogate(cp: nat, rest: Bytes)
    requires LowSurrogate(cp) || (HighSurrogate(cp) && !StartsLow(rest))
    ensures Piece("\\u" + Hex4Text(cp) + rest) == Some((Utf8(REPLACEMENT), rest))
  {
    Hex4Read(cp, rest);
    AfterBackslashU(Hex4Text(cp) + rest, REPLACEMENT, rest);
    assert "\\u" + Hex4Text(cp) + rest == "\\u" + (Hex4Text(cp) + rest);
  }

  lemma PairRead(hi: nat, lo: nat, rest: Bytes)
    requires HighSurrogate(hi) && LowSurrogate(lo)
    ensures CodePoint(Hex4Text(hi) + ("\\u" + (Hex4Text(lo) + rest))) == Some((Joined(hi, lo), rest))
  {
    var second := "\\u" + (Hex4Text(lo) + rest);
    Hex4Read(hi, second);
    Hex4Read(lo, rest);
    assert second[2..] == Hex4Text(lo) + rest && second[6..] == (Hex4Text(lo) + rest)[4..];
  }

  lemma EscapeOne(cp: nat, rest: Bytes)
    requires Scalar(cp) && cp < 0x10000
    ensures CodePoint(Hex4Text(cp) + rest) == Some((cp, rest))
  {
    Hex4Read(cp, rest);
  }

  lemma AfterBackslashU(s: Bytes, cp: nat, rest: Bytes)
    requires Scalar(cp) && CodePoint(s) == Some((cp, rest))
    ensures Piece("\\u" + s) == Some((Utf8(cp), rest))
  {
    assert ("\\u" + s)[2..] == s;
  }

  function High(cp: nat): (hi: nat)
    requires 0x10000 <= cp <= 0x10FFFF
    ensures HighSurrogate(hi)
  {
    0xD800 + (cp - 0x10000) / 0x400
  }

  function Low(cp: nat): (lo: nat)
    requires 0x10000 <= cp <= 0x10FFFF
    ensures LowSurrogate(lo) && Joined(High(cp), lo) == cp
  {
    0xDC00 + (cp - 0x10000) % 0x400
  }

  lemma EscapeText(cp: nat, rest: Bytes)
    requires Scalar(cp)
    ensures UnicodeEscape(cp) + rest ==
            "\\u" + if cp < 0x10000 then Hex4Text(cp) + rest
                    else Hex4Text(High(cp)) + ("\\u" + (Hex4Text(Low(cp)) + rest))
  {
  }

  /** Every code point, escaped, reads back as its UTF-8. */
  lemma UnicodeRead(cp: nat, rest: Bytes)
    requires Scalar(cp)
    ensures Piece(UnicodeEscape(cp) + rest) == Some((Utf8(cp), rest))
  {
    EscapeText(cp, rest);
    if cp < 0x10000 {
      EscapeOne(cp, rest);
      AfterBackslashU(Hex4Text(cp) + rest, cp, rest);
    } else {
      PairRead(High(cp), Low(cp), rest);
      AfterBackslashU(Hex4Text(High(cp)) + ("\\u" + (Hex4Text(Low(cp)) + rest)), cp, rest);
    }
  }

  predicate InRange(b: Bytes, k: nat, lo: nat, hi: nat) {
    k < |b| && lo <= b[k] as int <= hi
  }

  /** The well-formed sequences of section 4 of RFC 3629: no overlong forms, no
      surrogates, nothing beyond U+10FFFF. */
  function DecodeUtf8(b: Bytes): Option<(nat, Bytes)> {
    if InRange(b, 0, 0, 0x7F) then Some((b[0] as int, b[1..]))
    else if InRange(b, 0, 0xC2, 0xDF) && InRange(b, 1, 0x80, 0xBF) then
      Some(((b[0] as int - 0xC0) * 0x40 + Six(b, 1), b[2..]))
    else if InRange(b, 0, 0xE0, 0xEF)
         && InRange(b, 1, if b[0] as int == 0xE0 then 0xA0 else 0x80, if b[0] as int == 0xED then 0x9F else 0xBF)
         && InRange(b, 2, 0x80, 0xBF) then
      Some(((b[0] as int - 0xE0) * 0x1000 + Six(b, 1) * 0x40 + Six(b, 2), b[3..]))
    else if InRange(b, 0, 0xF0, 0xF4)
         && InRange(b, 1, if b[0] as int == 0xF0 then 0x90 else 0x80, if b[0] as int == 0xF4 then 0x8F else 0xBF)
         && InRange(b, 2, 0x80, 0xBF) && InRange(b, 3, 0x80, 0xBF) then
      Some(((b[0] as int - 0xF0) * 0x40000 + Six(b, 1) * 0x1000 + Six(b, 2) * 0x40 + Six(b, 3), b[4..]))
    else None
  }

  function Six(b: Bytes, k: nat): nat
    requires InRange(b, k, 0x80, 0xBF)
  {
    b[k] as int - 0x80
  }

  lemma TwoBytes(cp: nat, rest: Bytes)
    requires 0x80 <= cp <= 0x7FF
    ensures DecodeUtf8(Utf8(cp) + rest) == Some((cp, rest))
  {
    var u, b := Utf8(cp), Utf8(cp) + rest;
    assert b[2..] == rest && b[0] == u[0] && b[1] == u[1];
  }

  lemma ThreeBytes(cp: nat, rest: Bytes)
    requires 0x800 <= cp <= 0xFFFF && Scalar(cp)
    ensures DecodeUtf8(Utf8(cp) + rest) == Some((cp, rest))
  {
    var u, b := Utf8(cp), Utf8(cp) + rest;
    assert b[3..] == rest && b[0] == u[0] && b[1] == u[1] && b[2] == u[2];
    assert cp / 0x40 / 0x40 == cp / 0x1000;
  }

  lemma FourBytes(cp: nat, rest: Bytes)
    requires 0x10000 <= cp <= 0x10FFFF
    ensures DecodeUtf8(Utf8(cp) + rest) == Some((cp, rest))
  {
    var u, b := Utf8(cp), Utf8(cp) + rest;
    assert b[4..] == rest && b[0] == u[0] && b[1] == u[1] && b[2] == u[2] && b[3] == u[3];
    assert cp / 0x40 / 0x40 == cp / 0x1000 && cp / 0x1000 / 0x40 == cp / 0x40000;
  }

  /** What a `\u` escape appends is well-formed UTF-8 of its code point. */
  lemma Utf8RoundTrip(cp: nat, rest: Bytes)
    requires Scalar(cp)
    ensures DecodeUtf8(Utf8(cp) + rest) == Some((cp, rest))
  {
    if cp <= 0x7F {
      assert (Utf8(cp) + rest)[1..] == rest;
    } else if cp <= 0x7FF {
      TwoBytes(cp, rest);
    } else if cp <= 0xFFFF {
      ThreeBytes(cp, rest);
    } else {
      FourBytes(cp, rest);
    }
  }
}
