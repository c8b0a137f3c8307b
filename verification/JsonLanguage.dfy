/** The flat JSON of sessions, told without the parser. */
module JsonLanguage {
  // Sections 2, 4, 5 and 7 of RFC 8259, for an object and an array of strings.  A text is
  // said to be that of a value, followed by a rest; white space may precede every
  // token.  The parser is proved to accept exactly these texts, with these values.
  import opened Collections
  import opened SessionJson

  // ------------------------------------------------------------ white space

  ghost predicate White(w: Bytes) {
    forall c :: c in w ==> c in [' ', '\t', '\n', '\r']
  }

  /** `c`, behind white space, and `t` behind it. */
  ghost predicate After(s: Bytes, c: char, t: Bytes) {
    exists w :: White(w) && s == w + ([c] + t)
  }

  lemma {:induction false} WhiteSkipped(w: Bytes, s: Bytes)
    requires White(w) && (s == [] || s[0] !in [' ', '\t', '\n', '\r'])
    ensures Ws(w + s) == s
    decreases |w|
  {
    if w == [] {
      assert w + s == s;
    } else {
      assert w[0] in w && (w + s)[1..] == w[1..] + s;
      WhiteSkipped(w[1..], s);
    }
  }

  lemma {:induction false} SkipsWhite(s: Bytes) returns (w: Bytes)
    ensures White(w) && s == w + Ws(s)
    decreases |s|
  {
    w := [];
    if s != [] && IsWs(s[0]) {
      w := SkipsWhite(s[1..]);
      w := [s[0]] + w;
    }
  }

  lemma AfterIff(s: Bytes, c: char, t: Bytes)
    requires c !in [' ', '\t', '\n', '\r']
    ensures After(s, c, t) <==> Eats(s, c) && Ate(s, c) == t
  {
    if w :| White(w) && s == w + ([c] + t) {
      WhiteSkipped(w, [c] + t);
      assert ([c] + t)[1..] == t;
    }
    if Eats(s, c) && Ate(s, c) == t {
      var w := SkipsWhite(s);
      assert Ws(s) == [c] + t;
    }
  }

  lemma EndIff(s: Bytes)
    ensures White(s) <==> Ws(s) == []
  {
    if White(s) {
      assert s == s + [];
      WhiteSkipped(s, []);
    }
    if Ws(s) == [] {
      var w := SkipsWhite(s);
      assert s == w;
    }
  }

  // ---------------------------------------------------------------- strings

  /** A character as it is, a two-character escape and what it stands for, or `u` and the
      16-bit unit that its digits give. */
  datatype Token = Raw(c: char) | Short(e: char, stands: char) | Unit(digits: Bytes, u: nat)

  /** The two-character escapes. */
  const Shorts: map<char, char> :=
    map['"' := '"', '\\' := '\\', '/' := '/', 'b' := 8 as char, 'f' := 12 as char,
        'n' := 10 as char, 'r' := 13 as char, 't' := 9 as char]

  /** A hexadecimal digit of either case, and its value. */
  predicate IsHex(c: char, v: nat) {
    var code := c as int;
    if v < 10 then code == '0' as int + v
    else v < 16 && (code == 'a' as int + v - 10 || code == 'A' as int + v - 10)
  }

  ghost predicate UnitIs(digits: Bytes, u: nat) {
    && |digits| == 4
    && exists a: nat, b: nat, c: nat, d: nat ::
         && IsHex(digits[0], a) && IsHex(digits[1], b) && IsHex(digits[2], c) && IsHex(digits[3], d)
         && u == 4096 * a + 256 * b + 16 * c + d
  }

  ghost predicate TokenOk(k: Token) {
    match k
    case Raw(c) => c != '"' && c != '\\' && 32 <= c as int
    case Short(e, stands) => e in Shorts && Shorts[e] == stands
    case Unit(digits, u) => UnitIs(digits, u)
  }

  ghost predicate TokensOk(ks: seq<Token>) {
    forall k :: k in ks ==> TokenOk(k)
  }

  function TextOf(k: Token): Bytes {
    match k
    case Raw(c) => [c]
    case Short(e, _) => ['\\', e]
    case Unit(digits, _) => ['\\', 'u'] + digits
  }

  function Texts(ks: seq<Token>): Bytes {
    if ks == [] then [] else TextOf(ks[0]) + Texts(ks[1..])
  }

  predicate IsLow(ks: seq<Token>) {
    ks != [] && ks[0].Unit? && LowSurrogate(ks[0].u)
  }

  function Single(u: nat): nat {
    if Scalar(u) then u else REPLACEMENT
  }

  /** What the tokens stand for: a high surrogate unit followed by a low one is one code
      point, any other surrogate unit the replacement character. */
  function Meaning(ks: seq<Token>): Bytes {
    if ks == [] then []
    else
      match ks[0]
      case Raw(c) => [c] + Meaning(ks[1..])
      case Short(_, stands) => [stands] + Meaning(ks[1..])
      case Unit(_, u) =>
        if HighSurrogate(u) && IsLow(ks[1..]) then Utf8(Joined(u, ks[1].u)) + Meaning(ks[2..])
        else Utf8(Single(u)) + Meaning(ks[1..])
  }

  /** The text of a string, followed by a rest. */
  ghost predicate StringText(s: Bytes, rest: Bytes, v: Bytes) {
    exists t, ks :: After(s, '"', t) && TokensOk(ks) && t == Texts(ks) + (['"'] + rest) && v == Meaning(ks)
  }

  // ----------------------------------------------- the escapes that are read

  lemma HexIff(c: char, v: nat)
    ensures HexValue(c) == Some(v) <==> IsHex(c, v)
  {
  }

  lemma UnitIff(digits: Bytes, u: nat)
    ensures |digits| == 4 && Hex4(digits) == Some(u) <==> UnitIs(digits, u)
  {
    if |digits| == 4 && Hex4(digits) == Some(u) {
      var a, b := HexValue(digits[0]).value, HexValue(digits[1]).value;
      var c, d := HexValue(digits[2]).value, HexValue(digits[3]).value;
      HexIff(digits[0], a);
      HexIff(digits[1], b);
      HexIff(digits[2], c);
      HexIff(digits[3], d);
      assert u == 4096 * a + 256 * b + 16 * c + d;
    }
    if UnitIs(digits, u) {
      UnitReads(digits, u);
    }
  }

  lemma FourDigits(s: Bytes, a: nat, b: nat, c: nat, d: nat)
    requires |s| == 4 && HexValue(s[0]) == Some(a) && HexValue(s[1]) == Some(b)
    requires HexValue(s[2]) == Some(c) && HexValue(s[3]) == Some(d)
    ensures Hex4(s) == Some(4096 * a + 256 * b + 16 * c + d)
  {
  }

  lemma UnitReads(digits: Bytes, u: nat)
    requires UnitIs(digits, u)
    ensures Hex4(digits) == Some(u)
  {
    var a: nat, b: nat, c: nat, d: nat :|
      && IsHex(digits[0], a) && IsHex(digits[1], b) && IsHex(digits[2], c) && IsHex(digits[3], d)
      && u == 4096 * a + 256 * b + 16 * c + d;
    HexIff(digits[0], a);
    HexIff(digits[1], b);
    HexIff(digits[2], c);
    HexIff(digits[3], d);
    FourDigits(digits, a, b, c, d);
  }

  lemma ShortIff(e: char, c: char)
    ensures Simple(e) == Some(c) <==> e in Shorts && Shorts[e] == c
  {
  }

  /** A token as the parser takes it. */
  predicate Readable(k: Token) {
    match k
    case Raw(c) => c != '"' && c != '\\' && 32 as char <= c
    case Short(e, stands) => Simple(e) == Some(stands)
    case Unit(digits, u) => |digits| == 4 && Hex4(digits) == Some(u)
  }

  ghost predicate AllReadable(ks: seq<Token>) {
    forall k :: k in ks ==> Readable(k)
  }

  lemma ReadableIff(k: Token)
    ensures Readable(k) <==> TokenOk(k)
  {
    match k
    case Raw(_) =>
    case Short(e, stands) => ShortIff(e, stands);
    case Unit(digits, u) => UnitIff(digits, u);
  }

  lemma AllReadableIff(ks: seq<Token>)
    ensures AllReadable(ks) <==> TokensOk(ks)
  {
    forall k ensures Readable(k) <==> TokenOk(k) {
      ReadableIff(k);
    }
  }

  // ------------------------------------------------------ tokens are read back

  lemma Hex4More(digits: Bytes, rest: Bytes)
    requires |digits| == 4
    ensures Hex4(digits + rest) == Hex4(digits) && (digits + rest)[4..] == rest
  {
  }

  lemma FirstToken(ks: seq<Token>)
    requires AllReadable(ks) && ks != []
    ensures Readable(ks[0]) && AllReadable(ks[1..]) && Texts(ks) == TextOf(ks[0]) + Texts(ks[1..])
  {
    assert ks[0] in ks && forall k :: k in ks[1..] ==> k in ks;
  }

  /** The look-ahead for a low surrogate unit. */
  predicate LowAhead(s: Bytes) {
    |s| >= 2 && s[0] == '\\' && s[1] == 'u' && Hex4(s[2..]).Some? && LowSurrogate(Hex4(s[2..]).value)
  }

  lemma LoneUnit(digits: Bytes, u: nat, s: Bytes)
    requires Readable(Unit(digits, u)) && (HighSurrogate(u) ==> !LowAhead(s))
    ensures CodePoint(digits + s) == Some((Single(u), s))
  {
    Hex4More(digits, s);
  }

  lemma PairedUnits(hi: Bytes, u: nat, s: Bytes)
    requires Readable(Unit(hi, u)) && HighSurrogate(u) && LowAhead(s)
    ensures CodePoint(hi + s) == Some((Joined(u, Hex4(s[2..]).value), s[6..]))
  {
    Hex4More(hi, s);
  }

  lemma UnitAhead(digits: Bytes, u: nat, s: Bytes)
    requires Readable(Unit(digits, u))
    ensures var t := TextOf(Unit(digits, u)) + s;
            && |t| >= 6 && t[0] == '\\' && t[1] == 'u' && t[2..] == digits + s && t[6..] == s
            && Hex4(t[2..]) == Some(u) && (LowAhead(t) <==> LowSurrogate(u))
  {
    var t := TextOf(Unit(digits, u)) + s;
    assert t[2..] == digits + s;
    assert t[6..] == t[2..][4..];
    Hex4More(digits, s);
  }

  /** What follows is a low surrogate unit only if the next token is one. */
  lemma AheadIff(ks: seq<Token>, rest: Bytes)
    requires AllReadable(ks)
    ensures LowAhead(Texts(ks) + (['"'] + rest)) <==> IsLow(ks)
  {
    var tail := ['"'] + rest;
    if ks == [] {
      assert Texts(ks) + tail == tail;
    } else {
      FirstToken(ks);
      Assoc(TextOf(ks[0]), Texts(ks[1..]), tail);
      if ks[0].Unit? {
        UnitAhead(ks[0].digits, ks[0].u, Texts(ks[1..]) + tail);
      }
    }
  }

  /** The piece that the parser takes off the front, for one token or a surrogate pair. */
  lemma OnePiece(ks: seq<Token>, rest: Bytes)
    requires AllReadable(ks) && ks != []
    ensures var pair := ks[0].Unit? && HighSurrogate(ks[0].u) && IsLow(ks[1..]);
            var s, ks1 := Texts(ks) + (['"'] + rest), ks[if pair then 2 else 1..];
            && s != [] && s[0] != '"' && AllReadable(ks1)
            && Piece(s).Some? && Piece(s).value.1 == Texts(ks1) + (['"'] + rest)
            && Meaning(ks) == Piece(s).value.0 + Meaning(ks1)
  {
    var tail := ['"'] + rest;
    FirstToken(ks);
    var more := Texts(ks[1..]) + tail;
    var s := Texts(ks) + tail;
    Assoc(TextOf(ks[0]), Texts(ks[1..]), tail);
    match ks[0]
    case Raw(_) => assert s[1..] == more;
    case Short(_, _) => assert s[2..] == more;
    case Unit(digits, u) =>
      UnitAhead(digits, u, more);
      AheadIff(ks[1..], rest);
      if HighSurrogate(u) && IsLow(ks[1..]) {
        PairPiece(ks, rest);
      } else {
        LoneUnit(digits, u, more);
      }
  }

  lemma UnitPiece(s: Bytes, cp: nat, rest: Bytes)
    requires |s| >= 2 && s[0] == '\\' && s[1] == 'u' && CodePoint(s[2..]) == Some((cp, rest))
    ensures Piece(s) == Some((Utf8(cp), rest))
  {
  }

  /** Two units as the text of a pair. */
  lemma PairText(hi: Token, lo: Token, after: Bytes)
    requires Readable(hi) && Readable(lo) && hi.Unit? && lo.Unit? && HighSurrogate(hi.u) && LowSurrogate(lo.u)
    ensures Piece(TextOf(hi) + (TextOf(lo) + after)) == Some((Utf8(Joined(hi.u, lo.u)), after))
  {
    var more := TextOf(lo) + after;
    UnitAhead(hi.digits, hi.u, more);
    UnitAhead(lo.digits, lo.u, after);
    PairedUnits(hi.digits, hi.u, more);
    UnitPiece(TextOf(hi) + more, Joined(hi.u, lo.u), after);
  }

  lemma PairPiece(ks: seq<Token>, rest: Bytes)
    requires AllReadable(ks) && ks != [] && ks[0].Unit? && HighSurrogate(ks[0].u) && IsLow(ks[1..])
    ensures var s := Texts(ks) + (['"'] + rest);
            && s != [] && s[0] != '"' && AllReadable(ks[2..])
            && Piece(s) == Some((Utf8(Joined(ks[0].u, ks[1].u)), Texts(ks[2..]) + (['"'] + rest)))
  {
    FirstToken(ks);
    FirstToken(ks[1..]);
    assert ks[1..][1..] == ks[2..] && ks[1..][0] == ks[1];
    var after := Texts(ks[2..]) + (['"'] + rest);
    Assoc(TextOf(ks[0]), Texts(ks[1..]), ['"'] + rest);
    Assoc(TextOf(ks[1]), Texts(ks[2..]), ['"'] + rest);
    PairText(ks[0], ks[1], after);
  }

  lemma {:induction false} TokensRead(ks: seq<Token>, rest: Bytes, out: Bytes)
    requires AllReadable(ks)
    ensures StringBody(Texts(ks) + (['"'] + rest), out) == Some((out + Meaning(ks), rest))
    decreases |ks|
  {
    var s := Texts(ks) + (['"'] + rest);
    if ks == [] {
      assert s == ['"'] + rest && s[1..] == rest && out + Meaning(ks) == out;
    } else {
      OnePiece(ks, rest);
      var pair := ks[0].Unit? && HighSurrogate(ks[0].u) && IsLow(ks[1..]);
      var ks1 := ks[if pair then 2 else 1..];
      TokensRead(ks1, rest, out + Piece(s).value.0);
      Assoc(out, Piece(s).value.0, Meaning(ks1));
    }
  }

  // ------------------------------------------------- what is read is tokens

  lemma Prepend(k: Token, ks: seq<Token>, s: Bytes, more: Bytes, rest: Bytes)
    requires Readable(k) && AllReadable(ks) && s == TextOf(k) + more && more == Texts(ks) + (['"'] + rest)
    ensures AllReadable([k] + ks) && s == Texts([k] + ks) + (['"'] + rest) && ([k] + ks)[1..] == ks
  {
    var all := [k] + ks;
    assert all[1..] == ks && all[0] == k;
    Assoc(TextOf(k), Texts(ks), ['"'] + rest);
  }

  lemma UnitText(s: Bytes)
    requires |s| >= 2 && s[0] == '\\' && s[1] == 'u' && Hex4(s[2..]).Some?
    ensures |s| >= 6 && Readable(Unit(s[2..6], Hex4(s[2..]).value))
    ensures s == TextOf(Unit(s[2..6], Hex4(s[2..]).value)) + s[6..]
  {
    var digits := s[2..6];
    assert s[2..] == digits + s[6..];
    Hex4More(digits, s[6..]);
  }

  /** The piece in front of the tokens `ks`, as tokens. */
  lemma PieceTokens(s: Bytes, ks: seq<Token>, rest: Bytes) returns (all: seq<Token>)
    requires s != [] && s[0] != '"' && Piece(s).Some? && AllReadable(ks)
    requires Piece(s).value.1 == Texts(ks) + (['"'] + rest)
    ensures AllReadable(all) && s == Texts(all) + (['"'] + rest) && Meaning(all) == Piece(s).value.0 + Meaning(ks)
  {
    var more := Piece(s).value.1;
    if s[0] != '\\' {
      assert s == TextOf(Raw(s[0])) + more;
      Prepend(Raw(s[0]), ks, s, more, rest);
      all := [Raw(s[0])] + ks;
    } else if s[1] != 'u' {
      var k := Short(s[1], Simple(s[1]).value);
      assert s == TextOf(k) + more;
      Prepend(k, ks, s, more, rest);
      all := [k] + ks;
    } else {
      all := UnitTokens(s, ks, rest);
    }
  }

  lemma UnitTokens(s: Bytes, ks: seq<Token>, rest: Bytes) returns (all: seq<Token>)
    requires |s| >= 2 && s[0] == '\\' && s[1] == 'u' && CodePoint(s[2..]).Some? && AllReadable(ks)
    requires CodePoint(s[2..]).value.1 == Texts(ks) + (['"'] + rest)
    ensures AllReadable(all) && s == Texts(all) + (['"'] + rest)
    ensures Meaning(all) == Utf8(CodePoint(s[2..]).value.0) + Meaning(ks)
  {
    var u := Hex4(s[2..]).value;
    var k, more := Unit(s[2..6], u), s[6..];
    UnitText(s);
    assert s[2..] == s[2..6] + more;
    if HighSurrogate(u) && LowAhead(more) {
      var lo, after := Hex4(more[2..]).value, more[6..];
      PairedUnits(s[2..6], u, more);
      UnitText(more);
      var k1 := Unit(more[2..6], lo);
      Prepend(k1, ks, more, after, rest);
      Prepend(k, [k1] + ks, s, more, rest);
      all := [k] + ([k1] + ks);
      assert all[1..] == [k1] + ks && all[2..] == ks;
    } else {
      LoneUnit(s[2..6], u, more);
      AheadIff(ks, rest);
      Prepend(k, ks, s, more, rest);
      all := [k] + ks;
    }
  }

  lemma {:induction false} BodyTokens(s: Bytes, out: Bytes) returns (ks: seq<Token>)
    requires StringBody(s, out).Some?
    ensures AllReadable(ks)
    ensures var (v, rest) := StringBody(s, out).value; s == Texts(ks) + (['"'] + rest) && v == out + Meaning(ks)
    decreases |s|
  {
    ks := [];
    if s[0] != '"' {
      var (p, more) := Piece(s).value;
      var ks1 := BodyTokens(more, out + p);
      ks := PieceTokens(s, ks1, StringBody(s, out).value.1);
      Assoc(out, p, Meaning(ks1));
    }
  }

  /** A string is read if and only if its text is there, and as what that text means. */
  lemma StringIff(s: Bytes, rest: Bytes, v: Bytes)
    ensures ParseString(s) == Some((v, rest)) <==> StringText(s, rest, v)
  {
    if t, ks :| After(s, '"', t) && TokensOk(ks) && t == Texts(ks) + (['"'] + rest) && v == Meaning(ks) {
      AfterIff(s, '"', t);
      AllReadableIff(ks);
      TokensRead(ks, rest, "");
      assert "" + Meaning(ks) == Meaning(ks);
    }
    if ParseString(s) == Some((v, rest)) {
      var t := Ate(s, '"');
      AfterIff(s, '"', t);
      var ks := BodyTokens(t, "");
      AllReadableIff(ks);
      assert "" + Meaning(ks) == Meaning(ks);
    }
  }

  // ---------------------------------------------------------------- objects

  /** The text of `"k":"v"`, followed by a rest. */
  ghost predicate MemberText(s: Bytes, rest: Bytes, kv: (Bytes, Bytes)) {
    exists s1, s2 :: StringText(s, s1, kv.0) && After(s1, ':', s2) && StringText(s2, rest, kv.1)
  }

  /** The text of at least one member, with commas between them. */
  ghost predicate MembersText(s: Bytes, rest: Bytes, kvs: seq<(Bytes, Bytes)>)
    decreases |kvs|
  {
    && kvs != []
    && if |kvs| == 1 then MemberText(s, rest, kvs[0])
       else exists s1, s2 :: MemberText(s, s1, kvs[0]) && After(s1, ',', s2) && MembersText(s2, rest, kvs[1..])
  }

  /** The members between braces, with nothing but white space around. */
  ghost predicate ObjectText(s: Bytes, kvs: seq<(Bytes, Bytes)>) {
    exists s1, s2, s3 :: After(s, '{', s1) && After(s2, '}', s3) && White(s3)
                         && if kvs == [] then s1 == s2 else MembersText(s1, s2, kvs)
  }

  lemma MemberIff(s: Bytes, rest: Bytes, kv: (Bytes, Bytes))
    ensures ParseMember(s) == Some((kv.0, kv.1, rest)) <==> MemberText(s, rest, kv)
  {
    if s1, s2 :| StringText(s, s1, kv.0) && After(s1, ':', s2) && StringText(s2, rest, kv.1) {
      StringIff(s, s1, kv.0);
      AfterIff(s1, ':', s2);
      StringIff(s2, rest, kv.1);
    }
    if ParseMember(s) == Some((kv.0, kv.1, rest)) {
      var s1 := ParseString(s).value.1;
      StringIff(s, s1, kv.0);
      AfterIff(s1, ':', Ate(s1, ':'));
      StringIff(Ate(s1, ':'), rest, kv.1);
    }
  }

  lemma LastMember(s: Bytes, rest: Bytes, one: (Bytes, Bytes), kv: Map, end: Bytes)
    requires MemberText(s, rest, one) && After(rest, '}', end)
    ensures ParseMembers(s, kv) == (Some(end), Emplaced(kv, one.0, one.1))
  {
    MemberIff(s, rest, one);
    AfterIff(rest, '}', end);
  }

  lemma OneMemberMore(s: Bytes, s1: Bytes, s2: Bytes, one: (Bytes, Bytes), kv: Map)
    requires MemberText(s, s1, one) && After(s1, ',', s2)
    ensures |s2| < |s| && ParseMembers(s, kv) == ParseMembers(s2, Emplaced(kv, one.0, one.1))
  {
    MemberIff(s, s1, one);
    AfterIff(s1, ',', s2);
  }

  lemma {:induction false} MembersAreRead(s: Bytes, rest: Bytes, kvs: seq<(Bytes, Bytes)>, kv: Map, end: Bytes)
    requires MembersText(s, rest, kvs) && After(rest, '}', end)
    ensures ParseMembers(s, kv) == (Some(end), Entered(kvs, kv))
    decreases |kvs|
  {
    if |kvs| == 1 {
      LastMember(s, rest, kvs[0], kv, end);
      assert kvs[1..] == [];
    } else {
      var s1, s2 :| MemberText(s, s1, kvs[0]) && After(s1, ',', s2) && MembersText(s2, rest, kvs[1..]);
      OneMemberMore(s, s1, s2, kvs[0], kv);
      MembersAreRead(s2, rest, kvs[1..], Emplaced(kv, kvs[0].0, kvs[0].1), end);
    }
  }

  lemma {:induction false} ReadAreMembers(s: Bytes, kv: Map) returns (kvs: seq<(Bytes, Bytes)>, rest: Bytes)
    requires ParseMembers(s, kv).0.Some?
    ensures MembersText(s, rest, kvs) && After(rest, '}', ParseMembers(s, kv).0.value)
    ensures ParseMembers(s, kv).1 == Entered(kvs, kv)
    decreases |s|
  {
    var (k, v, more) := ParseMember(s).value;
    MemberIff(s, more, (k, v));
    if Eats(more, ',') {
      AfterIff(more, ',', Ate(more, ','));
      var kvs1;
      kvs1, rest := ReadAreMembers(Ate(more, ','), Emplaced(kv, k, v));
      kvs := [(k, v)] + kvs1;
      assert kvs[1..] == kvs1;
    } else {
      kvs, rest := [(k, v)], more;
      AfterIff(rest, '}', Ate(rest, '}'));
      assert kvs[1..] == [];
    }
  }

  /** The parsers of lists skip white space before they begin. */
  lemma {:induction false} WsTwice(s: Bytes)
    ensures Ws(Ws(s)) == Ws(s)
    decreases |s|
  {
    if s != [] && IsWs(s[0]) {
      WsTwice(s[1..]);
    }
  }

  lemma SkippedFirst(s: Bytes, kv: Map, v: seq<Bytes>)
    ensures ParseMembers(Ws(s), kv) == ParseMembers(s, kv) && ParseItems(Ws(s), v) == ParseItems(s, v)
  {
    WsTwice(s);
    assert ParseString(Ws(s)) == ParseString(s);
  }

  lemma BeginsWithMember(s: Bytes, rest: Bytes, kvs: seq<(Bytes, Bytes)>)
    requires MembersText(s, rest, kvs)
    ensures !Eats(s, '}')
  {
    if |kvs| == 1 {
      MemberIff(s, rest, kvs[0]);
    } else {
      var s1, s2 :| MemberText(s, s1, kvs[0]) && After(s1, ',', s2) && MembersText(s2, rest, kvs[1..]);
      MemberIff(s, s1, kvs[0]);
    }
    assert Eats(s, '"');
  }

  lemma ObjectIsRead(s: Bytes, kvs: seq<(Bytes, Bytes)>)
    requires ObjectText(s, kvs)
    ensures ParseObject(s) == (true, Entered(kvs, map[]))
  {
    var s1, s2, s3 :| After(s, '{', s1) && After(s2, '}', s3) && White(s3)
                      && if kvs == [] then s1 == s2 else MembersText(s1, s2, kvs);
    AfterIff(s, '{', s1);
    AfterIff(s2, '}', s3);
    EndIff(s3);
    if kvs != [] {
      BeginsWithMember(s1, s2, kvs);
      MembersAreRead(s1, s2, kvs, map[], s3);
      SkippedFirst(s1, map[], []);
    }
  }

  lemma ReadIsObject(s: Bytes) returns (kvs: seq<(Bytes, Bytes)>)
    requires ParseObject(s).0
    ensures ObjectText(s, kvs)
  {
    var s1 := Ate(s, '{');
    AfterIff(s, '{', s1);
    if Eats(s1, '}') {
      kvs := [];
      AfterIff(s1, '}', Ate(s1, '}'));
      EndIff(Ate(s1, '}'));
    } else {
      SkippedFirst(s1, map[], []);
      var s2;
      kvs, s2 := ReadAreMembers(s1, map[]);
      EndIff(ParseMembers(s1, map[]).0.value);
    }
  }

  /** A session is read if and only if its text is one flat object, with white space wherever
      JSON allows it; and then as the members of that object, the first of each key. */
  lemma ObjectIff(s: Bytes)
    ensures ParseObject(s).0 <==> exists kvs :: ObjectText(s, kvs)
    ensures forall kvs :: ObjectText(s, kvs) ==> ParseObject(s) == (true, Entered(kvs, map[]))
  {
    if ParseObject(s).0 {
      var kvs := ReadIsObject(s);
    }
    forall kvs | ObjectText(s, kvs) ensures ParseObject(s) == (true, Entered(kvs, map[])) {
      ObjectIsRead(s, kvs);
    }
  }

  // ----------------------------------------------------------------- arrays

  /** The text of at least one string, with commas between them. */
  ghost predicate ItemsText(s: Bytes, rest: Bytes, xs: seq<Bytes>)
    decreases |xs|
  {
    && xs != []
    && if |xs| == 1 then StringText(s, rest, xs[0])
       else exists s1, s2 :: StringText(s, s1, xs[0]) && After(s1, ',', s2) && ItemsText(s2, rest, xs[1..])
  }

  ghost predicate ArrayText(s: Bytes, xs: seq<Bytes>) {
    exists s1, s2, s3 :: After(s, '[', s1) && After(s2, ']', s3) && White(s3)
                         && if xs == [] then s1 == s2 else ItemsText(s1, s2, xs)
  }

  /** The strings that can be read from `s`, and what is left behind them. */
  ghost predicate Longest(s: Bytes, rest: Bytes, xs: seq<Bytes>) {
    if xs == [] then rest == s && forall s1, x :: !StringText(s, s1, x)
    else ItemsText(s, rest, xs) && (Eats(rest, ',') ==> forall s1, x :: !StringText(Ate(rest, ','), s1, x))
  }

  lemma NoString(s: Bytes)
    ensures ParseString(s) == None <==> forall s1, x :: !StringText(s, s1, x)
  {
    forall s1, x ensures StringText(s, s1, x) <==> ParseString(s) == Some((x, s1)) {
      StringIff(s, s1, x);
    }
    if ParseString(s).Some? {
      assert StringText(s, ParseString(s).value.1, ParseString(s).value.0);
    }
  }

  lemma LastItemIsRead(s: Bytes, rest: Bytes, x: Bytes, v: seq<Bytes>, end: Bytes)
    requires StringText(s, rest, x) && After(rest, ']', end)
    ensures ParseItems(s, v) == (Some(end), v + [x])
  {
    StringIff(s, rest, x);
    AfterIff(rest, ']', end);
  }

  lemma OneItemMore(s: Bytes, s1: Bytes, s2: Bytes, x: Bytes, v: seq<Bytes>)
    requires StringText(s, s1, x) && After(s1, ',', s2)
    ensures ParseItems(s, v) == ParseItems(s2, v + [x])
  {
    StringIff(s, s1, x);
    AfterIff(s1, ',', s2);
  }

  lemma {:induction false} ItemsAreRead(s: Bytes, rest: Bytes, xs: seq<Bytes>, v: seq<Bytes>, end: Bytes)
    requires ItemsText(s, rest, xs) && After(rest, ']', end)
    ensures ParseItems(s, v) == (Some(end), v + xs)
    decreases |xs|
  {
    if |xs| == 1 {
      LastItemIsRead(s, rest, xs[0], v, end);
      assert xs == [xs[0]];
    } else {
      var s1, s2 :| StringText(s, s1, xs[0]) && After(s1, ',', s2) && ItemsText(s2, rest, xs[1..]);
      OneItemMore(s, s1, s2, xs[0], v);
      ItemsAreRead(s2, rest, xs[1..], v + [xs[0]], end);
      Assoc(v, [xs[0]], xs[1..]);
      assert [xs[0]] + xs[1..] == xs;
    }
  }

  lemma BeginsWithItem(s: Bytes, rest: Bytes, xs: seq<Bytes>)
    requires ItemsText(s, rest, xs)
    ensures !Eats(s, ']')
  {
    if |xs| == 1 {
      StringIff(s, rest, xs[0]);
    } else {
      var s1, s2 :| StringText(s, s1, xs[0]) && After(s1, ',', s2) && ItemsText(s2, rest, xs[1..]);
      StringIff(s, s1, xs[0]);
    }
    assert Eats(s, '"');
  }

  lemma LongestOne(s: Bytes, rest: Bytes, x: Bytes)
    requires ParseString(s) == Some((x, rest)) && (Eats(rest, ',') ==> ParseString(Ate(rest, ',')) == None)
    ensures Longest(s, rest, [x])
  {
    StringIff(s, rest, x);
    if Eats(rest, ',') {
      NoString(Ate(rest, ','));
    }
  }

  lemma LongestMore(s: Bytes, s1: Bytes, rest: Bytes, x: Bytes, xs: seq<Bytes>)
    requires ParseString(s) == Some((x, s1)) && Eats(s1, ',') && xs != [] && Longest(Ate(s1, ','), rest, xs)
    ensures Longest(s, rest, [x] + xs)
  {
    StringIff(s, s1, x);
    AfterIff(s1, ',', Ate(s1, ','));
    assert ([x] + xs)[1..] == xs;
  }

  /** How a list ends, well or not, behind what was read of it. */
  function Ended(xs: seq<Bytes>, rest: Bytes): Option<Bytes> {
    if xs != [] && !Eats(rest, ',') && Eats(rest, ']') then Some(Ate(rest, ']')) else None
  }

  lemma LastRead(s: Bytes, x: Bytes, rest: Bytes, v: seq<Bytes>)
    requires ParseString(s) == Some((x, rest)) && (Eats(rest, ',') ==> ParseString(Ate(rest, ',')) == None)
    ensures ParseItems(s, v) == (Ended([x], rest), v + [x])
  {
  }

  /** What the parser reads of a list, whether or not it ends well. */
  lemma {:induction false} ReadIsLongest(s: Bytes, v: seq<Bytes>) returns (xs: seq<Bytes>, rest: Bytes)
    ensures Longest(s, rest, xs) && (xs == [] <==> ParseString(s) == None)
    ensures ParseItems(s, v) == (Ended(xs, rest), v + xs)
    decreases |s|
  {
    xs, rest := [], s;
    if ParseString(s) == None {
      NoString(s);
      assert v + [] == v;
    } else {
      var (x, s1) := ParseString(s).value;
      if Eats(s1, ',') && ParseString(Ate(s1, ',')) != None {
        xs, rest := ReadIsLongest(Ate(s1, ','), v + [x]);
        LongestMore(s, s1, rest, x, xs);
        Assoc(v, [x], xs);
        xs := [x] + xs;
      } else {
        xs, rest := [x], s1;
        LongestOne(s, s1, x);
        LastRead(s, x, s1, v);
      }
    }
  }

  lemma ArrayIsRead(s: Bytes, xs: seq<Bytes>)
    requires ArrayText(s, xs)
    ensures ParseArray(s) == (true, xs)
  {
    var s1, s2, s3 :| After(s, '[', s1) && After(s2, ']', s3) && White(s3)
                      && if xs == [] then s1 == s2 else ItemsText(s1, s2, xs);
    AfterIff(s, '[', s1);
    AfterIff(s2, ']', s3);
    EndIff(s3);
    if xs != [] {
      BeginsWithItem(s1, s2, xs);
      ItemsAreRead(s1, s2, xs, [], s3);
      SkippedFirst(s1, map[], []);
      assert [] + xs == xs;
    }
  }

  lemma ReadIsArray(s: Bytes)
    requires ParseArray(s).0 && !EmptyAndMore(s)
    ensures ArrayText(s, ParseArray(s).1)
  {
    var s1 := Ate(s, '[');
    AfterIff(s, '[', s1);
    if Eats(s1, ']') {
      AfterIff(s1, ']', Ate(s1, ']'));
      EndIff(Ate(s1, ']'));
    } else {
      SkippedFirst(s1, map[], []);
      var xs, s2 := ReadIsLongest(s1, []);
      assert [] + xs == xs;
      AfterIff(s2, ']', Ate(s2, ']'));
      EndIff(Ate(s2, ']'));
    }
  }

  /** A flash value is read if and only if its text is one array of strings, or an empty one
      with something behind it; and then as its strings, or as none. */
  lemma ArrayIff(s: Bytes)
    ensures ParseArray(s).0 <==> EmptyAndMore(s) || exists xs :: ArrayText(s, xs)
    ensures forall xs :: ArrayText(s, xs) ==> ParseArray(s) == (true, xs)
  {
    if ParseArray(s).0 && !EmptyAndMore(s) {
      ReadIsArray(s);
    }
    forall xs | ArrayText(s, xs) ensures ParseArray(s) == (true, xs) {
      ArrayIsRead(s, xs);
    }
  }

  /** Of any flash value, damaged or not, exactly the strings are read that stand behind its
      bracket one after the other, as many as there are. */
  lemma AsManyAsCanBeRead(s: Bytes) returns (rest: Bytes)
    ensures if Eats(s, '[') && !Eats(Ate(s, '['), ']') then Longest(Ate(s, '['), rest, ParseArray(s).1)
            else ParseArray(s).1 == []
  {
    rest := s;
    if Eats(s, '[') && !Eats(Ate(s, '['), ']') {
      SkippedFirst(Ate(s, '['), map[], []);
      var xs;
      xs, rest := ReadIsLongest(Ate(s, '['), []);
      assert [] + xs == xs;
    }
  }
}
