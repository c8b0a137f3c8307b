/** Sessions: the printers and the cursor parser of the flat JSON, and the flash
    messages kept in it. */
module Session {
  import opened Collections
  import opened SessionJson

  // ---------------------------------------------------------------- printing

  lemma {:induction false} EscapeSnoc(s: Bytes, c: char)
    ensures EscapeAll(s + [c]) == EscapeAll(s) + EscapeChar(c)
    decreases |s|
  {
    if s == [] {
      assert (s + [c])[1..] == [];
    } else {
      assert (s + [c])[1..] == s[1..] + [c];
      EscapeSnoc(s[1..], c);
    }
  }

  /** One turn of the printing loop. */
  method AppendEscaped(before: Bytes, c: char) returns (out: Bytes)
    ensures out == before + EscapeChar(c)
  {
    if c == '"' { return before + "\\\""; }
    if c == '\\' { return before + "\\\\"; }
    if c == 8 as char { return before + "\\b"; }
    if c == 12 as char { return before + "\\f"; }
    if c == '\n' { return before + "\\n"; }
    if c == '\r' { return before + "\\r"; }
    if c == '\t' { return before + "\\t"; }
    if c >= 32 as char { return before + [c]; }
    out := before + "\\u00";
    out := out + [HexDigit(c as int / 16)];
    out := out + [HexDigit(c as int % 16)];
  }

  method JsonEscapeAppend(before: Bytes, s: Bytes) returns (out: Bytes)
    ensures out == before + Quoted(s)
  {
    out := before + "\"";
    ghost var start := out;
    for i := 0 to |s|
      invariant out == start + EscapeAll(s[..i])
    {
      EscapeSnoc(s[..i], s[i]);
      assert s[..i + 1] == s[..i] + [s[i]];
      Assoc(start, EscapeAll(s[..i]), EscapeChar(s[i]));
      out := AppendEscaped(out, s[i]);
    }
    assert s[..|s|] == s;
    Assoc(before, "\"", EscapeAll(s));
    Assoc(before, "\"" + EscapeAll(s), "\"");
    out := out + "\"";
  }

  function Comma(first: bool): Bytes {
    if first then "" else ","
  }

  lemma {:induction false} ItemsSnoc(v: seq<Bytes>, x: Bytes)
    ensures Items(v + [x]) == Items(v) + (Comma(v == []) + Quoted(x))
    decreases |v|
  {
    if v != [] {
      assert (v + [x])[1..] == v[1..] + [x];
      ItemsSnoc(v[1..], x);
    }
  }

  lemma {:induction false} MembersSnoc(kvs: seq<(Bytes, Bytes)>, kv: (Bytes, Bytes))
    ensures Members(kvs + [kv]) == Members(kvs) + (Comma(kvs == []) + Member(kv))
    decreases |kvs|
  {
    if kvs != [] {
      assert (kvs + [kv])[1..] == kvs[1..] + [kv];
      MembersSnoc(kvs[1..], kv);
      Assoc(Member(kvs[0]) + ",", Members(kvs[1..]), "," + Member(kv));
    }
  }

  /** One turn of the loop over a map. */
  method AppendMember(before: Bytes, first: bool, kv: (Bytes, Bytes)) returns (out: Bytes)
    ensures out == before + (Comma(first) + Member(kv))
  {
    var comma, k, v := Comma(first), Quoted(kv.0), Quoted(kv.1);
    Assoc(before, comma, k);
    Assoc(before, comma + k, ":");
    Assoc(before, comma + k + ":", v);
    Assoc(comma, k, ":");
    Assoc(comma, k + ":", v);
    out := before;
    if !first {
      out := out + ",";
    }
    out := JsonEscapeAppend(out, kv.0);
    out := out + ":";
    out := JsonEscapeAppend(out, kv.1);
  }

  /** `kvs` is the map as it is walked. */
  method DumpSessionJson(kvs: seq<(Bytes, Bytes)>) returns (out: Bytes)
    ensures out == DumpObject(kvs)
  {
    out := "{";
    var first := true;
    for i := 0 to |kvs|
      invariant first == (i == 0) && out == "{" + Members(kvs[..i])
    {
      MembersSnoc(kvs[..i], kvs[i]);
      assert kvs[..i + 1] == kvs[..i] + [kvs[i]];
      Assoc("{", Members(kvs[..i]), Comma(first) + Member(kvs[i]));
      out := AppendMember(out, first, kvs[i]);
      first := false;
    }
    assert kvs[..|kvs|] == kvs;
    out := out + "}";
  }

  method DumpFlashArray(v: seq<Bytes>) returns (out: Bytes)
    ensures out == DumpArray(v)
  {
    out := "[";
    var first := true;
    for i := 0 to |v|
      invariant first == (i == 0) && out == "[" + Items(v[..i])
    {
      ItemsSnoc(v[..i], v[i]);
      assert v[..i + 1] == v[..i] + [v[i]];
      Assoc("[", Items(v[..i]), Comma(first) + Quoted(v[i]));
      Assoc(out, Comma(first), Quoted(v[i]));
      if !first {
        out := out + ",";
      }
      first := false;
      out := JsonEscapeAppend(out, v[i]);
    }
    assert v[..|v|] == v;
    out := out + "]";
  }

  // ----------------------------------------------------------------- parsing

  class JsonFlatParser {
    const s: Bytes
    var i: nat

    constructor (text: Bytes)
      ensures Valid() && s == text && i == 0 && Rest() == text
    {
      s, i := text, 0;
    }

    predicate Valid()
      reads this
    {
      i <= |s|
    }

    /** The bytes not yet read. */
    function Rest(): Bytes
      reads this
      requires Valid()
    {
      s[i..]
    }

    method SkipWs()
      requires Valid()
      modifies this
      ensures Valid() && Rest() == Ws(old(Rest()))
    {
      while i < |s| && IsWs(s[i])
        invariant Valid() && Ws(Rest()) == Ws(old(Rest()))
        decreases |s| - i
      {
        assert Rest()[1..] == s[i + 1..];
        i := i + 1;
      }
      assert i < |s| ==> Rest()[0] == s[i];
    }

    method Eat(c: char) returns (ok: bool)
      requires Valid()
      modifies this
      ensures Valid() && ok == Eats(old(Rest()), c) && Rest() == Ate(old(Rest()), c)
    {
      SkipWs();
      ok := false;
      if i < |s| && s[i] == c {
        assert Rest()[1..] == s[i + 1..];
        i := i + 1;
        ok := true;
      }
    }

    /** Four digits, shifted in one by one; the cursor stays if they are not there. */
    method ParseHex4() returns (v: Option<nat>)
      requires Valid()
      modifies this
      ensures Valid() && v == Hex4(old(Rest()))
      ensures Rest() == if v.Some? then old(Rest())[4..] else old(Rest())
    {
      if i + 4 > |s| {
        return None;
      }
      var value, k := 0, 0;
      ghost var d := seq(4, n requires 0 <= n < 4 && i + 4 <= |s| reads this => HexValue(s[i + n]));
      while k < 4
        invariant 0 <= k <= 4 && i == old(i)
        invariant d == [HexValue(s[i]), HexValue(s[i + 1]), HexValue(s[i + 2]), HexValue(s[i + 3])]
        invariant forall n :: 0 <= n < k ==> d[n].Some?
        invariant value == (if k == 0 then 0
                            else if k == 1 then d[0].value
                            else if k == 2 then d[0].value * 16 + d[1].value
                            else if k == 3 then (d[0].value * 16 + d[1].value) * 16 + d[2].value
                            else ((d[0].value * 16 + d[1].value) * 16 + d[2].value) * 16 + d[3].value)
      {
        match HexValue(s[i + k]) {
          case None =>
            assert Rest()[k] == s[i + k];
            return None;
          case Some(x) => value := value * 16 + x;
        }
        k := k + 1;
      }
      assert Rest()[0] == s[i] && Rest()[1] == s[i + 1] && Rest()[2] == s[i + 2] && Rest()[3] == s[i + 3];
      assert Rest()[4..] == s[i + 4..];
      i := i + 4;
      v := Some(value);
    }

    /** What follows a `\u`. */
    method ParseCodePoint() returns (cp: Option<nat>)
      requires Valid()
      modifies this
      ensures Valid()
      ensures match CodePoint(old(Rest()))
              case None => cp == None
              case Some((value, rest)) => cp == Some(value) && Rest() == rest
    {
      cp := ParseHex4();
      if cp == None {
        return;
      }
      if 0xD800 <= cp.value <= 0xDBFF && i + 1 < |s| && s[i] == '\\' && s[i + 1] == 'u' {
        var save := i;
        assert Rest()[0] == s[i] && Rest()[1] == s[i + 1] && Rest()[2..] == s[i + 2..];
        assert |Rest()| >= 6 ==> Rest()[6..] == Rest()[2..][4..];
        i := i + 2;
        var lo := ParseHex4();
        if lo.Some? && 0xDC00 <= lo.value <= 0xDFFF {
          cp := Some(0x10000 + (cp.value - 0xD800) * 0x400 + (lo.value - 0xDC00));
        } else {
          i := save;
          cp := Some(0xFFFD);
        }
      } else if 0xD800 <= cp.value <= 0xDFFF {
        assert i + 1 < |s| ==> Rest()[0] == s[i] && Rest()[1] == s[i + 1];
        cp := Some(0xFFFD);
      }
    }

    /** What follows a backslash. */
    method ParseEscape() returns (p: Option<Bytes>)
      requires Valid() && 0 < i && s[i - 1] == '\\'
      modifies this
      ensures Valid()
      ensures match Piece(s[old(i) - 1..])
              case None => p == None
              case Some((text, rest)) => p == Some(text) && Rest() == rest
    {
      ghost var all := s[i - 1..];
      assert all[0] == '\\';
      if i >= |s| {
        return None;
      }
      assert all[1] == s[i] && all[2..] == s[i + 1..];
      var e := s[i];
      i := i + 1;
      if e == 'u' {
        var cp := ParseCodePoint();
        p := if cp.Some? then Some(Utf8(cp.value)) else None;
      } else {
        var c := Simple(e);
        p := if c.Some? then Some([c.value]) else None;
      }
    }

    /** One turn of the string loop, for a byte other than the closing quote. */
    method ParsePiece() returns (p: Option<Bytes>)
      requires Valid() && i < |s|
      modifies this
      ensures Valid()
      ensures match Piece(old(Rest()))
              case None => p == None
              case Some((text, rest)) => p == Some(text) && Rest() == rest
    {
      assert Rest()[0] == s[i] && Rest()[1..] == s[i + 1..];
      var c := s[i];
      i := i + 1;
      if c < 32 as char {
        return None;
      }
      if c != '\\' {
        return Some([c]);
      }
      p := ParseEscape();
    }

    method ParseQuoted() returns (r: Option<Bytes>)
      requires Valid()
      modifies this
      ensures Valid()
      ensures match ParseString(old(Rest()))
              case None => r == None
              case Some((text, rest)) => r == Some(text) && Rest() == rest
    {
      var ok := Eat('"');
      if !ok {
        return None;
      }
      var out := "";
      ghost var goal := StringBody(Rest(), "");
      while i < |s|
        invariant Valid() && StringBody(Rest(), out) == goal
        decreases |s| - i
      {
        assert Rest()[0] == s[i] && Rest()[1..] == s[i + 1..];
        if s[i] == '"' {
          i := i + 1;
          return Some(out);
        }
        var p := ParsePiece();
        if p == None {
          return None;
        }
        out := out + p.value;
      }
      r := None;
    }

    /** One `"k":"v"`. */
    method ParseKeyValue() returns (kv: Option<(Bytes, Bytes)>)
      requires Valid()
      modifies this
      ensures Valid()
      ensures match ParseMember(old(Rest()))
              case None => kv == None
              case Some((k, v, rest)) => kv == Some((k, v)) && Rest() == rest
    {
      var k := ParseQuoted();
      if k == None {
        return None;
      }
      var colon := Eat(':');
      if !colon {
        return None;
      }
      var v := ParseQuoted();
      if v == None {
        return None;
      }
      kv := Some((k.value, v.value));
    }

    method Parse() returns (ok: bool, kv: Map)
      requires Valid()
      modifies this
      ensures Valid()
      ensures var r := ParseFlat(old(Rest()));
              ok == r.0.Some? && kv == r.1 && (ok ==> Rest() == r.0.value)
    {
      kv := map[];
      ok := Eat('{');
      if !ok {
        return;
      }
      SkipWs();
      if i < |s| && s[i] == '}' {
        assert Rest()[0] == s[i] && Rest()[1..] == s[i + 1..];
        i := i + 1;
        return true, kv;
      }
      assert i < |s| ==> Rest()[0] == s[i];
      ghost var goal := ParseMembers(Rest(), map[]);
      while true
        invariant Valid() && ParseMembers(Rest(), kv) == goal
        decreases |s| - i
      {
        var one := ParseKeyValue();
        if one == None {
          return false, kv;
        }
        kv := Emplaced(kv, one.value.0, one.value.1);
        var comma := Eat(',');
        if !comma {
          ok := Eat('}');
          return;
        }
      }
    }

    /** The items after the opening bracket. */
    method ParseItemList() returns (ok: bool, items: seq<Bytes>)
      requires Valid()
      modifies this
      ensures Valid()
      ensures var r := ParseItems(old(Rest()), []);
              ok == r.0.Some? && items == r.1 && (ok ==> Rest() == r.0.value)
    {
      items := [];
      ghost var goal := ParseItems(Rest(), []);
      while true
        invariant Valid() && ParseItems(Rest(), items) == goal
        decreases |s| - i
      {
        var one := ParseQuoted();
        if one == None {
          return false, items;
        }
        items := items + [one.value];
        var comma := Eat(',');
        if !comma {
          ok := Eat(']');
          return;
        }
      }
    }
  }

  method ParseSessionJson(text: Bytes) returns (ok: bool, kv: Map)
    ensures (ok, kv) == ParseObject(text)
  {
    var p := new JsonFlatParser(text);
    ok, kv := p.Parse();
    if ok {
      p.SkipWs();
      ok := p.i == |p.s|;
    }
  }

  /** The items are handed back even when the verdict is false. */
  method ParseFlashArray(text: Bytes) returns (ok: bool, items: seq<Bytes>)
    ensures (ok, items) == ParseArray(text)
  {
    items := [];
    if text == [] {
      return false, [];
    }
    var p := new JsonFlatParser(text);
    ok := p.Eat('[');
    if !ok {
      return;
    }
    p.SkipWs();
    var close := p.Eat(']');
    if close {
      return true, [];
    }
    ok, items := p.ParseItemList();
    if ok {
      p.SkipWs();
      ok := p.i == |p.s|;
    }
  }

  // ------------------------------------------------------------------- flash

  function ValueOf(values: Map, key: Bytes): Bytes {
    if key in values then values[key] else ""
  }

  function FlashAdded(values: Map, key: Bytes, value: Bytes): Map {
    values[key := DumpArray(ParseArray(ValueOf(values, key)).1 + [value])]
  }

  class Session {
    const flashKey: Bytes  // the key for an empty argument
    var values: Map
    var written: bool

    constructor (flashKey: Bytes, values: Map)
      ensures this.flashKey == flashKey && this.values == values && !written
    {
      this.flashKey, this.values, written := flashKey, values, false;
    }

    function Key(inKey: Bytes): Bytes {
      if inKey == [] then flashKey else inKey
    }

    method AddFlash(value: Bytes, inKey: Bytes)
      modifies this
      ensures values == FlashAdded(old(values), Key(inKey), value) && written
    {
      var key := Key(inKey);
      var _, items := ParseFlashArray(ValueOf(values, key));
      items := items + [value];
      var text := DumpFlashArray(items);
      values := values[key := text];
      written := true;
    }

    /** What cannot be read stays where it is. */
    method Flashes(inKey: Bytes) returns (items: seq<Bytes>)
      modifies this
      ensures var key := Key(inKey);
              var (ok, read) := ParseArray(ValueOf(old(values), key));
              && items == (if ok then read else [])
              && values == (if ok then old(values) - {key} else old(values))
              && written == (old(written) || (ok && key in old(values)))
    {
      var key := Key(inKey);
      var ok;
      ok, items := ParseFlashArray(ValueOf(values, key));
      if !ok {
        return [];
      }
      if key in values {
        values := values - {key};
        written := true;
      }
    }
  }

  function AllAdded(values: Map, key: Bytes, vs: seq<Bytes>): Map
    decreases |vs|
  {
    if vs == [] then values else AllAdded(FlashAdded(values, key, vs[0]), key, vs[1..])
  }

  lemma ReadBack(v: seq<Bytes>)
    ensures ParseArray(DumpArray(v)) == (true, v)
  {
    ArrayRoundTrip(v, "");
    assert DumpArray(v) + "" == DumpArray(v);
  }

  lemma {:induction false} AddedToList(values: Map, key: Bytes, had: seq<Bytes>, vs: seq<Bytes>)
    requires key in values && values[key] == DumpArray(had)
    ensures AllAdded(values, key, vs) == values[key := DumpArray(had + vs)]
    decreases |vs|
  {
    if vs == [] {
      assert had + vs == had;
    } else {
      ReadBack(had);
      AddedToList(FlashAdded(values, key, vs[0]), key, had + [vs[0]], vs[1..]);
      Regroup(had, vs);
    }
  }

  /** From an absent key, any run of AddFlash leaves a list that Flashes reads as
      exactly the values added, in order, and touches no other key. */
  lemma FlashRun(values: Map, key: Bytes, vs: seq<Bytes>)
    requires key !in values && vs != []
    ensures var after := AllAdded(values, key, vs);
            key in after && ParseArray(after[key]) == (true, vs) && after - {key} == values
  {
    FirstFlash(values, key, vs[0]);
    AddedToList(FlashAdded(values, key, vs[0]), key, [vs[0]], vs[1..]);
    assert [vs[0]] + vs[1..] == vs;
    ReadBack(vs);
  }

  lemma FirstFlash(values: Map, key: Bytes, value: Bytes)
    requires key !in values
    ensures FlashAdded(values, key, value) == values[key := DumpArray([value])]
  {
    assert ParseArray("") == (false, []);
    assert [] + [value] == [value];
  }

  /** ... which is what the methods do. */
  method FlashRoundTrip(session: Session, key: Bytes, vs: seq<Bytes>) returns (items: seq<Bytes>)
    requires session.Key(key) !in session.values
    modifies session
    ensures items == vs && session.values == old(session.values)
  {
    ghost var k := session.Key(key);
    for n := 0 to |vs|
      invariant AllAdded(session.values, k, vs[n..]) == AllAdded(old(session.values), k, vs)
    {
      assert vs[n..][0] == vs[n] && vs[n..][1..] == vs[n + 1..];
      session.AddFlash(vs[n], key);
    }
    assert session.values == AllAdded(old(session.values), k, vs);
    if vs == [] {
      assert ParseArray("") == (false, []);
    } else {
      FlashRun(old(session.values), k, vs);
    }
    items := session.Flashes(key);
  }

  // ------------------------------------------------------------ damaged values

  /** The value begins as an array with at least one whole string. */
  predicate BeginsWithItem(text: Bytes) {
    Eats(text, '[') && ParseString(Ws(Ate(text, '['))).Some?
  }

  lemma {:induction false} ItemsGrow(s: Bytes, v: seq<Bytes>)
    ensures |ParseItems(s, v).1| >= |v|
    ensures ParseString(s).Some? ==> |ParseItems(s, v).1| > |v|
    decreases |s|
  {
    if ParseString(s).Some? {
      var (x, rest) := ParseString(s).value;
      if Eats(rest, ',') {
        ItemsGrow(Ate(rest, ','), v + [x]);
      }
    }
  }

  lemma DamagedItems(text: Bytes)
    requires !ParseArray(text).0
    ensures ParseArray(text).1 == [] <==> !BeginsWithItem(text)
  {
    if Eats(text, '[') {
      ItemsGrow(Ws(Ate(text, '[')), []);
    }
  }

  /** A damaged value is meant to count as empty.  It does exactly when no whole string
      was read before the damage; otherwise the strings read stay in the list. */
  lemma DamagedCountsAsEmptyIff(values: Map, key: Bytes, value: Bytes)
    requires !ParseArray(ValueOf(values, key)).0
    ensures FlashAdded(values, key, value) == values[key := DumpArray([value])]
       <==> !BeginsWithItem(ValueOf(values, key))
  {
    var items := ParseArray(ValueOf(values, key)).1;
    DamagedItems(ValueOf(values, key));
    ReadBack(items + [value]);
    ReadBack([value]);
    if FlashAdded(values, key, value) == values[key := DumpArray([value])] {
      assert DumpArray(items + [value]) == values[key := DumpArray([value])][key];
    }
    assert items == [] ==> items + [value] == [value];
  }

  /** For instance an array cut off after its first string. */
  lemma DamagedKeepsPrefix()
    ensures ParseArray("[\"a\"") == (false, ["a"])
  {
    var s := "[\"a\"";
    assert s == ['['] + "\"a\"";
    NextChar('[', "\"a\"");
    assert "\"a\"" == ['"'] + "a\"";
    NextChar('"', "a\"");
    assert Quoted("a") + "" == "\"a\"" by {
      assert EscapeAll("a") == EscapeChar('a') + EscapeAll("");
    }
    StringRead("a", "");
    assert [] + ["a"] == ["a"];
  }
}
