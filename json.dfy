/**
 * `JSON.stringify` and `JSON.parse` restricted to what the question bridge
 * sends through them: flat objects whose values are strings or non-negative
 * integers. The encoder follows `JSON.stringify` exactly on that domain
 * (no whitespace, fields in insertion order, the short escapes for `"`, `\`,
 * backspace, form feed, newline, carriage return and tab, `\u00xx` for the
 * other control characters, every other character written as is). The
 * decoder accepts the same whitespace-free form with any escape sequence and
 * gives later duplicate keys precedence, as `JSON.parse` does.
 */
module Json {
  import opened Wrappers
  import opened Text

  datatype Value = Str(s: string) | Num(n: nat)

  type Fields = seq<(string, Value)>

  // ---------------------------------------------------------------------------
  // Encoding
  // ---------------------------------------------------------------------------

  function HexDigit(d: nat): char
    requires d < 16
  {
    "0123456789abcdef"[d]
  }

  function EscapeChar(c: char): string {
    if c == '"' then "\\\""
    else if c == '\\' then "\\\\"
    else if c == '\U{0008}' then "\\b"
    else if c == '\U{000C}' then "\\f"
    else if c == '\n' then "\\n"
    else if c == '\r' then "\\r"
    else if c == '\t' then "\\t"
    else if c < ' ' then "\\u00" + [HexDigit(c as int / 16), HexDigit(c as int % 16)]
    else [c]
  }

  function Escape(s: string): string
    decreases |s|
  {
    if s == [] then "" else EscapeChar(s[0]) + Escape(s[1..])
  }

  /** `JSON.stringify` of a string. */
  function Quote(s: string): string {
    "\"" + Escape(s) + "\""
  }

  function EncodeValue(v: Value): string {
    match v
    case Str(s) => Quote(s)
    case Num(n) => NatToString(n)
  }

  function EncodeMembers(fields: Fields): string
    decreases |fields|
  {
    if fields == [] then ""
    else
      Quote(fields[0].0) + ":" + EncodeValue(fields[0].1)
      + (if |fields| > 1 then "," + EncodeMembers(fields[1..]) else "")
  }

  /** `JSON.stringify` of an object literal with the given fields in order. */
  function Stringify(fields: Fields): string {
    "{" + EncodeMembers(fields) + "}"
  }

  /** The object `JSON.parse` builds from the fields: later keys override earlier ones. */
  function FieldsMap(acc: map<string, Value>, fields: Fields): map<string, Value>
    decreases |fields|
  {
    if fields == [] then acc else FieldsMap(acc[fields[0].0 := fields[0].1], fields[1..])
  }

  // ---------------------------------------------------------------------------
  // Decoding
  // ---------------------------------------------------------------------------

  predicate IsHex(c: char) {
    ('0' <= c <= '9') || ('a' <= c <= 'f') || ('A' <= c <= 'F')
  }

  function HexValue(c: char): (d: nat)
    requires IsHex(c)
    ensures d < 16
  {
    if '0' <= c <= '9' then c as int - '0' as int
    else if 'a' <= c <= 'f' then c as int - 'a' as int + 10
    else c as int - 'A' as int + 10
  }

  function Hex4Value(h: string): (v: nat)
    requires |h| == 4 && IsHex(h[0]) && IsHex(h[1]) && IsHex(h[2]) && IsHex(h[3])
    ensures v < 0x10000
  {
    ((HexValue(h[0]) * 16 + HexValue(h[1])) * 16 + HexValue(h[2])) * 16 + HexValue(h[3])
  }

  /** The character a one-letter escape stands for. */
  function SimpleEscape(e: char): Option<char> {
    if e == '"' then Some('"')
    else if e == '\\' then Some('\\')
    else if e == '/' then Some('/')
    else if e == 'b' then Some('\U{0008}')
    else if e == 'f' then Some('\U{000C}')
    else if e == 'n' then Some('\n')
    else if e == 'r' then Some('\r')
    else if e == 't' then Some('\t')
    else None
  }

  /**
   * The characters of a string literal whose opening quote has been read,
   * and the input after its closing quote. A raw control character, an
   * unknown escape or a lone surrogate escape is a syntax error.
   */
  function ParseStringBody(s: string): (r: Option<(string, string)>)
    ensures r.Some? ==> |r.value.1| < |s|
    decreases |s|
  {
    if s == [] then None
    else if s[0] == '"' then Some(("", s[1..]))
    else if s[0] < ' ' then None
    else if s[0] != '\\' then
      match ParseStringBody(s[1..])
      case None => None
      case Some(p) => Some(([s[0]] + p.0, p.1))
    else if |s| < 2 then None
    else if s[1] == 'u' then
      if |s| < 6 || !(IsHex(s[2]) && IsHex(s[3]) && IsHex(s[4]) && IsHex(s[5])) then None
      else
        var code := Hex4Value(s[2..6]);
        if 0xD800 <= code < 0xE000 then None
        else
          match ParseStringBody(s[6..])
          case None => None
          case Some(p) => Some(([code as char] + p.0, p.1))
    else
      match SimpleEscape(s[1])
      case None => None
      case Some(c) =>
        match ParseStringBody(s[2..])
        case None => None
        case Some(p) => Some(([c] + p.0, p.1))
  }

  /** A non-negative integer literal (no leading zeros) and the input after it. */
  function ParseNat(s: string): (r: Option<(nat, string)>)
    ensures r.Some? ==> |r.value.1| < |s|
  {
    var k := RunLength(s, IsDigit);
    if k == 0 || (s[0] == '0' && k > 1) then None
    else Some((DigitsValue(s[..k]), s[k..]))
  }

  function ParseValue(s: string): (r: Option<(Value, string)>)
    ensures r.Some? ==> |r.value.1| < |s|
  {
    if s != [] && s[0] == '"' then
      match ParseStringBody(s[1..])
      case None => None
      case Some(p) => Some((Str(p.0), p.1))
    else
      match ParseNat(s)
      case None => None
      case Some(p) => Some((Num(p.0), p.1))
  }

  /** `"key":value`, and the input after it. */
  function ParseMember(s: string): (r: Option<(string, Value, string)>)
    ensures r.Some? ==> |r.value.2| < |s|
  {
    if s == [] || s[0] != '"' then None
    else
      match ParseStringBody(s[1..])
      case None => None
      case Some(k) => ParseColonValue(k.0, k.1)
  }

  /** The `:value` part of a member whose key has been read. */
  function ParseColonValue(key: string, s: string): (r: Option<(string, Value, string)>)
    ensures r.Some? ==> |r.value.2| < |s|
  {
    if s == [] || s[0] != ':' then None
    else
      match ParseValue(s[1..])
      case None => None
      case Some(v) => Some((key, v.0, v.1))
  }

  /** The members after `{` up to the final `}`, which must end the input. */
  function ParseMembers(s: string, acc: map<string, Value>): Option<map<string, Value>>
    decreases |s|
  {
    match ParseMember(s)
    case None => None
    case Some(m) =>
      var acc' := acc[m.0 := m.1];
      if m.2 == "}" then Some(acc')
      else if m.2 != [] && m.2[0] == ',' then ParseMembers(m.2[1..], acc')
      else None
  }

  /** `JSON.parse` of a flat object; `None` where `JSON.parse` throws or the text is outside the modelled form. */
  function Parse(s: string): Option<map<string, Value>> {
    if s == "{}" then Some(map[])
    else if s != [] && s[0] == '{' then ParseMembers(s[1..], map[])
    else None
  }

  /** Property access on a parsed object; `None` is `undefined`. */
  function Get(obj: map<string, Value>, key: string): Option<Value> {
    if key in obj then Some(obj[key]) else None
  }

  // ---------------------------------------------------------------------------
  // Round trip
  // ---------------------------------------------------------------------------

  lemma HexByteValue(c: char)
    requires c < ' '
    ensures var e := EscapeChar(c);
      c != '"' && c != '\\' && c != '\U{0008}' && c != '\U{000C}' && c != '\n' && c != '\r' && c != '\t' ==>
        |e| == 6 && e[..2] == "\\u" && IsHex(e[2]) && IsHex(e[3]) && IsHex(e[4]) && IsHex(e[5])
        && Hex4Value(e[2..6]) == c as int
  {
    var n := c as int;
    assert HexValue(HexDigit(n / 16)) == n / 16;
    assert HexValue(HexDigit(n % 16)) == n % 16;
  }

  /** Decoding one escaped character and then the rest. */
  lemma {:induction false} EscapeCharRoundTrip(c: char, t: string, v: string, rest: string)
    requires ParseStringBody(t) == Some((v, rest))
    ensures ParseStringBody(EscapeChar(c) + t) == Some(([c] + v, rest))
  {
    var e := EscapeChar(c);
    var s := e + t;
    if c == '"' || c == '\\' || c == '\U{0008}' || c == '\U{000C}' || c == '\n' || c == '\r' || c == '\t' {
      assert |e| == 2 && s[0] == '\\' && s[2..] == t;
    } else if c < ' ' {
      HexByteValue(c);
      assert s[0] == '\\' && s[1] == 'u' && s[2..6] == e[2..6] && s[6..] == t;
    } else {
      assert e == [c] && s[1..] == t;
    }
  }

  /** Reading back an escaped string stops exactly at its closing quote. */
  lemma {:induction false} StringRoundTrip(x: string, rest: string)
    ensures ParseStringBody(Escape(x) + "\"" + rest) == Some((x, rest))
    decreases |x|
  {
    if x == [] {
      assert Escape(x) + "\"" + rest == "\"" + rest;
    } else {
      StringRoundTrip(x[1..], rest);
      EscapeShape(x, rest);
      EscapeCharRoundTrip(x[0], Escape(x[1..]) + "\"" + rest, x[1..], rest);
      assert [x[0]] + x[1..] == x;
    }
  }

  lemma EscapeShape(x: string, rest: string)
    requires x != []
    ensures Escape(x) + "\"" + rest == EscapeChar(x[0]) + (Escape(x[1..]) + "\"" + rest)
  {
  }

  lemma NatRoundTrip(n: nat, rest: string)
    requires rest == [] || !IsDigit(rest[0])
    ensures ParseNat(NatToString(n) + rest) == Some((n, rest))
  {
    var d := NatToString(n);
    var s := d + rest;
    RunOfDigits(d, rest);
    assert s[..|d|] == d && s[|d|..] == rest;
    NatToStringValue(n);
  }

  lemma {:induction false} RunOfDigits(d: string, rest: string)
    requires forall i :: 0 <= i < |d| ==> IsDigit(d[i])
    requires rest == [] || !IsDigit(rest[0])
    ensures RunLength(d + rest, IsDigit) == |d|
    decreases |d|
  {
    if d != [] {
      RunOfDigits(d[1..], rest);
      assert (d + rest)[1..] == d[1..] + rest;
    }
  }

  lemma StrRoundTrip(x: string, rest: string)
    ensures ParseValue(Quote(x) + rest) == Some((Str(x), rest))
  {
    var s := Quote(x) + rest;
    assert s == "\"" + (Escape(x) + "\"" + rest);
    StringRoundTrip(x, rest);
  }

  lemma NumRoundTrip(n: nat, rest: string)
    requires rest == [] || !IsDigit(rest[0])
    ensures ParseValue(NatToString(n) + rest) == Some((Num(n), rest))
  {
    NatRoundTrip(n, rest);
    var d := NatToString(n);
    assert (d + rest)[0] == d[0];
  }

  lemma ValueRoundTrip(v: Value, rest: string)
    requires rest == [] || !IsDigit(rest[0])
    ensures ParseValue(EncodeValue(v) + rest) == Some((v, rest))
  {
    match v
    case Str(x) => StrRoundTrip(x, rest);
    case Num(n) => NumRoundTrip(n, rest);
  }

  lemma ColonValueRoundTrip(k: string, v: Value, rest: string)
    requires rest == [] || !IsDigit(rest[0])
    ensures ParseColonValue(k, ":" + (EncodeValue(v) + rest)) == Some((k, v, rest))
  {
    var t := ":" + (EncodeValue(v) + rest);
    assert t[1..] == EncodeValue(v) + rest;
    ValueRoundTrip(v, rest);
  }

  lemma ParseMemberOfKey(ek: string, k: string, t: string)
    requires ParseStringBody(ek + "\"" + t) == Some((k, t))
    ensures ParseMember("\"" + (ek + "\"" + t)) == ParseColonValue(k, t)
  {
    var s := "\"" + (ek + "\"" + t);
    assert s[1..] == ek + "\"" + t;
  }

  lemma MemberShape(k: string, ev: string, rest: string)
    ensures Quote(k) + ":" + ev + rest == "\"" + (Escape(k) + "\"" + (":" + (ev + rest)))
  {
  }

  lemma MemberRoundTrip(k: string, v: Value, rest: string)
    requires rest == [] || !IsDigit(rest[0])
    ensures ParseMember(Quote(k) + ":" + EncodeValue(v) + rest) == Some((k, v, rest))
  {
    var t := ":" + (EncodeValue(v) + rest);
    StringRoundTrip(k, t);
    ParseMemberOfKey(Escape(k), k, t);
    ColonValueRoundTrip(k, v, rest);
    MemberShape(k, EncodeValue(v), rest);
  }

  lemma ParseMembersLast(s: string, acc: map<string, Value>, k: string, v: Value)
    requires ParseMember(s) == Some((k, v, "}"))
    ensures ParseMembers(s, acc) == Some(acc[k := v])
  {
  }

  lemma ParseMembersNext(s: string, acc: map<string, Value>, k: string, v: Value, tail: string)
    requires ParseMember(s) == Some((k, v, tail)) && tail != [] && tail[0] == ','
    ensures ParseMembers(s, acc) == ParseMembers(tail[1..], acc[k := v])
  {
  }

  lemma Append3(a: string, b: string, c: string)
    ensures (a + b) + c == a + (b + c)
  {
  }

  lemma MembersShape(fields: Fields)
    requires fields != []
    ensures var k, v := fields[0].0, fields[0].1;
      if |fields| == 1 then EncodeMembers(fields) + "}" == Quote(k) + ":" + EncodeValue(v) + "}"
      else EncodeMembers(fields) + "}" == Quote(k) + ":" + EncodeValue(v) + ("," + (EncodeMembers(fields[1..]) + "}"))
  {
    var head := Quote(fields[0].0) + ":" + EncodeValue(fields[0].1);
    if |fields| > 1 {
      var more := "," + EncodeMembers(fields[1..]);
      assert EncodeMembers(fields) == head + more;
      Append3(head, more, "}");
      Append3(",", EncodeMembers(fields[1..]), "}");
    } else {
      assert EncodeMembers(fields) == head + "";
    }
  }

  lemma {:induction false} MembersRoundTrip(fields: Fields, acc: map<string, Value>)
    requires fields != []
    ensures ParseMembers(EncodeMembers(fields) + "}", acc) == Some(FieldsMap(acc, fields))
    decreases |fields|
  {
    var k, v := fields[0].0, fields[0].1;
    var s := EncodeMembers(fields) + "}";
    MembersShape(fields);
    if |fields| == 1 {
      MemberRoundTrip(k, v, "}");
      ParseMembersLast(s, acc, k, v);
    } else {
      var next := EncodeMembers(fields[1..]) + "}";
      MemberRoundTrip(k, v, "," + next);
      ParseMembersNext(s, acc, k, v, "," + next);
      assert ("," + next)[1..] == next;
      MembersRoundTrip(fields[1..], acc[k := v]);
    }
  }

  lemma StringifyShape(fields: Fields)
    requires fields != []
    ensures var s := Stringify(fields); s != "{}" && s != [] && s[0] == '{' && s[1..] == EncodeMembers(fields) + "}"
  {
    var m := EncodeMembers(fields);
    var s := Stringify(fields);
    Append3("{", m, "}");
    assert m[0] == '"' by {
      var head := Quote(fields[0].0) + ":" + EncodeValue(fields[0].1);
      assert m == head + (if |fields| > 1 then "," + EncodeMembers(fields[1..]) else "");
      assert head[0] == '"';
    }
    assert s[1] == m[0];
  }

  /** `JSON.parse(JSON.stringify(o))` gives back every field of `o`. */
  lemma RoundTrip(fields: Fields)
    ensures Parse(Stringify(fields)) == Some(FieldsMap(map[], fields))
  {
    if fields == [] {
      assert Stringify(fields) == "{}";
    } else {
      StringifyShape(fields);
      MembersRoundTrip(fields, map[]);
    }
  }

  // ---------------------------------------------------------------------------
  // Reading one field back
  // ---------------------------------------------------------------------------

  predicate DistinctKeys(fields: Fields) {
    forall i, j :: 0 <= i < j < |fields| ==> fields[i].0 != fields[j].0
  }

  /** The value of the last field named `key`. */
  function Lookup(fields: Fields, key: string): Option<Value>
    decreases |fields|
  {
    if fields == [] then None
    else
      match Lookup(fields[1..], key)
      case Some(v) => Some(v)
      case None => if fields[0].0 == key then Some(fields[0].1) else None
  }

  lemma {:induction false} FieldsMapGet(acc: map<string, Value>, fields: Fields, key: string)
    ensures Get(FieldsMap(acc, fields), key) == if Lookup(fields, key).Some? then Lookup(fields, key) else Get(acc, key)
    decreases |fields|
  {
    if fields != [] {
      FieldsMapGet(acc[fields[0].0 := fields[0].1], fields[1..], key);
    }
  }

  lemma {:induction false} LookupDistinct(fields: Fields, i: nat)
    requires DistinctKeys(fields) && i < |fields|
    ensures Lookup(fields, fields[i].0) == Some(fields[i].1)
    decreases |fields|
  {
    var key := fields[i].0;
    if i == 0 {
      LookupAbsent(fields[1..], key);
    } else {
      LookupDistinct(fields[1..], i - 1);
    }
  }

  lemma {:induction false} LookupAbsent(fields: Fields, key: string)
    requires forall i :: 0 <= i < |fields| ==> fields[i].0 != key
    ensures Lookup(fields, key) == None
    decreases |fields|
  {
    if fields != [] {
      LookupAbsent(fields[1..], key);
    }
  }

  /** Each field of an object with distinct keys reads back from its JSON text. */
  lemma ParsedField(fields: Fields, i: nat)
    requires DistinctKeys(fields) && i < |fields|
    ensures Parse(Stringify(fields)).Some?
    ensures Get(Parse(Stringify(fields)).value, fields[i].0) == Some(fields[i].1)
  {
    RoundTrip(fields);
    FieldsMapGet(map[], fields, fields[i].0);
    LookupDistinct(fields, i);
  }

  /** A key the object does not have reads back as `undefined`. */
  lemma ParsedAbsent(fields: Fields, key: string)
    requires forall i :: 0 <= i < |fields| ==> fields[i].0 != key
    ensures Parse(Stringify(fields)).Some?
    ensures Get(Parse(Stringify(fields)).value, key) == None
  {
    RoundTrip(fields);
    FieldsMapGet(map[], fields, key);
    LookupAbsent(fields, key);
  }

  // Objects of one to four members with distinct keys, the keys left abstract
  // so that callers passing literal keys do not have their text unfolded.

  lemma ReadBack1(k0: string, v0: Value, other: string)
    requires other != k0
    ensures var p := Parse(Stringify([(k0, v0)]));
      p.Some? && Get(p.value, k0) == Some(v0) && Get(p.value, other) == None
  {
    ParsedField([(k0, v0)], 0);
    ParsedAbsent([(k0, v0)], other);
  }

  lemma ReadBack2(k0: string, v0: Value, k1: string, v1: Value)
    requires k0 != k1
    ensures var p := Parse(Stringify([(k0, v0), (k1, v1)]));
      p.Some? && Get(p.value, k0) == Some(v0) && Get(p.value, k1) == Some(v1)
  {
    ParsedField([(k0, v0), (k1, v1)], 0);
    ParsedField([(k0, v0), (k1, v1)], 1);
  }

  lemma ReadBack3(k0: string, v0: Value, k1: string, v1: Value, k2: string, v2: Value, other: string)
    requires k0 != k1 && k0 != k2 && k1 != k2
    requires other != k0 && other != k1 && other != k2
    ensures var p := Parse(Stringify([(k0, v0), (k1, v1), (k2, v2)]));
      && p.Some? && Get(p.value, k0) == Some(v0) && Get(p.value, k1) == Some(v1)
      && Get(p.value, k2) == Some(v2) && Get(p.value, other) == None
  {
    var fields := [(k0, v0), (k1, v1), (k2, v2)];
    ParsedField(fields, 0);
    ParsedField(fields, 1);
    ParsedField(fields, 2);
    ParsedAbsent(fields, other);
  }

  lemma ReadBack4(k0: string, v0: Value, k1: string, v1: Value, k2: string, v2: Value, k3: string, v3: Value)
    requires k0 != k1 && k0 != k2 && k0 != k3 && k1 != k2 && k1 != k3 && k2 != k3
    ensures var p := Parse(Stringify([(k0, v0), (k1, v1), (k2, v2), (k3, v3)]));
      && p.Some? && Get(p.value, k0) == Some(v0) && Get(p.value, k1) == Some(v1)
      && Get(p.value, k2) == Some(v2) && Get(p.value, k3) == Some(v3)
  {
    var fields := [(k0, v0), (k1, v1), (k2, v2), (k3, v3)];
    ParsedField(fields, 0);
    ParsedField(fields, 1);
    ParsedField(fields, 2);
    ParsedField(fields, 3);
  }
}
